/** The declarative side of the pattern search: what a hop contributes to a match, one crossing at a
    time, and what reversing a directed hop preserves. */
module PatternSearch {
  import opened PatternGraph
  import opened PatternReach

  /** t is a path the first step may take to a match of the whole. */
  ghost predicate HopTo(g: Graph, steps: seq<Step>, row: Row, cur: Node, used: set<Rel>, t: Path)
    requires steps != []
  {
    && IsTrail(g, steps[0], steps[0].dir, cur, used, t)
    && steps[0].Lo() <= |t| <= steps[0].Hi()
    && steps[0].Accepts(row, End(cur, t))
    && Matches(g, steps[1..], row, End(cur, t), used + Crossed(t))
  }

  lemma MatchesByHop(g: Graph, steps: seq<Step>, row: Row, cur: Node, used: set<Rel>)
    requires steps != [] && RelVarsFree(steps, row) && ReadsOnly(steps, row)
    ensures Matches(g, steps, row, cur, used) <==> exists t :: HopTo(g, steps, row, cur, used, t)
  {
    if m: Match :| IsMatch(g, steps, row, cur, used, m) {
      BindIsIdle(g, steps, row, End(cur, m[0]), used + Crossed(m[0]), m[0]);
      assert IsMatch(g, steps[1..], steps[0].Bind(row, End(cur, m[0]), m[0]), End(cur, m[0]), used + Crossed(m[0]), m[1..]);
      assert HopTo(g, steps, row, cur, used, m[0]);
    }
    if t: Path :| HopTo(g, steps, row, cur, used, t) {
      BindIsIdle(g, steps, row, End(cur, t), used + Crossed(t), t);
      var m :| IsMatch(g, steps[1..], steps[0].Bind(row, End(cur, t), t), End(cur, t), used + Crossed(t), m);
      assert ([t] + m)[1..] == m;
      assert IsMatch(g, steps, row, cur, used, [t] + m);
    }
  }

  /** c is a crossing a fixed hop may take in direction dir to a match of the whole. */
  ghost predicate Leg(g: Graph, steps: seq<Step>, row: Row, cur: Node, used: set<Rel>, dir: Dir, c: Crossing)
    requires steps != []
  {
    && CanCross(g, steps[0], dir, cur, c) && c.rel !in used
    && steps[0].Accepts(row, c.To())
    && Matches(g, steps[1..], row, c.To(), used + {c.rel})
  }

  lemma FixedHop(g: Graph, steps: seq<Step>, row: Row, cur: Node, used: set<Rel>)
    requires steps != [] && RelVarsFree(steps, row) && ReadsOnly(steps, row) && steps[0].range.None?
    ensures Matches(g, steps, row, cur, used) <==> exists c :: Leg(g, steps, row, cur, used, steps[0].dir, c)
  {
    MatchesByHop(g, steps, row, cur, used);
    if t: Path :| HopTo(g, steps, row, cur, used, t) {
      assert Crossed(t) == {t[0].rel};
      assert Leg(g, steps, row, cur, used, steps[0].dir, t[0]);
    }
    if c :| Leg(g, steps, row, cur, used, steps[0].dir, c) {
      assert [c][0].rel in Crossed([c]) && Crossed([c]) == {c.rel};
      assert [c][1..] == [] && IsWalk(g, steps[0], steps[0].dir, c.To(), []);
      assert HopTo(g, steps, row, cur, used, [c]);
    }
  }

  /** The two legs of an undirected hop: a self-loop both reach is one relationship, so the second
      leg's answer for it is the first's. */
  lemma BothLegs(g: Graph, steps: seq<Step>, row: Row, cur: Node, used: set<Rel>)
    requires steps != []
    ensures (exists c :: Leg(g, steps, row, cur, used, Both, c)) <==>
            (exists c :: Leg(g, steps, row, cur, used, Out, c)) || (exists c :: Leg(g, steps, row, cur, used, In, c))
  {
    if c :| Leg(g, steps, row, cur, used, Both, c) {
      assert Leg(g, steps, row, cur, used, if c.forward then Out else In, c);
    }
    if c :| Leg(g, steps, row, cur, used, Out, c) { assert Leg(g, steps, row, cur, used, Both, c); }
    if c :| Leg(g, steps, row, cur, used, In, c) {
      assert Leg(g, steps, row, cur, used, Both, if c.dst == c.rel.src then c.(forward := true) else c);
    }
  }

  /** The pair's verdict on an end node n of a hop in direction dir. */
  predicate PairLeg(g: Graph, s: Step, row: Row, cur: Node, dir: Dir, n: Node) {
    (if dir == In then PairMatches(g, n, cur, s.types) else PairMatches(g, cur, n, s.types)) && s.Accepts(row, n)
  }

  /** Over a single hop with no property map, and nothing crossed yet, the pair's verdict is exact:
      parallel relationships cannot answer differently. */
  lemma PairDecides(g: Graph, steps: seq<Step>, row: Row, cur: Node, dir: Dir, n: Node)
    requires |steps| == 1 && steps[0].props.None? && dir != Both
    ensures PairLeg(g, steps[0], row, cur, dir, n) <==> exists c :: Leg(g, steps, row, cur, {}, dir, c) && c.To() == n
  {
    if PairLeg(g, steps[0], row, cur, dir, n) {
      var src, dst := if dir == In then n else cur, if dir == In then cur else n;
      var r := PairHoldsOne(g, steps[0], src, dst);
      var c := Crossing(r, dst, dir == Out);
      assert IsMatch(g, steps[1..], row, n, {} + {r}, []);
      assert Leg(g, steps, row, cur, {}, dir, c) && c.To() == n;
    }
  }

  lemma PairsSettle(g: Graph, steps: seq<Step>, row: Row, cur: Node, dir: Dir)
    requires |steps| == 1 && steps[0].props.None? && dir != Both
    ensures (exists c :: Leg(g, steps, row, cur, {}, dir, c)) <==> (exists n :: PairLeg(g, steps[0], row, cur, dir, n))
  {
    if c :| Leg(g, steps, row, cur, {}, dir, c) { PairDecides(g, steps, row, cur, dir, c.To()); }
    if n :| PairLeg(g, steps[0], row, cur, dir, n) { PairDecides(g, steps, row, cur, dir, n); }
  }

  // ------------------------------------------------------------------ variable-length hops

  /** t completes the hop from cur, depth relationships in, and the rest matches beyond it. */
  ghost predicate Completes(g: Graph, vs: Search, rest: seq<Step>, cur: Node, depth: nat, used: set<Rel>, t: Path) {
    && IsTrail(g, vs.s, vs.dir, cur, used, t)
    && vs.lo <= depth + |t| <= vs.hi
    && vs.Accepts(End(cur, t))
    && Matches(g, rest, vs.row, End(cur, t), used + Crossed(t))
  }

  ghost predicate Completable(g: Graph, vs: Search, rest: seq<Step>, cur: Node, depth: nat, used: set<Rel>) {
    exists t :: Completes(g, vs, rest, cur, depth, used, t)
  }

  lemma TrailHead(g: Graph, s: Step, dir: Dir, cur: Node, used: set<Rel>, t: Path)
    requires t != []
    ensures IsTrail(g, s, dir, cur, used, t) <==>
            CanCross(g, s, dir, cur, t[0]) && t[0].rel !in used && IsTrail(g, s, dir, t[0].To(), used + {t[0].rel}, t[1..])
    ensures Crossed(t) == {t[0].rel} + Crossed(t[1..])
    ensures End(cur, t) == End(t[0].To(), t[1..])
  {
    var rest := t[1..];
    assert forall i :: 0 <= i < |rest| ==> rest[i] == t[i + 1];
    assert forall i :: 0 < i < |t| ==> t[i] == rest[i - 1];
    assert forall r :: r in Crossed(t) ==> r in {t[0].rel} + Crossed(rest);
    assert t[0].rel in Crossed(t);
    forall r | r in Crossed(rest) ensures r in Crossed(t) { var i :| 0 <= i < |rest| && rest[i].rel == r; assert t[i + 1].rel == r; }
    if IsTrail(g, s, dir, cur, used, t) {
      forall r | r in Crossed(rest) ensures r != t[0].rel { var i :| 0 <= i < |rest| && rest[i].rel == r; }
    }
    if t[0].rel !in used && Distinct(rest) && Crossed(rest) !! used + {t[0].rel} {
      forall i, j | 0 <= i < j < |t| ensures t[i].rel != t[j].rel { assert t[j] == rest[j - 1] && rest[j - 1].rel in Crossed(rest); }
    }
  }

  ghost predicate CompletesVia(g: Graph, vs: Search, rest: seq<Step>, cur: Node, depth: nat, used: set<Rel>) {
    exists c :: CanCross(g, vs.s, vs.dir, cur, c) && c.rel !in used && Via(g, vs, rest, depth, used, c)
  }

  ghost predicate Via(g: Graph, vs: Search, rest: seq<Step>, depth: nat, used: set<Rel>, c: Crossing) {
    Completable(g, vs, rest, c.To(), depth + 1, used + {c.rel})
  }

  ghost predicate AnswersAre(g: Graph, vs: Search, rest: seq<Step>, depth: nat, used: set<Rel>, cands: seq<Crossing>,
                             answers: seq<bool>)
  {
    |answers| == |cands| && forall j :: 0 <= j < |cands| ==>
      g.Has(cands[j].rel) && cands[j].rel !in used && (answers[j] <==> Via(g, vs, rest, depth, used, cands[j]))
  }

  /** Which candidates lead to a completion; one does exactly when some crossing does. */
  lemma ViaEach(g: Graph, vs: Search, rest: seq<Step>, cur: Node, depth: nat, used: set<Rel>, cands: seq<Crossing>)
    returns (answers: seq<bool>)
    requires forall c :: c in cands <==> CanCross(g, vs.s, vs.dir, cur, c) && c.rel !in used
    ensures AnswersAre(g, vs, rest, depth, used, cands, answers)
    ensures true in answers <==> CompletesVia(g, vs, rest, cur, depth, used)
  {
    assert forall j :: 0 <= j < |cands| ==> cands[j] in cands;
    answers := seq(|cands|, j requires 0 <= j < |cands| => Via(g, vs, rest, depth, used, cands[j]));
    if c :| CanCross(g, vs.s, vs.dir, cur, c) && c.rel !in used && Via(g, vs, rest, depth, used, c) {
      var j :| 0 <= j < |cands| && cands[j] == c;
      assert answers[j];
    }
    if j :| 0 <= j < |cands| && answers[j] { assert cands[j] in cands; }
  }

  lemma CompletesHere(g: Graph, vs: Search, rest: seq<Step>, cur: Node, depth: nat, used: set<Rel>)
    ensures Completes(g, vs, rest, cur, depth, used, []) <==>
            vs.lo <= depth <= vs.hi && vs.Accepts(cur) && Matches(g, rest, vs.row, cur, used)
  {
    assert used + Crossed([]) == used;
  }

  lemma CompletesStep(g: Graph, vs: Search, rest: seq<Step>, cur: Node, depth: nat, used: set<Rel>, t: Path)
    requires t != []
    ensures Completes(g, vs, rest, cur, depth, used, t) <==>
            CanCross(g, vs.s, vs.dir, cur, t[0]) && t[0].rel !in used
            && Completes(g, vs, rest, t[0].To(), depth + 1, used + {t[0].rel}, t[1..])
  {
    TrailHead(g, vs.s, vs.dir, cur, used, t);
    assert used + Crossed(t) == used + {t[0].rel} + Crossed(t[1..]);
  }

  /** A hop that can be completed ends here, or crosses one more unused relationship. */
  lemma CompletableHereOrVia(g: Graph, vs: Search, rest: seq<Step>, cur: Node, depth: nat, used: set<Rel>)
    requires depth <= vs.hi
    ensures Completable(g, vs, rest, cur, depth, used) <==>
            || (vs.lo <= depth && vs.Accepts(cur) && Matches(g, rest, vs.row, cur, used))
            || (depth < vs.hi && CompletesVia(g, vs, rest, cur, depth, used))
  {
    CompletesHere(g, vs, rest, cur, depth, used);
    if t: Path :| Completes(g, vs, rest, cur, depth, used, t) && t != [] {
      CompletesStep(g, vs, rest, cur, depth, used, t);
      assert Via(g, vs, rest, depth, used, t[0]);
    }
    if depth < vs.hi && CompletesVia(g, vs, rest, cur, depth, used) {
      var c :| CanCross(g, vs.s, vs.dir, cur, c) && c.rel !in used && Via(g, vs, rest, depth, used, c);
      var t: Path :| Completes(g, vs, rest, c.To(), depth + 1, used + {c.rel}, t);
      CompletesStep(g, vs, rest, cur, depth, used, [c] + t);
      assert ([c] + t)[1..] == t;
    }
  }

  // ------------------------------------------------------------------ reversal

  function Flip(c: Crossing): Crossing { c.(forward := !c.forward) }

  function Reverse(t: Path): (r: Path)
    ensures |r| == |t| && forall k :: 0 <= k < |t| ==> r[k] == Flip(t[|t| - 1 - k])
  {
    seq(|t|, k requires 0 <= k < |t| => Flip(t[|t| - 1 - k]))
  }

  function Opposite(dir: Dir): Dir { match dir case Out => In case In => Out case Both => Both }

  lemma {:induction false} WalkReversed(g: Graph, s: Step, dir: Dir, from: Node, t: Path)
    requires dir != Both && IsWalk(g, s, dir, from, t)
    ensures IsWalk(g, s, Opposite(dir), End(from, t), Reverse(t)) && End(End(from, t), Reverse(t)) == from
    decreases |t|
  {
    if t != [] {
      var next := t[0].To();
      WalkReversed(g, s, dir, next, t[1..]);
      assert Reverse(t) == Reverse(t[1..]) + [Flip(t[0])];
      WalkAppend(g, s, Opposite(dir), End(from, t), Reverse(t[1..]), Flip(t[0]));
    }
  }

  /** Read backwards, a directed trail is a trail the other way, over the same relationships. */
  lemma TrailReversed(g: Graph, s: Step, dir: Dir, from: Node, t: Path)
    requires dir != Both && IsTrail(g, s, dir, from, {}, t)
    ensures IsTrail(g, s, Opposite(dir), End(from, t), {}, Reverse(t)) && End(End(from, t), Reverse(t)) == from
    ensures |Reverse(t)| == |t|
  {
    WalkReversed(g, s, dir, from, t);
    var r := Reverse(t);
    forall i, j | 0 <= i < j < |r| ensures r[i].rel != r[j].rel {
      assert r[i] == Flip(t[|t| - 1 - i]) && r[j] == Flip(t[|t| - 1 - j]);
    }
  }

  /** A whole pattern of one hop asks just for a path the search answers. */
  lemma OneHop(g: Graph, s: Step, row: Row, cur: Node, vs: Search)
    requires RelVarsFree([s], row) && ReadsOnly([s], row)
    requires vs.s == s && vs.lo == s.Lo() && vs.hi == s.Hi() && vs.dir == s.dir
    requires forall n :: vs.Accepts(n) <==> s.Accepts(row, n)
    ensures Matches(g, [s], row, cur, {}) <==> exists t :: Answers(g, vs, cur, t)
  {
    MatchesByHop(g, [s], row, cur, {});
    assert [s][1..] == [];
    forall t: Path ensures HopTo(g, [s], row, cur, {}, t) <==> Answers(g, vs, cur, t) {
      assert IsMatch(g, [], row, End(cur, t), {} + Crossed(t), []);
    }
    if t: Path :| HopTo(g, [s], row, cur, {}, t) { assert Answers(g, vs, cur, t); }
    if t: Path :| Answers(g, vs, cur, t) { assert HopTo(g, [s], row, cur, {}, t); }
  }

  /** A bound incoming hop searched outwards from its bound end asks the same question. */
  lemma Swapped(g: Graph, vs: Search, back: Search, from: Node, end: Node)
    requires vs.dir == In && back == vs.(dir := Out, swapped := true, target := from, start := end)
    requires !vs.onlyStart
    requires forall n :: vs.Accepts(n) <==> n == end
    ensures (exists t :: Answers(g, vs, from, t)) <==> exists t :: Answers(g, back, end, t)
  {
    if t: Path :| Answers(g, vs, from, t) {
      TrailReversed(g, vs.s, In, from, t);
      assert Answers(g, back, end, Reverse(t));
    }
    if t: Path :| Answers(g, back, end, t) {
      TrailReversed(g, vs.s, Out, end, t);
      assert Answers(g, vs, from, Reverse(t));
    }
  }

  /** A path the reachability search finds answers the hop, and unless only an undirected cycle
      could answer it, every path that answers is one it finds. */
  lemma ReachSettles(g: Graph, vs: Search, from: Node, cycle: bool, directed: bool)
    requires vs.lo <= 1 && (cycle <==> vs.lo == 1 && vs.Accepts(from))
    ensures Found(g, vs, from, cycle && directed) ==> exists t :: Answers(g, vs, from, t)
    ensures !cycle || directed ==> (Found(g, vs, from, cycle && directed) <==> exists t :: Answers(g, vs, from, t))
  {
    if !cycle || directed {
      if t: Path :| Answers(g, vs, from, t) {
        assert Answers(g, vs, from, t) && (End(from, t) != from || vs.lo == 0 || (cycle && directed));
      }
    }
  }

  /** What the exact search, confined to the start node, adds to the reachability search. */
  lemma ReachThenStart(g: Graph, vs: Search, from: Node, rest: seq<Step>)
    requires vs.lo <= 1 && rest == []
    requires !Found(g, vs, from, false) && vs.start == from
    ensures (exists t :: Answers(g, vs, from, t)) <==> Completable(g, vs.(onlyStart := true), rest, from, 0, {})
  {
    var only := vs.(onlyStart := true);
    if t: Path :| Answers(g, vs, from, t) {
      assert IsMatch(g, [], vs.row, End(from, t), {} + Crossed(t), []);
      assert Completes(g, only, rest, from, 0, {}, t);
    }
    if t: Path :| Completes(g, only, rest, from, 0, {}, t) { assert Answers(g, vs, from, t); }
  }

  lemma CompletableIsAnswer(g: Graph, vs: Search, from: Node)
    ensures (exists t :: Answers(g, vs, from, t)) <==> Completable(g, vs, [], from, 0, {})
  {
    forall t: Path ensures Answers(g, vs, from, t) <==> Completes(g, vs, [], from, 0, {}, t) {
      assert IsMatch(g, [], vs.row, End(from, t), {} + Crossed(t), []);
    }
    if t: Path :| Answers(g, vs, from, t) { assert Completes(g, vs, [], from, 0, {}, t); }
    if t: Path :| Completes(g, vs, [], from, 0, {}, t) { assert Answers(g, vs, from, t); }
  }

  lemma HopIsCompletable(g: Graph, steps: seq<Step>, row: Row, cur: Node, used: set<Rel>, vs: Search)
    requires steps != [] && RelVarsFree(steps, row) && ReadsOnly(steps, row)
    requires vs.s == steps[0] && vs.row == row && vs.lo == vs.s.Lo() && vs.hi == vs.s.Hi() && vs.dir == vs.s.dir
    requires forall n :: vs.Accepts(n) <==> vs.s.Accepts(row, n)
    ensures Matches(g, steps, row, cur, used) <==> Completable(g, vs, steps[1..], cur, 0, used)
  {
    MatchesByHop(g, steps, row, cur, used);
    if t: Path :| HopTo(g, steps, row, cur, used, t) { assert Completes(g, vs, steps[1..], cur, 0, used, t); }
    if t: Path :| Completes(g, vs, steps[1..], cur, 0, used, t) { assert HopTo(g, steps, row, cur, used, t); }
  }
}
