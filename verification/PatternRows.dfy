/** Matches and the rows they bind, position by position: the meaning of a pattern without the order
    in which a search extends its row. */
module PatternRows {
  import opened PatternGraph
  import opened PatternEnum

  /** The node reached once the first i paths of m have been crossed from cur. */
  function Stop(cur: Node, m: Match, i: nat): Node
    requires i <= |m|
  {
    if i == 0 then cur else End(Stop(cur, m, i - 1), m[i - 1])
  }

  lemma {:induction false} StopShift(cur: Node, m: Match, i: nat)
    requires m != [] && i < |m|
    ensures Stop(cur, m, i + 1) == Stop(End(cur, m[0]), m[1..], i)
  {
    if i > 0 { StopShift(cur, m, i - 1); }
  }

  // ------------------------------------------------------------------ which paths match

  /** The lengths a hop admits: one relationship for a fixed hop; otherwise at least the minimum, one
      where it is omitted, and at most the maximum, none being left of a negative one. */
  predicate LengthFits(s: Step, n: nat) {
    match s.range
    case None => n == 1
    case Some(Range(min, max)) =>
      && (match min case None => 1 <= n case Some(lo) => lo <= n)
      && (match max case None => n <= MaxInt64 case Some(hi) => n <= hi || n == 0)
  }

  lemma LengthIff(s: Step, n: nat)
    ensures s.Lo() <= n <= s.Hi() <==> LengthFits(s, n)
  {
  }

  /** With types asked for, a relationship with types of its own is judged by them alone; any other
      by what its pair carries. Without types every relationship of the pair will do. */
  lemma QualifiesIff(g: Graph, s: Step, r: Rel)
    requires g.Has(r)
    ensures s.types == {} ==> (Qualifies(g, s, r) <==> s.props.Some? ==> r in s.props.value)
    ensures s.types != {} && g.At(r).byHandle && g.At(r).types != {} ==>
              (Qualifies(g, s, r) <==> g.At(r).types * s.types != {} && (s.props.Some? ==> r in s.props.value))
    ensures s.types != {} && (!g.At(r).byHandle || g.At(r).types == {}) ==>
              (Qualifies(g, s, r) <==>
                (exists i :: 0 <= i < |g.adj[r.src]| && g.adj[r.src][i].dst == g.At(r).dst && g.adj[r.src][i].types * s.types != {})
                && (s.props.Some? ==> r in s.props.value))
  {
    assert g.Entry(r.src)[r.slot] == g.At(r);
    assert g.Entry(r.src) == g.adj[r.src];
  }

  /** Path i of the match, on its own: a trail of its hop from where the path before it ended, of a
      length the hop admits, to a node its end admits, the one the row holds for it if it holds one. */
  ghost predicate PathFits(g: Graph, s: Step, row: Row, cur: Node, used: set<Rel>, t: Path) {
    && IsTrail(g, s, s.dir, cur, used, t) && LengthFits(s, |t|)
    && End(cur, t) in s.ends
    && (s.endVar.Some? && s.endVar.value in row ==> row[s.endVar.value] == NodeValue(End(cur, t)))
  }

  /** A match, path by path: each fits, no two share a relationship, and two hops that name the same
      end node end on the same node. */
  ghost predicate Fits(g: Graph, steps: seq<Step>, row: Row, cur: Node, used: set<Rel>, m: Match) {
    && |m| == |steps|
    && (forall i :: 0 <= i < |m| ==> PathFits(g, steps[i], row, Stop(cur, m, i), used, m[i]))
    && (forall i, j :: 0 <= i < j < |m| ==> Crossed(m[i]) !! Crossed(m[j]))
    && (forall i, j :: 0 <= i < j < |m| && steps[i].endVar.Some? && steps[i].endVar == steps[j].endVar ==>
          Stop(cur, m, i + 1) == Stop(cur, m, j + 1))
  }

  lemma HeadFits(g: Graph, s: Step, row: Row, cur: Node, used: set<Rel>, t: Path)
    ensures PathFits(g, s, row, cur, used, t) <==>
              IsTrail(g, s, s.dir, cur, used, t) && s.Lo() <= |t| <= s.Hi() && s.Accepts(row, End(cur, t))
  {
    LengthIff(s, |t|);
  }

  /** A later path, judged once the first step is bound or from the start. */
  lemma LaterFits(g: Graph, s: Step, row: Row, s0: Step, n0: Node, t0: Path, cur: Node, used: set<Rel>, t: Path)
    requires s0.BoundTo(row, n0) && (s0.relVar.Some? ==> s0.relVar != s.endVar && s0.relVar != s0.endVar)
    ensures PathFits(g, s, s0.Bind(row, n0, t0), cur, used + Crossed(t0), t) <==>
              && PathFits(g, s, row, cur, used, t) && Crossed(t0) !! Crossed(t)
              && (s.endVar.Some? && s.endVar == s0.endVar ==> End(cur, t) == n0)
  {
    hide LengthFits, IsWalk, Step.RelsOf;
  }

  /** Matching hop by hop, each hop reading what those before it bound, is matching path by path. */
  lemma {:induction false} MatchIff(g: Graph, steps: seq<Step>, row: Row, cur: Node, used: set<Rel>, m: Match)
    requires RelVarsFree(steps, row)
    ensures IsMatch(g, steps, row, cur, used, m) <==> Fits(g, steps, row, cur, used, m)
    decreases |steps|
  {
    if steps != [] && m != [] {
      var s, t, rest, n := steps[0], m[0], steps[1..], End(cur, m[0]);
      HeadFits(g, s, row, cur, used, t);
      RelVarsStayFree(steps, row, n, t);
      MatchIff(g, rest, s.Bind(row, n, t), n, used + Crossed(t), m[1..]);
      if s.BoundTo(row, n) { FitsIff(g, steps, row, cur, used, m); }
    }
  }

  lemma FitsIff(g: Graph, steps: seq<Step>, row: Row, cur: Node, used: set<Rel>, m: Match)
    requires steps != [] && m != [] && RelVarsFree(steps, row) && steps[0].BoundTo(row, End(cur, m[0]))
    ensures var s, t, n := steps[0], m[0], End(cur, m[0]);
            Fits(g, steps, row, cur, used, m) <==>
              PathFits(g, s, row, cur, used, t) && Fits(g, steps[1..], s.Bind(row, n, t), n, used + Crossed(t), m[1..])
  {
    if |m| == |steps| {
      if Fits(g, steps, row, cur, used, m) { RestFits(g, steps, row, cur, used, m); }
      if PathFits(g, steps[0], row, cur, used, m[0])
         && Fits(g, steps[1..], steps[0].Bind(row, End(cur, m[0]), m[0]), End(cur, m[0]), used + Crossed(m[0]), m[1..]) {
        WholeFits(g, steps, row, cur, used, m);
      }
    }
  }

  lemma RestFits(g: Graph, steps: seq<Step>, row: Row, cur: Node, used: set<Rel>, m: Match)
    requires steps != [] && RelVarsFree(steps, row) && Fits(g, steps, row, cur, used, m)
    requires steps[0].BoundTo(row, End(cur, m[0]))
    ensures PathFits(g, steps[0], row, cur, used, m[0])
    ensures Fits(g, steps[1..], steps[0].Bind(row, End(cur, m[0]), m[0]), End(cur, m[0]), used + Crossed(m[0]), m[1..])
  {
    hide PathFits, Crossed, Step.Bind, Step.BoundTo;
    var s, t, n, rest, m' := steps[0], m[0], End(cur, m[0]), steps[1..], m[1..];
    assert Stop(cur, m, 0) == cur && Stop(cur, m, 1) == n;
    assert PathFits(g, steps[0], row, Stop(cur, m, 0), used, m[0]);
    forall i | 0 <= i < |m'| ensures PathFits(g, rest[i], s.Bind(row, n, t), Stop(n, m', i), used + Crossed(t), m'[i]) {
      assert PathFits(g, steps[i + 1], row, Stop(cur, m, i + 1), used, m[i + 1]);
      StopShift(cur, m, i);
      if i + 1 < |m'| { StopShift(cur, m, i + 1); }
      assert Stop(cur, m, i + 2) == End(Stop(cur, m, i + 1), m[i + 1]);
      LaterFits(g, rest[i], row, s, n, t, Stop(n, m', i), used, m'[i]);
    }
    forall i, j | 0 <= i < j < |m'| ensures Crossed(m'[i]) !! Crossed(m'[j])
      ensures rest[i].endVar.Some? && rest[i].endVar == rest[j].endVar ==> Stop(n, m', i + 1) == Stop(n, m', j + 1)
    {
      assert Crossed(m[i + 1]) !! Crossed(m[j + 1]);
      StopShift(cur, m, i + 1);
      StopLast(cur, m, j + 1);
      assert steps[i + 1] == rest[i] && steps[j + 1] == rest[j];
    }
  }

  lemma StopLast(cur: Node, m: Match, i: nat)
    requires m != [] && i < |m|
    ensures i > 0 ==> Stop(cur, m, i + 1) == Stop(End(cur, m[0]), m[1..], i)
  {
    StopShift(cur, m, i);
  }

  lemma WholeFits(g: Graph, steps: seq<Step>, row: Row, cur: Node, used: set<Rel>, m: Match)
    requires steps != [] && RelVarsFree(steps, row) && |m| == |steps|
    requires steps[0].BoundTo(row, End(cur, m[0])) && PathFits(g, steps[0], row, cur, used, m[0])
    requires Fits(g, steps[1..], steps[0].Bind(row, End(cur, m[0]), m[0]), End(cur, m[0]), used + Crossed(m[0]), m[1..])
    ensures Fits(g, steps, row, cur, used, m)
  {
    hide PathFits, Crossed, Step.Bind, Step.BoundTo;
    var n := End(cur, m[0]);
    assert Stop(cur, m, 0) == cur && Stop(cur, m, 1) == End(Stop(cur, m, 0), m[0]);
    forall i | 0 <= i < |m| ensures PathFits(g, steps[i], row, Stop(cur, m, i), used, m[i]) {
      if i > 0 { WholeFitsAt(g, steps, row, cur, used, m, i); }
    }
    forall i, j | 0 <= i < j < |m|
      ensures Crossed(m[i]) !! Crossed(m[j])
      ensures steps[i].endVar.Some? && steps[i].endVar == steps[j].endVar ==> Stop(cur, m, i + 1) == Stop(cur, m, j + 1)
    {
      WholeFitsAt(g, steps, row, cur, used, m, j);
      if i > 0 {
        assert Crossed(m[1..][i - 1]) !! Crossed(m[1..][j - 1]);
        assert steps[i] == steps[1..][i - 1] && steps[j] == steps[1..][j - 1];
        StopShift(cur, m, i);
        StopShift(cur, m, j);
      }
    }
  }

  lemma WholeFitsAt(g: Graph, steps: seq<Step>, row: Row, cur: Node, used: set<Rel>, m: Match, i: nat)
    requires steps != [] && RelVarsFree(steps, row) && |m| == |steps| && 0 < i < |m|
    requires steps[0].BoundTo(row, End(cur, m[0]))
    requires Fits(g, steps[1..], steps[0].Bind(row, End(cur, m[0]), m[0]), End(cur, m[0]), used + Crossed(m[0]), m[1..])
    ensures PathFits(g, steps[i], row, Stop(cur, m, i), used, m[i]) && Crossed(m[0]) !! Crossed(m[i])
    ensures steps[i].endVar.Some? && steps[i].endVar == steps[0].endVar ==> Stop(cur, m, i + 1) == End(cur, m[0])
  {
    hide PathFits, Crossed, Step.Bind, Step.BoundTo;
    var s, t, n, rest, m' := steps[0], m[0], End(cur, m[0]), steps[1..], m[1..];
    StopShift(cur, m, i - 1);
    assert PathFits(g, rest[i - 1], s.Bind(row, n, t), Stop(n, m', i - 1), used + Crossed(t), m'[i - 1]);
    assert rest[i - 1] == steps[i] && m'[i - 1] == m[i];
    LaterFits(g, steps[i], row, s, n, t, Stop(cur, m, i), used, m[i]);
  }

  // ------------------------------------------------------------------ the row a match binds

  /** What a relationship variable holds: the relationship of a fixed hop, else the list of those
      crossed, in the order they were crossed. */
  predicate HoldsRels(v: Value, s: Step, t: Path) {
    if s.range.None? then |t| == 1 && v == RelValue(t[0].rel)
    else v.RelList? && |v.rels| == |t| && forall k :: 0 <= k < |t| ==> v.rels[k] == t[k].rel
  }

  predicate Named(steps: seq<Step>, v: string) {
    exists i :: 0 <= i < |steps| && (steps[i].endVar == Some(v) || steps[i].relVar == Some(v))
  }

  /** The row holds, for every hop, where its path ends and what it crossed, and every other variable
      as it was. */
  ghost predicate RowHolds(steps: seq<Step>, row: Row, cur: Node, m: Match, r: Row) {
    && |m| == |steps|
    && (forall i :: 0 <= i < |steps| && steps[i].endVar.Some? ==>
          steps[i].endVar.value in r && r[steps[i].endVar.value] == NodeValue(Stop(cur, m, i + 1)))
    && (forall i :: 0 <= i < |steps| && steps[i].relVar.Some? ==>
          steps[i].relVar.value in r && HoldsRels(r[steps[i].relVar.value], steps[i], m[i]))
    && (forall v :: v in row ==> v in r && r[v] == row[v])
    && (forall v :: v in r ==> v in row || Named(steps, v))
  }

  /** The final row of a match holds exactly what the match found. */
  lemma {:induction false} FinalRowHolds(g: Graph, steps: seq<Step>, row: Row, cur: Node, used: set<Rel>, m: Match)
    requires RelVarsFree(steps, row) && IsMatch(g, steps, row, cur, used, m)
    ensures |m| == |steps| && RowHolds(steps, row, cur, m, FinalRow(steps, row, cur, m))
    decreases |steps|
  {
    MatchLength(g, steps, row, cur, used, m);
    if steps != [] {
      var s, t, n := steps[0], m[0], End(cur, m[0]);
      RelVarsStayFree(steps, row, n, t);
      FinalRowHolds(g, steps[1..], s.Bind(row, n, t), n, used + Crossed(t), m[1..]);
      RowHoldsNext(steps, row, cur, m, FinalRow(steps, row, cur, m));
    }
  }

  lemma RowHoldsNext(steps: seq<Step>, row: Row, cur: Node, m: Match, r: Row)
    requires steps != [] && |m| == |steps| && RelVarsFree(steps, row)
    requires var s, t, n := steps[0], m[0], End(cur, m[0]);
             && s.BoundTo(row, n) && s.Lo() <= |t| <= s.Hi()
             && RowHolds(steps[1..], s.Bind(row, n, t), n, m[1..], r)
    ensures RowHolds(steps, row, cur, m, r)
  {
    var s, t, n, rest := steps[0], m[0], End(cur, m[0]), steps[1..];
    var bound := s.Bind(row, n, t);
    LengthIff(s, |t|);
    assert Stop(cur, m, 1) == End(Stop(cur, m, 0), m[0]) == n;
    assert s.endVar.Some? ==> bound[s.endVar.value] == NodeValue(n);
    assert s.relVar.Some? ==> HoldsRels(bound[s.relVar.value], s, t);
    forall i | 0 <= i < |rest| ensures Stop(cur, m, i + 2) == Stop(n, m[1..], i + 1) && steps[i + 1] == rest[i] {
      StopShift(cur, m, i + 1);
    }
    forall i | 0 <= i < |steps|
      ensures steps[i].endVar.Some? ==>
                steps[i].endVar.value in r && r[steps[i].endVar.value] == NodeValue(Stop(cur, m, i + 1))
      ensures steps[i].relVar.Some? ==>
                steps[i].relVar.value in r && HoldsRels(r[steps[i].relVar.value], steps[i], m[i])
    {
      if i > 0 { assert steps[i] == rest[i - 1] && m[i] == m[1..][i - 1]; }
    }
    forall v | v in r ensures v in row || Named(steps, v) {
      if Named(rest, v) {
        var i :| 0 <= i < |rest| && (rest[i].endVar == Some(v) || rest[i].relVar == Some(v));
        assert steps[i + 1] == rest[i];
      }
    }
  }

  /** The row of a match of a whole pattern: its start variable holds the start node besides. */
  ghost predicate PatternRow(p: Pattern, row: Row, f: (Node, Match), r: Row) {
    && RowHolds(p.steps, p.BindStart(row, f.0), f.0, f.1, r)
    && (p.startVar.Some? ==> p.startVar.value in r && r[p.startVar.value] == NodeValue(f.0))
    && (forall v :: v in row ==> v in r && r[v] == row[v])
    && (forall v :: v in r ==> v in row || p.startVar == Some(v) || Named(p.steps, v))
  }

  /** A found start node and match, said of the input row alone: the start may be one, the match fits,
      and a hop that names the start variable ends where the pattern starts. */
  ghost predicate FitsPattern(g: Graph, p: Pattern, row: Row, f: (Node, Match)) {
    && p.MayStart(g, row, f.0) && f.0 in p.starts
    && Fits(g, p.steps, row, f.0, {}, f.1) && StartHeld(p, f)
  }

  lemma FoundIff(g: Graph, p: Pattern, row: Row, f: (Node, Match))
    requires RelVarsFree(p.steps, row) && p.StartVarApart()
    ensures p.IsFound(g, row, f) <==> FitsPattern(g, p, row, f)
  {
    hide Fits, IsMatch, RelVarsFree, StartHeld, Pattern.StartVarApart, Pattern.MayStart, Pattern.BindStart;
    p.BoundStartFree(row, f.0);
    MatchIff(g, p.steps, p.BindStart(row, f.0), f.0, {}, f.1);
    if p.MayStart(g, row, f.0) {
      StartFitsRest(g, p, row, f);
      StartFitsAll(g, p, row, f);
    }
  }

  predicate StartHeld(p: Pattern, f: (Node, Match))
    requires |f.1| == |p.steps|
  {
    forall i :: 0 <= i < |p.steps| && p.startVar.Some? && p.steps[i].endVar == p.startVar ==> Stop(f.0, f.1, i + 1) == f.0
  }

  lemma StartFitsRest(g: Graph, p: Pattern, row: Row, f: (Node, Match))
    requires p.MayStart(g, row, f.0)
    ensures Fits(g, p.steps, p.BindStart(row, f.0), f.0, {}, f.1) ==> Fits(g, p.steps, row, f.0, {}, f.1) && StartHeld(p, f)
  {
    hide PathFits, Pattern.BindStart, Pattern.MayStart, Crossed;
    if Fits(g, p.steps, p.BindStart(row, f.0), f.0, {}, f.1) {
      forall i: nat | i < |f.1|
        ensures PathFits(g, p.steps[i], row, Stop(f.0, f.1, i), {}, f.1[i])
        ensures p.startVar.Some? && p.steps[i].endVar == p.startVar ==> Stop(f.0, f.1, i + 1) == f.0
      {
        assert PathFits(g, p.steps[i], p.BindStart(row, f.0), Stop(f.0, f.1, i), {}, f.1[i]);
        StartFits(g, p, row, f.0, p.steps[i], Stop(f.0, f.1, i), f.1[i]);
      }
    }
  }

  lemma StartFitsAll(g: Graph, p: Pattern, row: Row, f: (Node, Match))
    requires p.MayStart(g, row, f.0)
    ensures Fits(g, p.steps, row, f.0, {}, f.1) && StartHeld(p, f) ==> Fits(g, p.steps, p.BindStart(row, f.0), f.0, {}, f.1)
  {
    hide PathFits, Pattern.BindStart, Pattern.MayStart, Crossed;
    if Fits(g, p.steps, row, f.0, {}, f.1) && StartHeld(p, f) {
      forall i: nat | i < |f.1| ensures PathFits(g, p.steps[i], p.BindStart(row, f.0), Stop(f.0, f.1, i), {}, f.1[i]) {
        assert PathFits(g, p.steps[i], row, Stop(f.0, f.1, i), {}, f.1[i]);
        StartFits(g, p, row, f.0, p.steps[i], Stop(f.0, f.1, i), f.1[i]);
      }
    }
  }

  lemma StartFits(g: Graph, p: Pattern, row: Row, n: Node, s: Step, cur: Node, t: Path)
    requires p.MayStart(g, row, n)
    ensures PathFits(g, s, p.BindStart(row, n), cur, {}, t) <==>
              && PathFits(g, s, row, cur, {}, t)
              && (p.startVar.Some? && s.endVar == p.startVar ==> End(cur, t) == n)
  {
    hide IsTrail, LengthFits;
  }

  /** A pattern predicate holds of a row exactly when some start node and match fit it. */
  lemma HoldsIff(g: Graph, p: Pattern, row: Row)
    requires RelVarsFree(p.steps, row) && p.StartVarApart()
    ensures PatternHolds(g, p, row) <==> exists f :: FitsPattern(g, p, row, f)
  {
    hide FitsPattern, Pattern.MayStart, Pattern.BindStart, IsMatch, RelVarsFree, Pattern.StartVarApart;
    if PatternHolds(g, p, row) {
      var n :| p.MayStart(g, row, n) && n in p.starts && Matches(g, p.steps, p.BindStart(row, n), n, {});
      var m :| IsMatch(g, p.steps, p.BindStart(row, n), n, {}, m);
      FoundIff(g, p, row, (n, m));
      assert FitsPattern(g, p, row, (n, m));
    }
    if f :| FitsPattern(g, p, row, f) {
      FoundIff(g, p, row, f);
      assert Matches(g, p.steps, p.BindStart(row, f.0), f.0, {});
    }
  }

  lemma FoundRow(g: Graph, p: Pattern, row: Row, f: (Node, Match))
    requires RelVarsFree(p.steps, row) && p.StartVarApart() && p.IsFound(g, row, f)
    ensures |f.1| == |p.steps| && PatternRow(p, row, f, p.RowOf(row, f))
  {
    p.BoundStartFree(row, f.0);
    FinalRowHolds(g, p.steps, p.BindStart(row, f.0), f.0, {}, f.1);
  }

  /** What an enumeration has found, and the rows it returns, said path by path and by position. */
  lemma FoundMeans(g: Graph, p: Pattern, row: Row, ids: seq<Node>, rows: seq<Row>, found: seq<(Node, Match)>)
    requires RelVarsFree(p.steps, row) && p.StartVarApart()
    requires FoundFrom(g, p, row, ids, rows, found)
    requires forall n :: n in ids <==> p.MayStart(g, row, n)
    ensures forall f :: f in found <==> FitsPattern(g, p, row, f)
    ensures forall i :: 0 <= i < |found| ==> PatternRow(p, row, found[i], rows[i])
  {
    hide Pattern.IsFound, FitsPattern, PatternRow, Pattern.RowOf, RelVarsFree, Pattern.StartVarApart;
    forall f ensures f in found <==> FitsPattern(g, p, row, f) {
      FoundIff(g, p, row, f);
      FoundStarts(g, p, row, f);
    }
    forall i | 0 <= i < |found| ensures PatternRow(p, row, found[i], rows[i]) {
      assert found[i] in found;
      FoundRow(g, p, row, found[i]);
    }
  }

  lemma FoundStarts(g: Graph, p: Pattern, row: Row, f: (Node, Match))
    ensures p.IsFound(g, row, f) ==> p.MayStart(g, row, f.0)
  {
  }
}
