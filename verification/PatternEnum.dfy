/** What an enumeration must produce: every match once, with the row it binds. */
module PatternEnum {
  import opened PatternGraph
  import opened PatternReach
  import opened PatternSearch

  /** The row a match binds: each step's end node and relationships, in order. */
  function FinalRow(steps: seq<Step>, row: Row, cur: Node, m: Match): Row
    requires |m| == |steps|
    decreases |steps|
  {
    if steps == [] then row
    else FinalRow(steps[1..], steps[0].Bind(row, End(cur, m[0]), m[0]), End(cur, m[0]), m[1..])
  }

  lemma {:induction false} MatchLength(g: Graph, steps: seq<Step>, row: Row, cur: Node, used: set<Rel>, m: Match)
    requires IsMatch(g, steps, row, cur, used, m)
    ensures |m| == |steps|
    decreases |steps|
  {
    if steps != [] {
      MatchLength(g, steps[1..], steps[0].Bind(row, End(cur, m[0]), m[0]), End(cur, m[0]), used + Crossed(m[0]), m[1..]);
    }
  }

  ghost predicate NoTwice(ms: seq<Match>) { forall i, j :: 0 <= i < j < |ms| ==> ms[i] != ms[j] }

  /** ms are the matches, each once, and rows what they bind, in the same order. */
  ghost predicate Enumerated(g: Graph, steps: seq<Step>, row: Row, cur: Node, used: set<Rel>, rows: seq<Row>, ms: seq<Match>) {
    && |rows| == |ms| && NoTwice(ms)
    && (forall m :: m in ms <==> IsMatch(g, steps, row, cur, used, m))
    && (forall i :: 0 <= i < |ms| ==> |ms[i]| == |steps| && rows[i] == FinalRow(steps, row, cur, ms[i]))
  }

  /** m completes a variable-length hop that has crossed `hops` so far, and the steps after it. */
  ghost predicate IsTail(g: Graph, vs: Search, rest: seq<Step>, cur: Node, used: set<Rel>, hops: Path, m: Match) {
    && m != []
    && IsTrail(g, vs.s, vs.dir, cur, used, m[0])
    && vs.lo <= |hops| + |m[0]| <= vs.hi
    && vs.Accepts(End(cur, m[0]))
    && IsMatch(g, rest, vs.s.Bind(vs.row, End(cur, m[0]), hops + m[0]), End(cur, m[0]), used + Crossed(m[0]), m[1..])
  }

  function TailRow(vs: Search, rest: seq<Step>, cur: Node, hops: Path, m: Match): Row
    requires |m| == |rest| + 1
  {
    FinalRow(rest, vs.s.Bind(vs.row, End(cur, m[0]), hops + m[0]), End(cur, m[0]), m[1..])
  }

  /** Whether a path stops at once, where that is wanted, or starts with one of the crossings given. */
  predicate Admits(stop: bool, firsts: seq<Crossing>, t: Path) { if t == [] then stop else t[0] in firsts }

  /** The tails whose path is admitted are listed, each once, with their rows. */
  ghost predicate TailsListed(g: Graph, vs: Search, rest: seq<Step>, cur: Node, used: set<Rel>, hops: Path,
                              stop: bool, firsts: seq<Crossing>, rows: seq<Row>, ms: seq<Match>)
  {
    && |rows| == |ms| && NoTwice(ms)
    && (forall m :: m in ms <==> IsTail(g, vs, rest, cur, used, hops, m) && Admits(stop, firsts, m[0]))
    && (forall i :: 0 <= i < |ms| ==> |ms[i]| == |rest| + 1 && rows[i] == TailRow(vs, rest, cur, hops, ms[i]))
  }

  /** Every tail is listed, once, with its row. */
  ghost predicate AllTails(g: Graph, vs: Search, rest: seq<Step>, cur: Node, used: set<Rel>, hops: Path,
                           rows: seq<Row>, ms: seq<Match>)
  {
    && |rows| == |ms| && NoTwice(ms)
    && (forall m :: m in ms <==> IsTail(g, vs, rest, cur, used, hops, m))
    && (forall i :: 0 <= i < |ms| ==> |ms[i]| == |rest| + 1 && rows[i] == TailRow(vs, rest, cur, hops, ms[i]))
  }

  function Stopped(sub: seq<Match>): (ms: seq<Match>)
    ensures |ms| == |sub| && forall i :: 0 <= i < |sub| ==> ms[i] == [[]] + sub[i]
  {
    seq(|sub|, i requires 0 <= i < |sub| => [[]] + sub[i])
  }

  function Prepend(c: Crossing, m: Match): Match
    requires m != []
  {
    [[c] + m[0]] + m[1..]
  }

  function Carried(c: Crossing, sub: seq<Match>): (ms: seq<Match>)
    requires forall i :: 0 <= i < |sub| ==> sub[i] != []
    ensures |ms| == |sub| && forall i :: 0 <= i < |sub| ==> ms[i] == Prepend(c, sub[i])
  {
    seq(|sub|, i requires 0 <= i < |sub| => Prepend(c, sub[i]))
  }

  lemma StopTail(g: Graph, vs: Search, rest: seq<Step>, cur: Node, used: set<Rel>, hops: Path, m: Match)
    requires vs.lo <= |hops| <= vs.hi && vs.Accepts(cur) && m != [] && m[0] == []
    ensures IsTail(g, vs, rest, cur, used, hops, m) <==> IsMatch(g, rest, vs.s.Bind(vs.row, cur, hops), cur, used, m[1..])
    ensures |m| == |rest| + 1 ==> TailRow(vs, rest, cur, hops, m) == FinalRow(rest, vs.s.Bind(vs.row, cur, hops), cur, m[1..])
  {
    assert hops + [] == hops && used + Crossed([]) == used;
  }

  /** Stopping here contributes the tails whose path is empty. */
  lemma StopHere(g: Graph, vs: Search, rest: seq<Step>, cur: Node, used: set<Rel>, hops: Path, rows: seq<Row>, sub: seq<Match>)
    requires vs.lo <= |hops| <= vs.hi && vs.Accepts(cur)
    requires Enumerated(g, rest, vs.s.Bind(vs.row, cur, hops), cur, used, rows, sub)
    ensures TailsListed(g, vs, rest, cur, used, hops, true, [], rows, Stopped(sub))
  {
    var ms := Stopped(sub);
    forall i | 0 <= i < |sub| ensures ms[i][1..] == sub[i] && ms[i] != [] && ms[i][0] == []
                                   && IsTail(g, vs, rest, cur, used, hops, ms[i])
                                   && rows[i] == TailRow(vs, rest, cur, hops, ms[i])
    {
      assert sub[i] in sub;
      StopTail(g, vs, rest, cur, used, hops, ms[i]);
    }
    forall i, j | 0 <= i < j < |ms| ensures ms[i] != ms[j] { assert ms[i][1..] != ms[j][1..]; }
    forall m | IsTail(g, vs, rest, cur, used, hops, m) && m[0] == [] ensures m in ms {
      StopTail(g, vs, rest, cur, used, hops, m);
      assert m[1..] in sub;
      var i :| 0 <= i < |sub| && sub[i] == m[1..];
      assert ms[i] == m;
    }
  }

  lemma NoStop(g: Graph, vs: Search, rest: seq<Step>, cur: Node, used: set<Rel>, hops: Path)
    requires !(vs.lo <= |hops| && vs.Accepts(cur))
    ensures TailsListed(g, vs, rest, cur, used, hops, true, [], [], [])
  {
  }

  lemma TailStep(g: Graph, vs: Search, rest: seq<Step>, cur: Node, used: set<Rel>, hops: Path, c: Crossing, m: Match)
    requires m != []
    ensures IsTail(g, vs, rest, cur, used, hops, Prepend(c, m)) <==>
            CanCross(g, vs.s, vs.dir, cur, c) && c.rel !in used && IsTail(g, vs, rest, c.To(), used + {c.rel}, hops + [c], m)
    ensures End(cur, [c] + m[0]) == End(c.To(), m[0])
    ensures hops + ([c] + m[0]) == hops + [c] + m[0]
  {
    var t := [c] + m[0];
    TrailHead(g, vs.s, vs.dir, cur, used, t);
    assert t[1..] == m[0] && Prepend(c, m)[1..] == m[1..];
    assert used + Crossed(t) == used + {c.rel} + Crossed(m[0]);
    assert hops + t == hops + [c] + m[0];
  }

  lemma PrependTells(c: Crossing, m: Match, m': Match)
    requires m != [] && m' != []
    ensures Prepend(c, m) == Prepend(c, m') ==> m == m'
  {
    assert m == [Prepend(c, m)[0][1..]] + Prepend(c, m)[1..];
    assert m' == [Prepend(c, m')[0][1..]] + Prepend(c, m')[1..];
  }

  /** Crossing c first contributes the tails whose path starts with c. */
  lemma CarryOn(g: Graph, vs: Search, rest: seq<Step>, cur: Node, used: set<Rel>, hops: Path, c: Crossing,
                rows: seq<Row>, sub: seq<Match>) returns (ms: seq<Match>)
    requires CanCross(g, vs.s, vs.dir, cur, c) && c.rel !in used
    requires AllTails(g, vs, rest, c.To(), used + {c.rel}, hops + [c], rows, sub)
    ensures TailsListed(g, vs, rest, cur, used, hops, false, [c], rows, ms)
  {
    assert forall i :: 0 <= i < |sub| ==> sub[i] in sub;
    ms := Carried(c, sub);
    forall i | 0 <= i < |ms| ensures ms[i] != [] && ms[i][0] != [] && ms[i][0][0] == c
                                  && ms[i][0][1..] == sub[i][0] && ms[i][1..] == sub[i][1..]
                                  && IsTail(g, vs, rest, cur, used, hops, ms[i]) && rows[i] == TailRow(vs, rest, cur, hops, ms[i])
    {
      TailStep(g, vs, rest, cur, used, hops, c, sub[i]);
    }
    forall i, j | 0 <= i < j < |ms| ensures ms[i] != ms[j] { PrependTells(c, sub[i], sub[j]); }
    forall m | IsTail(g, vs, rest, cur, used, hops, m) && Admits(false, [c], m[0]) ensures m in ms {
      CarriedFrom(g, vs, rest, cur, used, hops, c, rows, sub, m);
    }
  }

  lemma CarriedFrom(g: Graph, vs: Search, rest: seq<Step>, cur: Node, used: set<Rel>, hops: Path, c: Crossing,
                    rows: seq<Row>, sub: seq<Match>, m: Match)
    requires AllTails(g, vs, rest, c.To(), used + {c.rel}, hops + [c], rows, sub)
    requires forall i :: 0 <= i < |sub| ==> sub[i] != []
    requires IsTail(g, vs, rest, cur, used, hops, m) && Admits(false, [c], m[0])
    ensures m in Carried(c, sub)
  {
    var n := [m[0][1..]] + m[1..];
    assert Prepend(c, n) == m by { assert [c] + m[0][1..] == m[0]; }
    TailStep(g, vs, rest, cur, used, hops, c, n);
    assert n in sub;
    var i :| 0 <= i < |sub| && sub[i] == n;
    assert Carried(c, sub)[i] == m;
  }

  /** Lists over paths that start differently join without repeats. */
  lemma JoinLists(tail: Match -> bool, firsts: seq<Crossing>, c: Crossing, ms: seq<Match>, ms': seq<Match>)
    requires NoTwice(ms) && NoTwice(ms') && c !in firsts
    requires forall m :: m in ms <==> m != [] && tail(m) && Admits(true, firsts, m[0])
    requires forall m :: m in ms' <==> m != [] && tail(m) && Admits(false, [c], m[0])
    ensures NoTwice(ms + ms')
    ensures forall m :: m in ms + ms' <==> m != [] && tail(m) && Admits(true, firsts + [c], m[0])
  {
    var all := ms + ms';
    assert forall t: Path :: Admits(true, firsts + [c], t) <==> Admits(true, firsts, t) || Admits(false, [c], t);
    assert forall t: Path :: !(Admits(true, firsts, t) && Admits(false, [c], t));
    forall i, j | 0 <= i < j < |all| ensures all[i] != all[j] {
      if i < |ms| <= j { assert ms[i] in ms && ms'[j - |ms|] in ms'; }
    }
    assert forall m :: m in all <==> m in ms || m in ms';
  }

  /** A used relationship starts no tail; nor, for a fixed hop, one to a node its end rejects. */
  lemma SkipCandidate(g: Graph, vs: Search, rest: seq<Step>, cur: Node, used: set<Rel>, c: Crossing)
    requires c.rel in used || (vs.hi == 1 && !vs.Accepts(c.To()))
    ensures TailsListed(g, vs, rest, cur, used, [], false, [c], [], [])
  {
    forall m | IsTail(g, vs, rest, cur, used, [], m) ensures !Admits(false, [c], m[0]) {
      if m[0] != [] {
        TrailHead(g, vs.s, vs.dir, cur, used, m[0]);
        assert m[0][1..] == [] || vs.hi > 1;
      }
    }
  }

  /** With no steps left the row is the one match's, whatever has been used. */
  lemma NoSteps(g: Graph, row: Row, cur: Node, used: set<Rel>)
    ensures Enumerated(g, [], row, cur, used, [row], [[]])
  {
    var ms: seq<Match> := [[]];
    assert FinalRow([], row, cur, []) == row;
    forall m ensures m in ms <==> IsMatch(g, [], row, cur, used, m) {
      if m == [] { assert ms[0] == m; }
    }
  }

  lemma UsedIsIdle(g: Graph, row: Row, cur: Node, used: set<Rel>, used': set<Rel>, rows: seq<Row>, ms: seq<Match>)
    requires Enumerated(g, [], row, cur, used, rows, ms)
    ensures Enumerated(g, [], row, cur, used', rows, ms)
  {
    forall m ensures IsMatch(g, [], row, cur, used, m) <==> IsMatch(g, [], row, cur, used', m) { }
  }

  /** A step searched with nothing yet known of its end. */
  function HopSearch(s: Step, row: Row, cur: Node): (vs: Search)
    ensures forall n :: vs.Accepts(n) <==> s.Accepts(row, n)
  {
    Search(s, row, s.Lo(), s.Hi(), s.dir, 0, false, false, false, cur)
  }

  /** The tails left once a fixed hop's relationship has been crossed. */
  lemma HopCrossed(g: Graph, vs: Search, rest: seq<Step>, cur: Node, used: set<Rel>, c: Crossing, rows: seq<Row>, sub: seq<Match>)
    requires vs.lo == 1 == vs.hi && vs.Accepts(c.To())
    requires Enumerated(g, rest, vs.s.Bind(vs.row, c.To(), [c]), c.To(), used + {c.rel}, rows, sub)
    ensures AllTails(g, vs, rest, c.To(), used + {c.rel}, [c], rows, Stopped(sub))
  {
    StopHere(g, vs, rest, c.To(), used + {c.rel}, [c], rows, sub);
    AllTried(g, vs, rest, c.To(), used + {c.rel}, [c], [], rows, Stopped(sub));
  }

  lemma HopTails(g: Graph, s: Step, rest: seq<Step>, row: Row, cur: Node, used: set<Rel>, c: Crossing, used': set<Rel>,
                 rows: seq<Row>, sub: seq<Match>) returns (tails: seq<Match>)
    requires s.range.None? && CanCross(g, s, s.dir, cur, c) && c.rel !in used && s.Accepts(row, c.To())
    requires Enumerated(g, rest, s.Bind(row, c.To(), [c]), c.To(), used', rows, sub)
    requires rest == [] || used' == used + {c.rel}
    ensures TailsListed(g, HopSearch(s, row, cur), rest, cur, used, [], false, [c], rows, tails)
  {
    var vs := HopSearch(s, row, cur);
    if rest == [] { UsedIsIdle(g, s.Bind(row, c.To(), [c]), c.To(), used', used + {c.rel}, rows, sub); }
    HopCrossed(g, vs, rest, cur, used, c, rows, sub);
    assert [] + [c] == [c];
    tails := CarryOn(g, vs, rest, cur, used, [], c, rows, Stopped(sub));
  }

  /** A candidate not tried before adds its tails to those listed so far. */
  lemma AddCandidate(g: Graph, vs: Search, rest: seq<Step>, cur: Node, used: set<Rel>, hops: Path,
                     firsts: seq<Crossing>, rows: seq<Row>, ms: seq<Match>, c: Crossing, rows': seq<Row>, ms': seq<Match>)
    requires TailsListed(g, vs, rest, cur, used, hops, true, firsts, rows, ms) && c !in firsts
    requires TailsListed(g, vs, rest, cur, used, hops, false, [c], rows', ms')
    ensures TailsListed(g, vs, rest, cur, used, hops, true, firsts + [c], rows + rows', ms + ms')
  {
    ghost var tail: Match -> bool := m => IsTail(g, vs, rest, cur, used, hops, m);
    JoinLists(tail, firsts, c, ms, ms');
  }

  /** Once every candidate has been tried, or none may be, no tail is missing. */
  lemma AllTried(g: Graph, vs: Search, rest: seq<Step>, cur: Node, used: set<Rel>, hops: Path,
                 cands: seq<Crossing>, rows: seq<Row>, ms: seq<Match>)
    requires TailsListed(g, vs, rest, cur, used, hops, true, cands, rows, ms)
    requires |hops| >= vs.hi || forall c :: CanCross(g, vs.s, vs.dir, cur, c) && c.rel !in used ==> c in cands
    ensures AllTails(g, vs, rest, cur, used, hops, rows, ms)
  {
    forall m | IsTail(g, vs, rest, cur, used, hops, m) ensures Admits(true, cands, m[0]) {
      if m[0] != [] { TrailHead(g, vs.s, vs.dir, cur, used, m[0]); }
    }
  }

  /** The tails of a hop nothing has been crossed of yet are the matches. */
  lemma TailsAreMatches(g: Graph, steps: seq<Step>, row: Row, cur: Node, used: set<Rel>, vs: Search, rows: seq<Row>, ms: seq<Match>)
    requires steps != []
    requires vs.s == steps[0] && vs.row == row && vs.lo == vs.s.Lo() && vs.hi == vs.s.Hi() && vs.dir == vs.s.dir
    requires forall n :: vs.Accepts(n) <==> vs.s.Accepts(row, n)
    requires AllTails(g, vs, steps[1..], cur, used, [], rows, ms)
    ensures Enumerated(g, steps, row, cur, used, rows, ms)
  {
    forall m: Match | m != [] ensures IsTail(g, vs, steps[1..], cur, used, [], m) <==> IsMatch(g, steps, row, cur, used, m) {
      assert [] + m[0] == m[0];
    }
    forall i | 0 <= i < |ms| ensures rows[i] == FinalRow(steps, row, cur, ms[i]) {
      assert [] + ms[i][0] == ms[i][0];
    }
  }

  // ------------------------------------------------------------------ whole patterns

  /** A pattern: its start node, which `starts` admits, and its hops. */
  datatype Pattern = Pattern(startVar: Option<string>, starts: set<Node>, steps: seq<Step>)
  {
    /** The start variable is on the row already, or no hop reads it. */
    ghost predicate StartIsRead(row: Row) {
      StartVarApart() && (startVar.Some? && startVar.value !in row ==> forall i :: 0 <= i < |steps| ==> steps[i].endVar != startVar)
    }

    ghost predicate StartVarApart() {
      forall i :: 0 <= i < |steps| && steps[i].relVar.Some? ==> steps[i].relVar != startVar
    }

    /** The row binds the start to n, or leaves it to any node of the graph. */
    predicate MayStart(g: Graph, row: Row, n: Node) {
      if startVar.Some? && startVar.value in row then row[startVar.value] == NodeValue(n) else n < |g.adj|
    }

    function BindStart(row: Row, n: Node): Row {
      if startVar.Some? then row[startVar.value := NodeValue(n)] else row
    }

    lemma BoundStartFree(row: Row, n: Node)
      requires RelVarsFree(steps, row) && StartVarApart()
      ensures RelVarsFree(steps, BindStart(row, n))
    {
    }

    /** f is a start node and a match of the steps from it. */
    ghost predicate IsFound(g: Graph, row: Row, f: (Node, Match)) {
      MayStart(g, row, f.0) && f.0 in starts && IsMatch(g, steps, BindStart(row, f.0), f.0, {}, f.1)
    }

    ghost function RowOf(row: Row, f: (Node, Match)): Row
      requires |f.1| == |steps|
    {
      FinalRow(steps, BindStart(row, f.0), f.0, f.1)
    }
  }

  ghost predicate PatternHolds(g: Graph, p: Pattern, row: Row) {
    exists n :: p.MayStart(g, row, n) && n in p.starts && Matches(g, p.steps, p.BindStart(row, n), n, {})
  }

  lemma StartIsIdle(g: Graph, p: Pattern, row: Row, n: Node)
    requires RelVarsFree(p.steps, row) && p.StartIsRead(row) && p.MayStart(g, row, n)
    ensures Matches(g, p.steps, p.BindStart(row, n), n, {}) <==> Matches(g, p.steps, row, n, {})
  {
    p.BoundStartFree(row, n);
    var bound := p.BindStart(row, n);
    if m: Match :| IsMatch(g, p.steps, bound, n, {}, m) { SameMatches(g, p.steps, bound, row, n, {}, m); }
    if m: Match :| IsMatch(g, p.steps, row, n, {}, m) { SameMatches(g, p.steps, row, bound, n, {}, m); }
  }

  ghost predicate FoundFrom(g: Graph, p: Pattern, row: Row, ids: seq<Node>, rows: seq<Row>, found: seq<(Node, Match)>) {
    && |rows| == |found|
    && (forall i, j :: 0 <= i < j < |found| ==> found[i] != found[j])
    && (forall f :: f in found <==> f.0 in ids && p.IsFound(g, row, f))
    && (forall i :: 0 <= i < |found| ==> |found[i].1| == |p.steps| && rows[i] == p.RowOf(row, found[i]))
  }

  lemma AddStart(g: Graph, p: Pattern, row: Row, ids: seq<Node>, rows: seq<Row>, found: seq<(Node, Match)>,
                 n: Node, more: seq<Row>, ms: seq<Match>)
    requires FoundFrom(g, p, row, ids, rows, found) && n !in ids && p.MayStart(g, row, n)
    requires if n in p.starts then Enumerated(g, p.steps, p.BindStart(row, n), n, {}, more, ms) else more == [] && ms == []
    ensures FoundFrom(g, p, row, ids + [n], rows + more, found + seq(|ms|, k requires 0 <= k < |ms| => (n, ms[k])))
  {
    var these := seq(|ms|, k requires 0 <= k < |ms| => (n, ms[k]));
    var all := found + these;
    forall i, j | 0 <= i < j < |all| ensures all[i] != all[j] {
      if i < |found| <= j { assert found[i] in found; }
    }
    forall f ensures f in all <==> f.0 in ids + [n] && p.IsFound(g, row, f) {
      if f.0 == n && p.IsFound(g, row, f) {
        assert f.1 in ms;
        var k :| 0 <= k < |ms| && ms[k] == f.1;
        assert these[k] == f;
      }
      if f in these { var k :| 0 <= k < |these| && these[k] == f; assert ms[k] in ms; }
      assert f in all <==> f in found || f in these;
    }
  }
}
