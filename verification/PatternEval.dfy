/** The pattern evaluator: the existential search behind a pattern predicate. */
module PatternEval {
  import opened PatternGraph
  import opened PatternReach
  import opened PatternSearch
  import opened PatternEnum
  import opened PatternRows
  import opened Slices

  const MaxRowTraversals := 1_000_000
  const MaxTotalTraversals := 100_000_000

  /** Exceeding the traversal budget is an error, about which nothing more is said. */
  datatype Verdict = Answer(found: bool) | CapExceeded

  /** The stack of relationships a partial match has crossed; one without room for any tracks none. */
  type RelPath = Slice<Rel>

  predicate Tracked(p: RelPath) { p.data.Length > 0 }

  ghost function Elements(s: seq<Rel>): set<Rel> { set r | r in s }

  ghost function Used(p: RelPath): set<Rel>
    requires p.Valid()
    reads p.data
  {
    Elements(p.View())
  }

  const RelPathVarLenReserve := 8

  /** A single fixed hop, or a pattern of one variable-length hop, tracks nothing yet. */
  method NewRelPath(steps: seq<Step>) returns (p: RelPath)
    ensures fresh(p.data) && p.Valid() && p.View() == [] && (Tracked(p) <==> |steps| >= 2)
  {
    if |steps| < 2 {
      var none := new Rel[0];
      return Slice(none, 0);
    }
    var n := |steps|;
    for i := 0 to |steps| invariant n >= |steps| {
      if steps[i].range.Some? { n := n + RelPathVarLenReserve; }
    }
    var data := new Rel[n];
    p := Slice(data, 0);
  }

  method EnsureRelPath(used: RelPath) returns (p: RelPath)
    requires used.Valid()
    ensures p.Valid() && Tracked(p) && p.View() == used.View() && (p == used || fresh(p.data))
  {
    if Tracked(used) { return used; }
    var data := new Rel[RelPathVarLenReserve];
    p := Slice(data, 0);
    assert used.View() == [] && p.View() == [];
  }

  method RelUsed(used: RelPath, r: Rel) returns (yes: bool)
    requires used.Valid()
    ensures yes <==> r in Used(used)
  {
    for i := 0 to used.len
      invariant r !in used.data[..i]
    {
      if used.data[i] == r {
        assert used.View()[i] == r;
        return true;
      }
    }
    return false;
  }

  method PushRel(used: RelPath, r: Rel) returns (next: RelPath)
    requires used.Valid()
    modifies used.data
    ensures next.Valid() && (next.data == used.data || fresh(next.data)) && (Tracked(next) <==> Tracked(used))
    ensures used.View() == old(used.View())
    ensures Used(next) == if Tracked(used) then old(Used(used)) + {r} else {}
    ensures next.data == used.data ==> next.len >= used.len && used.View() == next.View()[..used.len]
  {
    if !Tracked(used) { return used; }
    next := Append(used, r);
    assert forall x :: x in old(used.View()) + [r] <==> x in old(used.View()) || x == r;
  }

  // ------------------------------------------------------------------ candidates

  predicate NoRepeats(cs: seq<Crossing>) { forall i, j :: 0 <= i < j < |cs| ==> cs[i] != cs[j] }

  /** cs is exactly the crossings of one leg that are not in skip. */
  ghost predicate Collected(g: Graph, s: Step, dir: Dir, cur: Node, skip: set<Rel>, cs: seq<Crossing>) {
    && NoRepeats(cs)
    && forall c :: c in cs <==> CanCross(g, s, dir, cur, c) && c.rel !in skip
  }

  method CollectOutgoing(g: Graph, s: Step, cur: Node, used: RelPath) returns (cs: seq<Crossing>)
    requires used.Valid()
    ensures Collected(g, s, Out, cur, Used(used), cs)
  {
    cs := [];
    var entry := g.Entry(cur);
    for i := 0 to |entry|
      invariant NoRepeats(cs)
      invariant forall c :: c in cs <==> CanCross(g, s, Out, cur, c) && c.rel !in Used(used) && c.rel.slot < i
    {
      var r := Rel(cur, i);
      var seen := RelUsed(used, r);
      if seen || !Qualifies(g, s, r) { continue; }
      cs := cs + [Crossing(r, entry[i].dst, true)];
    }
  }

  /** hits are all the slots pointing at cur, with cur's own loops or without. */
  method CollectIncoming(g: Graph, s: Step, cur: Node, used: RelPath, hits: seq<Rel>, loops: bool) returns (cs: seq<Crossing>)
    requires used.Valid()
    requires Scanned(g, cur, true, true, {}, |g.adj|, hits) || (!loops && Scanned(g, cur, false, true, {}, |g.adj|, hits))
    ensures NoRepeats(cs)
    ensures forall c :: c in cs <==> CanCross(g, s, In, cur, c) && c.rel !in Used(used) && (loops || c.rel.src != cur)
  {
    cs := [];
    assert forall j :: 0 <= j < |hits| ==> hits[j] in hits && g.Has(hits[j]) && g.At(hits[j]).dst == cur;
    for i := 0 to |hits|
      invariant NoRepeats(cs)
      invariant forall c :: c in cs <==>
        CanCross(g, s, In, cur, c) && c.rel !in Used(used) && (loops || c.rel.src != cur) && c.rel in hits[..i]
    {
      var h := hits[i];
      assert hits[..i + 1] == hits[..i] + [h];
      assert h !in hits[..i];
      var seen := RelUsed(used, h);
      if (h.src == cur && !loops) || seen || !Qualifies(g, s, h) { continue; }
      cs := cs + [Crossing(h, cur, false)];
    }
    assert hits[..|hits|] == hits;
    forall c | CanCross(g, s, In, cur, c) && (loops || c.rel.src != cur) ensures c.rel in hits {
      assert Answered(hits, true, c.rel);
    }
  }

  lemma BothCollected(g: Graph, s: Step, cur: Node, skip: set<Rel>, out: seq<Crossing>, back: seq<Crossing>)
    requires Collected(g, s, Out, cur, skip, out) && NoRepeats(back)
    requires forall c :: c in back <==> CanCross(g, s, In, cur, c) && c.rel !in skip && c.rel.src != cur
    ensures Collected(g, s, Both, cur, skip, out + back)
  {
    forall i, j | 0 <= i < j < |out + back| ensures (out + back)[i] != (out + back)[j] {
      if i < |out| <= j { assert out[i] in out && back[j - |out|] in back; }
    }
    forall c ensures c in out + back <==> CanCross(g, s, Both, cur, c) && c.rel !in skip {
      assert c in out + back <==> c in out || c in back;
    }
  }

  ghost predicate Exact(g: Graph, cache: map<Node, seq<Rel>>) {
    forall n :: n in cache ==> Scanned(g, n, true, true, {}, |g.adj|, cache[n])
  }

  /** What a pattern predicate's steps must be: they bind nothing the row does not hold. */
  ghost predicate Bare(steps: seq<Step>, row: Row) { RelVarsFree(steps, row) && ReadsOnly(steps, row) }

  function OutCrossing(g: Graph, cur: Node, i: nat): Crossing
    requires i < |g.Entry(cur)|
  {
    Crossing(Rel(cur, i), g.Entry(cur)[i].dst, true)
  }

  /** The i-th outgoing slot leads to a match of the whole. */
  ghost predicate SlotLeg(g: Graph, steps: seq<Step>, row: Row, cur: Node, used: set<Rel>, i: int)
    requires steps != []
  {
    0 <= i < |g.Entry(cur)| && Leg(g, steps, row, cur, used, Out, OutCrossing(g, cur, i))
  }

  lemma OutLegs(g: Graph, steps: seq<Step>, row: Row, cur: Node, used: set<Rel>)
    requires steps != []
    ensures (exists c :: Leg(g, steps, row, cur, used, Out, c)) <==> exists i :: SlotLeg(g, steps, row, cur, used, i)
  {
    if c :| Leg(g, steps, row, cur, used, Out, c) { assert SlotLeg(g, steps, row, cur, used, c.rel.slot); }
  }

  /** What lets a slot be passed over, and what lets it be crossed. */
  lemma SlotVerdict(g: Graph, steps: seq<Step>, row: Row, cur: Node, used: set<Rel>, i: nat)
    requires steps != [] && i < |g.Entry(cur)|
    ensures var s, c := steps[0], OutCrossing(g, cur, i);
      && (SlotLeg(g, steps, row, cur, used, i) <==> Leg(g, steps, row, cur, used, Out, c))
      && (SlotLeg(g, steps, row, cur, used, i) ==> Qualifies(g, s, c.rel) && c.rel !in used && s.BoundTo(row, c.To()) && c.To() in s.ends)
      && (Qualifies(g, s, c.rel) ==> CanCross(g, s, Out, cur, c))
      && (s.BoundTo(row, c.To()) && c.To() in s.ends ==> s.Accepts(row, c.To()))
  {
  }

  lemma EndUnbound(g: Graph, steps: seq<Step>, row: Row, cur: Node, used: set<Rel>)
    requires steps != [] && forall n: Node :: !steps[0].BoundTo(row, n)
    ensures forall i :: !SlotLeg(g, steps, row, cur, used, i)
  {
  }

  lemma NoSlotLeg(g: Graph, steps: seq<Step>, row: Row, cur: Node, used: set<Rel>)
    requires steps != [] && forall i :: 0 <= i < |g.Entry(cur)| ==> !SlotLeg(g, steps, row, cur, used, i)
    ensures forall i :: !SlotLeg(g, steps, row, cur, used, i)
  {
  }

  predicate Fixed(steps: seq<Step>) { forall i :: 0 <= i < |steps| ==> steps[i].range.None? }

  /** How many stored relationships point at n. */
  ghost function InDegree(g: Graph, n: Node): nat { |set r | r in g.Rels() && g.At(r).dst == n| }

  /** The slots read to cross one more relationship from n; an undirected hop reads a loop twice. */
  ghost function SlotsRead(g: Graph, n: Node, dir: Dir): nat {
    (if dir == In then 0 else |g.Entry(n)|) + (if dir == Out then 0 else InDegree(g, n))
  }

  lemma ScannedCount(g: Graph, n: Node, hits: seq<Rel>)
    requires Scanned(g, n, true, true, {}, |g.adj|, hits)
    ensures |hits| == InDegree(g, n)
  {
    forall r ensures r in hits <==> r in g.Rels() && g.At(r).dst == n { }
    assert Elements(hits) == set r | r in g.Rels() && g.At(r).dst == n;
    ElementsSize(hits);
  }

  lemma {:induction false} ElementsSize(s: seq<Rel>)
    requires forall i, j :: 0 <= i < j < |s| ==> s[i] != s[j]
    ensures |Elements(s)| == |s|
  {
    if s != [] {
      ElementsSize(s[..|s| - 1]);
      assert Elements(s) == Elements(s[..|s| - 1]) + {s[|s| - 1]};
    }
  }

  class PatternEvaluator {
    const g: Graph
    var rowTraversals: nat
    var totalTraversals: nat
    var evalNesting: nat
    var incoming: map<Node, seq<Rel>>

    constructor (g: Graph)
      ensures this.g == g && Valid()
    {
      this.g := g;
      rowTraversals, totalTraversals, evalNesting, incoming := 0, 0, 0, map[];
    }

    /** The incoming-slot cache is exact: it holds what a scan of the view would find. */
    ghost predicate Valid() reads this { Exact(g, incoming) }

    /** The budget of a row, and the cache, are one evaluation's; a nested evaluation shares its caller's. */
    method BeginEval()
      requires Valid()
      modifies this
      ensures Valid() && evalNesting == old(evalNesting) + 1 && totalTraversals == old(totalTraversals)
      ensures rowTraversals == if old(evalNesting) == 0 then 0 else old(rowTraversals)
    {
      if evalNesting == 0 { rowTraversals, incoming := 0, map[]; }
      evalNesting := evalNesting + 1;
    }

    method EndEval()
      requires evalNesting > 0
      modifies this`evalNesting
      ensures evalNesting == old(evalNesting) - 1
    {
      evalNesting := evalNesting - 1;
    }

    method Charge(n: nat) returns (ok: bool)
      modifies this`rowTraversals, this`totalTraversals
      ensures rowTraversals == old(rowTraversals) + n && totalTraversals == old(totalTraversals) + n
      ensures ok <==> rowTraversals <= MaxRowTraversals && totalTraversals <= MaxTotalTraversals
    {
      rowTraversals, totalTraversals := rowTraversals + n, totalTraversals + n;
      ok := rowTraversals <= MaxRowTraversals && totalTraversals <= MaxTotalTraversals;
    }

    /** What a search has charged since the counters stood at row0 and total0: both advance together,
        a search of fixed hops charges nothing and is never refused, and none is refused within the
        budgets. */
    ghost predicate Charged(refused: bool, row0: nat, total0: nat, free: bool)
      reads this`rowTraversals, this`totalTraversals
    {
      && row0 <= rowTraversals && rowTraversals - row0 == totalTraversals - total0
      && (free ==> rowTraversals == row0 && !refused)
      && (refused ==> rowTraversals > MaxRowTraversals || totalTraversals > MaxTotalTraversals)
    }

    method IncomingSlotsOf(id: Node) returns (hits: seq<Rel>)
      requires Valid()
      modifies this`incoming
      ensures Valid() && Scanned(g, id, true, true, {}, |g.adj|, hits)
    {
      if id in incoming { return incoming[id]; }
      hits := ScanIncoming(g, id, true, true, {});
      incoming := incoming[id := hits];
    }

    /** Every relationship the hop may cross from cur that is not on used, each once. */
    method VarLenCandidates(cur: Node, s: Step, dir: Dir, used: RelPath) returns (ok: bool, cands: seq<Crossing>)
      requires Valid() && used.Valid()
      modifies this`rowTraversals, this`totalTraversals, this`incoming
      ensures Valid() && (ok ==> Collected(g, s, dir, cur, Used(used), cands))
      ensures Charged(!ok, old(rowTraversals), old(totalTraversals), false)
      ensures rowTraversals - old(rowTraversals) <= SlotsRead(g, cur, dir)
      ensures ok ==> rowTraversals - old(rowTraversals) == SlotsRead(g, cur, dir)
    {
      cands := [];
      if dir != In {
        ok := Charge(|g.Entry(cur)|);
        if !ok { return; }
        cands := CollectOutgoing(g, s, cur, used);
      }
      if dir != Out {
        var hits := IncomingSlotsOf(cur);
        ScannedCount(g, cur, hits);
        ok := Charge(|hits|);
        if !ok { return; }
        var back := CollectIncoming(g, s, cur, used, hits, dir == In);
        if dir == Both { BothCollected(g, s, cur, Used(used), cands, back); }
        cands := cands + back;
      }
    }

    // ---------------------------------------------------------------- the existential search

    /** What a search over `used` may assume and must leave. */
    ghost predicate Ready(steps: seq<Step>, row: Row, used: RelPath) reads this, used.data {
      Valid() && used.Valid() && Bare(steps, row)
    }

    method MatchSteps(cur: Node, steps: seq<Step>, row: Row, used: RelPath) returns (v: Verdict)
      requires Ready(steps, row, used) && (Tracked(used) || |steps| <= 1)
      modifies this`rowTraversals, this`totalTraversals, this`incoming, used.data
      ensures Valid() && used.View() == old(used.View())
      ensures Charged(v.CapExceeded?, old(rowTraversals), old(totalTraversals), Fixed(steps))
      ensures v.Answer? ==> (v.found <==> Matches(g, steps, row, cur, old(Used(used))))
      decreases |steps|, 1, 0, 9
    {
      if steps == [] {
        assert IsMatch(g, steps, row, cur, Used(used), []);
        return Answer(true);
      }
      if steps[0].range.Some? {
        v := MatchVarLen(cur, steps, row, used);
      } else {
        v := MatchUnboundHop(cur, steps, row, used);
      }
    }

    method MatchUnboundHop(cur: Node, steps: seq<Step>, row: Row, used: RelPath) returns (v: Verdict)
      requires steps != [] && steps[0].range.None?
      requires Ready(steps, row, used) && (Tracked(used) || |steps| <= 1)
      modifies this`rowTraversals, this`totalTraversals, this`incoming, used.data
      ensures Valid() && used.View() == old(used.View())
      ensures Charged(v.CapExceeded?, old(rowTraversals), old(totalTraversals), Fixed(steps))
      ensures v.Answer? ==> (v.found <==> Matches(g, steps, row, cur, old(Used(used))))
      decreases |steps|, 1, 0, 8
    {
      FixedHop(g, steps, row, cur, Used(used));
      match steps[0].dir
      case Out => v := MatchOutgoing(cur, steps, row, used);
      case In => v := MatchIncoming(cur, steps, row, used);
      case Both =>
        ghost var u := Used(used);
        BothLegs(g, steps, row, cur, u);
        v := MatchOutgoing(cur, steps, row, used);
        if v.CapExceeded? || v.found { return; }
        assert Used(used) == u;
        v := MatchIncoming(cur, steps, row, used);
    }

    /** The node a bound end variable denotes: None when the variable is not bound, Some(None) when
        no node can satisfy it. */
    function BoundEnd(s: Step, row: Row): (r: Option<Option<Node>>)
      ensures r.None? ==> forall n: Node :: s.BoundTo(row, n)
      ensures r.Some? ==> forall n: Node :: s.BoundTo(row, n) <==> r.value == Some(n)
    {
      if s.endVar.None? || s.endVar.value !in row then None
      else match row[s.endVar.value] case NodeValue(id) => Some(Some(id)) case _ => Some(None)
    }

    /** Over one hop and no property map every verdict is the pair's, so the first slot to a bound
        end decides. */
    method MatchOutgoing(cur: Node, steps: seq<Step>, row: Row, used: RelPath) returns (v: Verdict)
      requires steps != [] && Ready(steps, row, used) && (Tracked(used) || |steps| <= 1)
      modifies this`rowTraversals, this`totalTraversals, this`incoming, used.data
      ensures Valid() && used.View() == old(used.View())
      ensures Charged(v.CapExceeded?, old(rowTraversals), old(totalTraversals), Fixed(steps))
      ensures v.Answer? ==> (v.found <==> exists c :: Leg(g, steps, row, cur, old(Used(used)), Out, c))
      decreases |steps|, 1, 0, 7
    {
      var s := steps[0];
      if Tracked(used) || s.props.Some? {
        v := MatchOutgoingUnique(cur, steps, row, used);
        return;
      }
      assert Used(used) == {};
      PairsSettle(g, steps, row, cur, Out);
      var end := BoundEnd(s, row);
      if end == Some(None) { return Answer(false); }
      var entry := g.Entry(cur);
      for i := 0 to |entry|
        invariant Charged(false, old(rowTraversals), old(totalTraversals), Fixed(steps))
        invariant forall j :: 0 <= j < i ==> !PairLeg(g, s, row, cur, Out, entry[j].dst)
      {
        var dst := entry[i].dst;
        if end.Some? && Some(dst) != end.value { continue; }
        if PairMatches(g, cur, dst, s.types) && dst in s.ends {
          RestReady(steps, row);
          assert PairLeg(g, s, row, cur, Out, dst) && IsMatch(g, steps[1..], row, dst, {}, []);
          v := MatchSteps(dst, steps[1..], row, used);
          return;
        }
        if end.Some? { return Answer(false); }
      }
      return Answer(false);
    }

    method MatchOutgoingUnique(cur: Node, steps: seq<Step>, row: Row, used: RelPath) returns (v: Verdict)
      requires steps != [] && Ready(steps, row, used) && (Tracked(used) || |steps| <= 1)
      modifies this`rowTraversals, this`totalTraversals, this`incoming, used.data
      ensures Valid() && used.View() == old(used.View())
      ensures Charged(v.CapExceeded?, old(rowTraversals), old(totalTraversals), Fixed(steps))
      ensures v.Answer? ==> (v.found <==> exists c :: Leg(g, steps, row, cur, old(Used(used)), Out, c))
      decreases |steps|, 1, 0, 6
    {
      hide Exact, Bare, Matches, Leg, CanCross, SlotLeg, Qualifies;
      var s := steps[0];
      var end := BoundEnd(s, row);
      var entry := g.Entry(cur);
      ghost var u := Used(used);
      OutLegs(g, steps, row, cur, u);
      if end == Some(None) {
        EndUnbound(g, steps, row, cur, u);
        return Answer(false);
      }
      for i := 0 to |entry|
        invariant Charged(false, old(rowTraversals), old(totalTraversals), Fixed(steps))
        invariant Valid() && used.View() == old(used.View())
        invariant forall j :: 0 <= j < i ==> !SlotLeg(g, steps, row, cur, u, j)
      {
        SlotVerdict(g, steps, row, cur, u, i);
        var dst := entry[i].dst;
        if end.Some? && Some(dst) != end.value { continue; }
        var seen := RelUsed(used, Rel(cur, i));
        if seen || !Qualifies(g, s, Rel(cur, i)) || dst !in s.ends { continue; }
        v := FollowHop(cur, steps, row, used, OutCrossing(g, cur, i));
        if v.CapExceeded? || v.found { return; }
      }
      NoSlotLeg(g, steps, row, cur, u);
      return Answer(false);
    }

    /** Over one hop and no property map the first slot of each source decides; a bound end is the
        only source read. */
    method MatchIncoming(cur: Node, steps: seq<Step>, row: Row, used: RelPath) returns (v: Verdict)
      requires steps != [] && Ready(steps, row, used) && (Tracked(used) || |steps| <= 1)
      modifies this`rowTraversals, this`totalTraversals, this`incoming, used.data
      ensures Valid() && used.View() == old(used.View())
      ensures Charged(v.CapExceeded?, old(rowTraversals), old(totalTraversals), Fixed(steps))
      ensures v.Answer? ==> (v.found <==> exists c :: Leg(g, steps, row, cur, old(Used(used)), In, c))
      decreases |steps|, 1, 0, 7
    {
      var end := BoundEnd(steps[0], row);
      if end.Some? {
        if end.value.None? { return Answer(false); }
        v := MatchFromSource(cur, end.value.value, steps, row, used);
        return;
      }
      ghost var u := Used(used);
      for id := 0 to |g.adj|
        invariant Charged(false, old(rowTraversals), old(totalTraversals), Fixed(steps))
        invariant Valid() && used.View() == old(used.View())
        invariant forall c :: Leg(g, steps, row, cur, u, In, c) ==> c.rel.src >= id
      {
        v := MatchFromSource(cur, id, steps, row, used);
        if v.CapExceeded? || v.found { return; }
      }
      return Answer(false);
    }

    /** The legs over the slots of one source that point at cur. */
    method MatchFromSource(cur: Node, id: Node, steps: seq<Step>, row: Row, used: RelPath) returns (v: Verdict)
      requires steps != [] && Ready(steps, row, used) && (Tracked(used) || |steps| <= 1)
      modifies this`rowTraversals, this`totalTraversals, this`incoming, used.data
      ensures Valid() && used.View() == old(used.View())
      ensures Charged(v.CapExceeded?, old(rowTraversals), old(totalTraversals), Fixed(steps))
      ensures v.Answer? ==> (v.found <==> exists c :: Leg(g, steps, row, cur, old(Used(used)), In, c) && c.rel.src == id)
      decreases |steps|, 1, 0, 6
    {
      var s := steps[0];
      var entry := g.Entry(id);
      ghost var u := Used(used);
      for i := 0 to |entry|
        invariant Charged(false, old(rowTraversals), old(totalTraversals), Fixed(steps))
        invariant Valid() && used.View() == old(used.View())
        invariant forall j :: 0 <= j < i ==> !Leg(g, steps, row, cur, u, In, Crossing(Rel(id, j), cur, false))
      {
        if entry[i].dst != cur { continue; }
        if !Tracked(used) && s.props.None? {
          assert u == {};
          PairDecides(g, steps, row, cur, In, id);
          if !PairMatches(g, id, cur, s.types) || !s.Accepts(row, id) { return Answer(false); }
          assert PairLeg(g, s, row, cur, In, id);
          RestReady(steps, row);
          assert IsMatch(g, steps[1..], row, id, u, []);
          v := MatchSteps(id, steps[1..], row, used);
          return;
        }
        var seen := RelUsed(used, Rel(id, i));
        if seen || !Qualifies(g, s, Rel(id, i)) || !s.Accepts(row, id) { continue; }
        v := FollowHop(cur, steps, row, used, Crossing(Rel(id, i), cur, false));
        if v.CapExceeded? || v.found { return; }
      }
      return Answer(false);
    }

    /** Crosses c and asks whether the remaining steps match from there. */
    method FollowHop(ghost cur: Node, steps: seq<Step>, row: Row, used: RelPath, c: Crossing) returns (v: Verdict)
      requires steps != [] && Ready(steps, row, used) && (Tracked(used) || |steps| <= 1)
      requires c.rel !in Used(used) && steps[0].Accepts(row, c.To())
      requires CanCross(g, steps[0], if c.forward then Out else In, cur, c)
      modifies this`rowTraversals, this`totalTraversals, this`incoming, used.data
      ensures Valid() && used.View() == old(used.View())
      ensures Charged(v.CapExceeded?, old(rowTraversals), old(totalTraversals), Fixed(steps))
      ensures v.Answer? ==> (v.found <==> Leg(g, steps, row, cur, old(Used(used)), if c.forward then Out else In, c))
      decreases |steps|, 1, 0, 5
    {
      RestReady(steps, row);
      ghost var was := used.View();
      var next := PushRel(used, c.rel);
      ghost var all := next.View();
      v := MatchSteps(c.To(), steps[1..], row, next);
      if next.data == used.data { StillHeld(used, next, was, all); }
      if steps[1..] == [] {
        assert IsMatch(g, steps[1..], row, c.To(), {}, []);
        assert IsMatch(g, steps[1..], row, c.To(), old(Used(used)) + {c.rel}, []);
      }
    }

    // ---------------------------------------------------------------- variable-length hops

    /** The exact search. Each level crosses one more unused relationship, so it ends without an
        upper bound on the hop's length. */
    method VarLenExists(vs: Search, rest: seq<Step>, cur: Node, depth: nat, used: RelPath, ghost u: set<Rel>)
      returns (v: Verdict)
      requires Ready(rest, vs.row, used) && Tracked(used) && depth <= vs.hi
      requires u == Used(used)
      modifies this`rowTraversals, this`totalTraversals, this`incoming, used.data
      ensures Valid() && used.View() == old(used.View())
      ensures Charged(v.CapExceeded?, old(rowTraversals), old(totalTraversals), false)
      ensures v.Answer? ==> (v.found <==> Completable(g, vs, rest, cur, depth, u))
      decreases |rest| + 1, 0, |g.Rels() - u|, 2
    {
      CompletableHereOrVia(g, vs, rest, cur, depth, u);
      if depth >= vs.lo && vs.Accepts(cur) {
        v := MatchSteps(cur, rest, vs.row, used);
        if v.CapExceeded? || v.found { return; }
      }
      if depth >= vs.hi { return Answer(false); }
      assert Used(used) == u;
      var ok, cands := VarLenCandidates(cur, vs.s, vs.dir, used);
      if !ok { return CapExceeded; }
      ghost var answers := ViaEach(g, vs, rest, cur, depth, u, cands);
      v := ExtendEach(vs, rest, depth, cands, used, u, answers);
    }

    /** Tries the candidates in turn. Siblings extend the same slice, each overwriting the last. */
    method ExtendEach(vs: Search, rest: seq<Step>, depth: nat, cands: seq<Crossing>, used: RelPath, ghost u: set<Rel>,
                      ghost answers: seq<bool>)
      returns (v: Verdict)
      requires Ready(rest, vs.row, used) && Tracked(used) && depth < vs.hi
      requires u == Used(used)
      requires AnswersAre(g, vs, rest, depth, u, cands, answers)
      modifies this`rowTraversals, this`totalTraversals, this`incoming, used.data
      ensures Valid() && used.View() == old(used.View())
      ensures Charged(v.CapExceeded?, old(rowTraversals), old(totalTraversals), false)
      ensures v.Answer? ==> (v.found <==> true in answers)
      decreases |rest| + 1, 0, |g.Rels() - u|, 1
    {
      for i := 0 to |cands|
        invariant Charged(false, old(rowTraversals), old(totalTraversals), false)
        invariant Valid() && used.View() == old(used.View()) && Used(used) == u
        invariant forall j :: 0 <= j < i ==> !answers[j]
      {
        v := Extend(vs, rest, depth, cands, i, used, u, answers);
        if v.CapExceeded? || v.found { return; }
      }
      return Answer(false);
    }

    method Extend(vs: Search, rest: seq<Step>, depth: nat, cands: seq<Crossing>, i: nat, used: RelPath, ghost u: set<Rel>,
                  ghost answers: seq<bool>)
      returns (v: Verdict)
      requires Ready(rest, vs.row, used) && Tracked(used) && depth < vs.hi && i < |cands| == |answers|
      requires u == Used(used)
      requires AnswersAre(g, vs, rest, depth, u, cands, answers)
      modifies this`rowTraversals, this`totalTraversals, this`incoming, used.data
      ensures Valid() && used.View() == old(used.View())
      ensures Charged(v.CapExceeded?, old(rowTraversals), old(totalTraversals), false)
      ensures v.Answer? ==> (v.found <==> answers[i])
      decreases |rest| + 1, 0, |g.Rels() - u|, 0
    {
      hide Exact, Bare;
      var c := cands[i];
      ghost var was := used.View();
      FewerLeft(g, u, c.rel);
      var next := PushRel(used, c.rel);
      ghost var all := next.View();
      v := VarLenExists(vs, rest, c.To(), depth + 1, next, u + {c.rel});
      if next.data == used.data { StillHeld(used, next, was, all); }
    }

    method MatchVarLen(cur: Node, steps: seq<Step>, row: Row, used: RelPath) returns (v: Verdict)
      requires steps != [] && steps[0].range.Some?
      requires Ready(steps, row, used) && (Tracked(used) || |steps| <= 1)
      modifies this`rowTraversals, this`totalTraversals, this`incoming, used.data
      ensures Valid() && used.View() == old(used.View())
      ensures Charged(v.CapExceeded?, old(rowTraversals), old(totalTraversals), false)
      ensures v.Answer? ==> (v.found <==> Matches(g, steps, row, cur, old(Used(used))))
      decreases |steps|, 1, 0, 8
    {
      var s, rest := steps[0], steps[1..];
      var end := BoundEnd(s, row);
      if end == Some(None) {
        MatchesByHop(g, steps, row, cur, Used(used));
        return Answer(false);
      }
      var vs := Search(s, row, s.Lo(), s.Hi(), s.dir,
                       if end.Some? then end.value.value else 0, end.Some?, false, false, cur);
      if rest == [] && used.len == 0 {
        assert steps == [s] && Used(used) == {};
        OneHop(g, s, row, cur, vs);
        v := MatchWholeHop(vs, cur, used);
      } else {
        HopIsCompletable(g, steps, row, cur, Used(used), vs);
        RestReady(steps, row);
        v := SearchExactly(vs, rest, cur, used);
      }
    }

    method SearchExactly(vs: Search, rest: seq<Step>, cur: Node, used: RelPath) returns (v: Verdict)
      requires Ready(rest, vs.row, used)
      modifies this`rowTraversals, this`totalTraversals, this`incoming, used.data
      ensures Valid() && used.View() == old(used.View())
      ensures Charged(v.CapExceeded?, old(rowTraversals), old(totalTraversals), false)
      ensures v.Answer? ==> (v.found <==> Completable(g, vs, rest, cur, 0, old(Used(used))))
      decreases |rest| + 1, 1, 0, 1
    {
      var path := EnsureRelPath(used);
      assert Used(path) == Used(used);
      v := VarLenExists(vs, rest, cur, 0, path, Used(path));
    }

    /** The hop is the whole pattern: from its bound end when it is incoming, and by reachability
        when its minimum allows. */
    method MatchWholeHop(vs0: Search, cur: Node, used: RelPath) returns (v: Verdict)
      requires Valid() && used.Valid() && used.len == 0
      requires vs0.start == cur && !vs0.swapped && !vs0.onlyStart
      modifies this`rowTraversals, this`totalTraversals, this`incoming, used.data
      ensures Valid() && used.View() == old(used.View())
      ensures Charged(v.CapExceeded?, old(rowTraversals), old(totalTraversals), false)
      ensures v.Answer? ==> (v.found <==> exists t :: Answers(g, vs0, cur, t))
      decreases 1, 1, 0, 7
    {
      var vs, from := vs0, cur;
      if vs.targetBound && vs.dir == In {
        if vs.target !in vs.s.ends { return Answer(false); }
        from := vs.target;
        vs := vs.(dir := Out, swapped := true, target := cur, start := from);
        Swapped(g, vs0, vs, cur, from);
      }
      CompletableIsAnswer(g, vs, from);
      if vs.lo <= 1 {
        var cycle := vs.lo == 1 && vs.Accepts(from);
        var directed := vs.dir != Both;
        ReachSettles(g, vs, from, cycle, directed);
        var found := VarLenReach(g, vs, from, cycle && directed);
        if found || !cycle || directed { return Answer(found); }
        ReachThenStart(g, vs, from, []);
        vs := vs.(onlyStart := true);
      }
      assert Used(used) == {};
      v := SearchExactly(vs, [], from, used);
    }

    /** Whether some start node begins a match. Without hops any start node is one, whatever its
        pattern asks: a lone node's labels and properties are not tested. */
    method MatchPattern(p: Pattern, row: Row) returns (v: Verdict)
      requires Valid() && RelVarsFree(p.steps, row) && ReadsOnly(p.steps, row) && p.StartIsRead(row)
      modifies this`rowTraversals, this`totalTraversals, this`incoming
      ensures Valid()
      ensures Charged(v.CapExceeded?, old(rowTraversals), old(totalTraversals), Fixed(p.steps))
      ensures p.steps != [] && v.Answer? ==> (v.found <==> PatternHolds(g, p, row))
      ensures p.steps == [] ==> v.Answer? && (v.found <==> exists n :: p.MayStart(g, row, n))
    {
      var known, ids := StartIds(p, row);
      if !known { return Answer(false); }
      if p.steps == [] {
        assert ids != [] ==> ids[0] in ids;
        return Answer(ids != []);
      }
      var used := NewRelPath(p.steps);
      for i := 0 to |ids|
        invariant Charged(false, old(rowTraversals), old(totalTraversals), Fixed(p.steps))
        invariant Valid() && used.Valid() && used.View() == [] && fresh(used.data)
        invariant forall j :: 0 <= j < i && ids[j] in p.starts ==> !Matches(g, p.steps, row, ids[j], {})
      {
        if ids[i] !in p.starts { continue; }
        assert Used(used) == {};
        v := MatchSteps(ids[i], p.steps, row, used);
        if v.CapExceeded? { return; }
        if v.found {
          StartIsIdle(g, p, row, ids[i]);
          return;
        }
      }
      forall n | p.MayStart(g, row, n) && n in p.starts ensures !Matches(g, p.steps, p.BindStart(row, n), n, {}) {
        assert n in ids;
        StartIsIdle(g, p, row, n);
      }
      return Answer(false);
    }

    /** One pattern predicate on one row, nested in another's evaluation or not. */
    method EvalPattern(p: Pattern, row: Row) returns (v: Verdict)
      requires Valid() && RelVarsFree(p.steps, row) && ReadsOnly(p.steps, row) && p.StartIsRead(row)
      modifies this
      ensures Valid() && evalNesting == old(evalNesting)
      ensures p.steps != [] && v.Answer? ==> (v.found <==> PatternHolds(g, p, row))
      ensures p.steps == [] ==> v.Answer? && (v.found <==> exists n :: p.MayStart(g, row, n))
      ensures Charged(v.CapExceeded?, if old(evalNesting) == 0 then 0 else old(rowTraversals), old(totalTraversals), Fixed(p.steps))
    {
      BeginEval();
      v := MatchPattern(p, row);
      EndEval();
    }

    /** The start nodes to try: the one the row binds, or every node; none when it binds no node. */
    method StartIds(p: Pattern, row: Row) returns (known: bool, ids: seq<Node>)
      ensures known ==> forall n :: n in ids <==> p.MayStart(g, row, n)
      ensures !known ==> forall n :: !p.MayStart(g, row, n)
      ensures forall i, j :: 0 <= i < j < |ids| ==> ids[i] != ids[j]
    {
      if p.startVar.Some? && p.startVar.value in row {
        match row[p.startVar.value]
        case NodeValue(id) => return true, [id];
        case _ => return false, [];
      }
      ids := seq(|g.adj|, i => i);
      forall n: Node | n < |g.adj| ensures n in ids { assert ids[n] == n; }
      known := true;
    }

    /** Every match of the pattern from every start node, once each. */
    method EnumeratePatternMatches(p: Pattern, row: Row) returns (ok: bool, rows: seq<Row>, ghost found: seq<(Node, Match)>)
      requires Valid() && RelVarsFree(p.steps, row) && p.StartVarApart()
      modifies this`rowTraversals, this`totalTraversals, this`incoming
      ensures Valid()
      ensures Charged(!ok, old(rowTraversals), old(totalTraversals), Fixed(p.steps))
      ensures ok ==> |rows| == |found| && (forall i, j :: 0 <= i < j < |found| ==> found[i] != found[j])
      ensures ok ==> forall f :: f in found <==> p.IsFound(g, row, f)
      ensures ok ==> forall i :: 0 <= i < |found| ==> |found[i].1| == |p.steps| && rows[i] == p.RowOf(row, found[i])
      ensures ok ==> forall f :: f in found <==> FitsPattern(g, p, row, f)
      ensures ok ==> forall i :: 0 <= i < |found| ==> PatternRow(p, row, found[i], rows[i])
    {
      ok, rows, found := true, [], [];
      var known, ids := StartIds(p, row);
      if !known { return; }
      var used := NewRelPath(p.steps);
      for i := 0 to |ids|
        invariant Charged(false, old(rowTraversals), old(totalTraversals), Fixed(p.steps))
        invariant Valid() && used.Valid() && used.View() == [] && fresh(used.data) && (Tracked(used) <==> |p.steps| >= 2)
        invariant FoundFrom(g, p, row, ids[..i], rows, found)
      {
        assert ids[i] !in ids[..i] && ids[..i + 1] == ids[..i] + [ids[i]];
        if ids[i] !in p.starts {
          AddStart(g, p, row, ids[..i], rows, found, ids[i], [], []);
          continue;
        }
        p.BoundStartFree(row, ids[i]);
        assert Used(used) == {};
        var fine, more, ms := EnumerateSteps(ids[i], p.steps, p.BindStart(row, ids[i]), used);
        if !fine { return false, [], []; }
        AddStart(g, p, row, ids[..i], rows, found, ids[i], more, ms);
        rows, found := rows + more, found + seq(|ms|, k requires 0 <= k < |ms| => (ids[i], ms[k]));
      }
      assert ids[..|ids|] == ids;
      FoundMeans(g, p, row, ids, rows, found);
    }

    // ---------------------------------------------------------------- enumeration

    /** Calls back, here: returns in order, the row of every match of the steps, once each. */
    method EnumerateSteps(cur: Node, steps: seq<Step>, row: Row, used: RelPath)
      returns (ok: bool, rows: seq<Row>, ghost ms: seq<Match>)
      requires Valid() && used.Valid() && RelVarsFree(steps, row) && (Tracked(used) || |steps| <= 1)
      modifies this`rowTraversals, this`totalTraversals, this`incoming, used.data
      ensures Valid() && used.View() == old(used.View())
      ensures Charged(!ok, old(rowTraversals), old(totalTraversals), Fixed(steps))
      ensures ok ==> Enumerated(g, steps, row, cur, old(Used(used)), rows, ms)
      decreases |steps|, 1, 0, 9
    {
      if steps == [] {
        NoSteps(g, row, cur, Used(used));
        return true, [row], [[]];
      }
      if steps[0].range.Some? {
        ok, rows, ms := EnumerateVarLen(cur, steps, row, used);
      } else {
        ok, rows, ms := EnumerateHop(cur, steps, row, used);
      }
    }

    /** The crossings a fixed hop may take; an undirected hop's own loops once, from the outgoing leg. */
    method HopCandidates(cur: Node, s: Step) returns (cands: seq<Crossing>)
      ensures Collected(g, s, s.dir, cur, {}, cands)
    {
      var data := new Rel[0];
      var none := Slice(data, 0);
      assert Used(none) == {};
      match s.dir
      case Out => cands := CollectOutgoing(g, s, cur, none);
      case In =>
        var hits := ScanIncoming(g, cur, true, true, {});
        cands := CollectIncoming(g, s, cur, none, hits, true);
      case Both =>
        var hits := ScanIncoming(g, cur, false, true, {});
        var back := CollectIncoming(g, s, cur, none, hits, false);
        cands := CollectOutgoing(g, s, cur, none);
        BothCollected(g, s, cur, {}, cands, back);
        cands := cands + back;
    }

    method EnumerateHop(cur: Node, steps: seq<Step>, row: Row, used: RelPath)
      returns (ok: bool, rows: seq<Row>, ghost ms: seq<Match>)
      requires steps != [] && steps[0].range.None?
      requires Valid() && used.Valid() && RelVarsFree(steps, row) && (Tracked(used) || |steps| <= 1)
      modifies this`rowTraversals, this`totalTraversals, this`incoming, used.data
      ensures Valid() && used.View() == old(used.View())
      ensures Charged(!ok, old(rowTraversals), old(totalTraversals), Fixed(steps))
      ensures ok ==> Enumerated(g, steps, row, cur, old(Used(used)), rows, ms)
      decreases |steps|, 1, 0, 8
    {
      var s, rest := steps[0], steps[1..];
      ghost var vs, u := HopSearch(s, row, cur), Used(used);
      var cands := HopCandidates(cur, s);
      ok, rows, ms := true, [], [];
      NoStop(g, vs, rest, cur, u, []);
      for i := 0 to |cands|
        invariant Charged(false, old(rowTraversals), old(totalTraversals), Fixed(steps))
        invariant Valid() && used.View() == old(used.View())
        invariant TailsListed(g, vs, rest, cur, u, [], true, cands[..i], rows, ms)
      {
        var c := cands[i];
        assert c in cands && cands[..i + 1] == cands[..i] + [c];
        var fine, more, tails := CrossHop(cur, steps, row, used, c);
        if !fine { return false, [], []; }
        AddCandidate(g, vs, rest, cur, u, [], cands[..i], rows, ms, c, more, tails);
        rows, ms := rows + more, ms + tails;
      }
      assert cands[..|cands|] == cands;
      AllTried(g, vs, rest, cur, u, [], cands, rows, ms);
      TailsAreMatches(g, steps, row, cur, u, vs, rows, ms);
    }

    method CrossHop(cur: Node, steps: seq<Step>, row: Row, used: RelPath, c: Crossing)
      returns (ok: bool, rows: seq<Row>, ghost tails: seq<Match>)
      requires steps != [] && steps[0].range.None? && CanCross(g, steps[0], steps[0].dir, cur, c)
      requires Valid() && used.Valid() && RelVarsFree(steps, row) && (Tracked(used) || |steps| <= 1)
      modifies this`rowTraversals, this`totalTraversals, this`incoming, used.data
      ensures Valid() && used.View() == old(used.View())
      ensures Charged(!ok, old(rowTraversals), old(totalTraversals), Fixed(steps))
      ensures ok ==> TailsListed(g, HopSearch(steps[0], row, cur), steps[1..], cur, old(Used(used)), [], false, [c], rows, tails)
      decreases |steps|, 1, 0, 7
    {
      var s, rest := steps[0], steps[1..];
      ghost var u := Used(used);
      var seen := RelUsed(used, c.rel);
      if seen || !s.Accepts(row, c.To()) {
        SkipCandidate(g, HopSearch(s, row, cur), rest, cur, u, c);
        return true, [], [];
      }
      RelVarsStayFree(steps, row, c.To(), [c]);
      ghost var was := used.View();
      var next := PushRel(used, c.rel);
      ghost var all := next.View();
      tails := [];
      ghost var sub;
      ok, rows, sub := EnumerateSteps(c.To(), rest, s.Bind(row, c.To(), [c]), next);
      if next.data == used.data { StillHeld(used, next, was, all); }
      if ok {
        tails := HopTails(g, s, rest, row, cur, u, c, if Tracked(used) then u + {c.rel} else {}, rows, sub);
      }
    }

    method EnumerateVarLen(cur: Node, steps: seq<Step>, row: Row, used: RelPath)
      returns (ok: bool, rows: seq<Row>, ghost ms: seq<Match>)
      requires steps != [] && steps[0].range.Some?
      requires Valid() && used.Valid() && RelVarsFree(steps, row)
      modifies this`rowTraversals, this`totalTraversals, this`incoming, used.data
      ensures Valid() && used.View() == old(used.View())
      ensures Charged(!ok, old(rowTraversals), old(totalTraversals), false)
      ensures ok ==> Enumerated(g, steps, row, cur, old(Used(used)), rows, ms)
      decreases |steps|, 1, 0, 8
    {
      var vs := HopSearch(steps[0], row, cur);
      var path := EnsureRelPath(used);
      assert Used(path) == Used(used);
      var data := new Crossing[0];
      var hops := Slice(data, 0);
      assert hops.View() == [];
      ghost var u := Used(used);
      ok, rows, ms := VarLenEnum(vs, steps, cur, 0, path, hops);
      if ok { TailsAreMatches(g, steps, row, cur, u, vs, rows, ms); }
    }

    /** The exact enumerating search. Sibling extensions share the backing arrays of used and hops;
        what each holds is read, at acceptance, before the next overwrites it. */
    method VarLenEnum(vs: Search, steps: seq<Step>, cur: Node, depth: nat, used: RelPath, hops: Slice<Crossing>)
      returns (ok: bool, rows: seq<Row>, ghost ms: seq<Match>)
      requires steps != [] && vs.s == steps[0] && RelVarsFree(steps, vs.row)
      requires Valid() && used.Valid() && Tracked(used) && hops.Valid() && depth == hops.len <= vs.hi
      modifies this`rowTraversals, this`totalTraversals, this`incoming, used.data, hops.data
      ensures Valid() && used.View() == old(used.View()) && hops.View() == old(hops.View())
      ensures Charged(!ok, old(rowTraversals), old(totalTraversals), false)
      ensures ok ==> AllTails(g, vs, steps[1..], cur, old(Used(used)), old(hops.View()), rows, ms)
      decreases |steps|, 0, |g.Rels() - Used(used)|, 2
    {
      hide Exact, TailsListed, AllTails, RelVarsFree;
      ghost var u, p := Used(used), hops.View();
      ok, rows, ms := StopIfAccepted(vs, steps, cur, depth, used, hops);
      if !ok { return; }
      if depth >= vs.hi {
        AllTried(g, vs, steps[1..], cur, u, p, [], rows, ms);
        return;
      }
      assert Used(used) == u;
      var fine, cands := VarLenCandidates(cur, vs.s, vs.dir, used);
      if !fine { return false, [], []; }
      for i := 0 to |cands|
        invariant Charged(false, old(rowTraversals), old(totalTraversals), false)
        invariant Valid() && used.View() == old(used.View()) && hops.View() == p
        invariant TailsListed(g, vs, steps[1..], cur, u, p, true, cands[..i], rows, ms)
      {
        var c := cands[i];
        assert c in cands && cands[..i + 1] == cands[..i] + [c];
        FewerLeft(g, u, c.rel);
        var good, more, tails := ExtendHops(vs, steps, cur, depth, used, hops, c);
        if !good { return false, [], []; }
        AddCandidate(g, vs, steps[1..], cur, u, p, cands[..i], rows, ms, c, more, tails);
        rows, ms := rows + more, ms + tails;
      }
      assert cands[..|cands|] == cands;
      AllTried(g, vs, steps[1..], cur, u, p, cands, rows, ms);
      ok := true;
    }

    method StopIfAccepted(vs: Search, steps: seq<Step>, cur: Node, depth: nat, used: RelPath, hops: Slice<Crossing>)
      returns (ok: bool, rows: seq<Row>, ghost ms: seq<Match>)
      requires steps != [] && vs.s == steps[0] && RelVarsFree(steps, vs.row)
      requires Valid() && used.Valid() && Tracked(used) && hops.Valid() && depth == hops.len <= vs.hi
      modifies this`rowTraversals, this`totalTraversals, this`incoming, used.data
      ensures Valid() && used.View() == old(used.View()) && hops.View() == old(hops.View())
      ensures Charged(!ok, old(rowTraversals), old(totalTraversals), false)
      ensures ok ==> TailsListed(g, vs, steps[1..], cur, old(Used(used)), old(hops.View()), true, [], rows, ms)
      decreases |steps|, 0, |g.Rels() - Used(used)|, 1
    {
      ghost var u, p := Used(used), hops.View();
      if depth < vs.lo || !vs.Accepts(cur) {
        NoStop(g, vs, steps[1..], cur, u, p);
        return true, [], [];
      }
      var crossed: Path := hops.data[..hops.len];
      RelVarsStayFree(steps, vs.row, cur, crossed);
      ghost var sub;
      ok, rows, sub := EnumerateSteps(cur, steps[1..], vs.s.Bind(vs.row, cur, crossed), used);
      if ok { StopHere(g, vs, steps[1..], cur, u, p, rows, sub); }
      ms := Stopped(sub);
    }

    method ExtendHops(vs: Search, steps: seq<Step>, ghost cur: Node, depth: nat, used: RelPath, hops: Slice<Crossing>, c: Crossing)
      returns (ok: bool, rows: seq<Row>, ghost tails: seq<Match>)
      requires steps != [] && vs.s == steps[0] && RelVarsFree(steps, vs.row)
      requires Valid() && used.Valid() && Tracked(used) && hops.Valid() && depth == hops.len < vs.hi
      requires CanCross(g, vs.s, vs.dir, cur, c) && c.rel !in Used(used)
      modifies this`rowTraversals, this`totalTraversals, this`incoming, used.data, hops.data
      ensures Valid() && used.View() == old(used.View()) && hops.View() == old(hops.View())
      ensures Charged(!ok, old(rowTraversals), old(totalTraversals), false)
      ensures ok ==> TailsListed(g, vs, steps[1..], cur, old(Used(used)), old(hops.View()), false, [c], rows, tails)
      decreases |steps|, 0, |g.Rels() - (Used(used) + {c.rel})|, 3
    {
      hide Exact, TailsListed, RelVarsFree;
      ghost var u, p, was := Used(used), hops.View(), used.View();
      var next := PushRel(used, c.rel);
      ghost var all := next.View();
      assert hops.View() == p;
      var longer := Append(hops, c);
      assert Used(next) == u + {c.rel};
      tails := [];
      ghost var sub;
      ok, rows, sub := VarLenEnum(vs, steps, c.To(), depth + 1, next, longer);
      if next.data == used.data { StillHeld(used, next, was, all); }
      if longer.data == hops.data { StillHeld(hops, longer, p, p + [c]); }
      if ok {
        tails := CarryOn(g, vs, steps[1..], cur, u, p, c, rows, sub);
      }
    }
  }

  /** Crossing an unused relationship leaves fewer to cross. */
  lemma FewerLeft(g: Graph, used: set<Rel>, r: Rel)
    requires g.Has(r) && r !in used
    ensures |g.Rels() - (used + {r})| == |g.Rels() - used| - 1
  {
    assert r in g.Rels() - used;
    assert g.Rels() - (used + {r}) == g.Rels() - used - {r};
  }
}
