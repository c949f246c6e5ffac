/** Ordered, typed outgoing runs: the columns a live traversal serves and the columns the
    whole-graph build would give the same source, with the proof that filtering an ordered,
    typed run by liveness is the same as ordering and typing the filtered slots. */
module LiveRuns {

  type NodeId = nat
  type TypeCode = nat

  /** One adjacency slot; `types` is what the shared type resolver answers for it, in order. */
  datatype Slot = Slot(dst: NodeId, handle: nat, types: seq<TypeCode>)

  /** A node's outgoing entry. Without a handle column every slot reads handle 0. */
  datatype Entry = Entry(slots: seq<Slot>, handleCol: bool)

  const NoEntry := Entry([], false)

  /** The aligned columns of one run. `extra` holds, by position, the further codes of a slot
      that carries more than one type. */
  datatype Columns = Columns(dsts: seq<NodeId>, handles: seq<nat>, codes: seq<TypeCode>,
                             extra: map<nat, seq<TypeCode>>, handleCol: bool)
  {
    predicate Aligned() {
      && |codes| == |dsts|
      && |handles| == (if handleCol then |dsts| else 0)
      && forall i :: i in extra ==> i < |dsts|
    }
  }

  type Run = r: Columns | r.Aligned() witness EmptyRun

  const EmptyRun := Columns([], [], [], map[], false)

  // ------------------------------------------------------------------ type codes

  function FirstCode(types: seq<TypeCode>): TypeCode { if types == [] then 0 else types[0] }

  /** The codes after the first, each once, in order of first appearance. */
  function RestCodes(types: seq<TypeCode>): (r: seq<TypeCode>)
    ensures forall c :: c in r <==> c in types && c != FirstCode(types)
    ensures forall i, j :: 0 <= i < j < |r| ==> r[i] != r[j]
  {
    if |types| <= 1 then []
    else
      var c := types[|types| - 1];
      var before := RestCodes(types[..|types| - 1]);
      assert types == types[..|types| - 1] + [c];
      if c == types[0] || c in before then before else before + [c]
  }

  // ------------------------------------------------------------------ order

  predicate KeyLeq(a: Slot, b: Slot) { a.dst < b.dst || (a.dst == b.dst && a.handle <= b.handle) }

  ghost predicate Ordered(s: seq<Slot>) {
    forall i, j :: 0 <= i < j < |s| ==> KeyLeq(s[i], s[j])
  }

  /** Inserts x after every slot that does not come after it, which keeps the order stable. */
  function InsertSlot(s: seq<Slot>, x: Slot): (r: seq<Slot>)
    ensures |r| == |s| + 1
  {
    if s == [] then [x]
    else if KeyLeq(s[|s| - 1], x) then s + [x]
    else InsertSlot(s[..|s| - 1], x) + [s[|s| - 1]]
  }

  lemma {:induction false} InsertAdds(s: seq<Slot>, x: Slot)
    ensures multiset(InsertSlot(s, x)) == multiset(s) + multiset{x}
  {
    if s != [] && !KeyLeq(s[|s| - 1], x) {
      assert s == s[..|s| - 1] + [s[|s| - 1]];
      InsertAdds(s[..|s| - 1], x);
    }
  }

  /** The run order: stable, by (destination, handle). */
  function OrderRun(s: seq<Slot>): (r: seq<Slot>)
    ensures multiset(r) == multiset(s) && |r| == |s|
  {
    if s == [] then []
    else
      assert s == s[..|s| - 1] + [s[|s| - 1]];
      InsertAdds(OrderRun(s[..|s| - 1]), s[|s| - 1]);
      InsertSlot(OrderRun(s[..|s| - 1]), s[|s| - 1])
  }

  lemma {:induction false} InsertKeepsOrder(s: seq<Slot>, x: Slot)
    requires Ordered(s)
    ensures Ordered(InsertSlot(s, x))
  {
    if s != [] && !KeyLeq(s[|s| - 1], x) {
      var front, last := s[..|s| - 1], s[|s| - 1];
      InsertKeepsOrder(front, x);
      var r := InsertSlot(front, x);
      forall y | y in r ensures KeyLeq(y, last) {
        assert y in multiset(r);
        InsertAdds(front, x);
        if y != x { assert y in front; }
      }
    }
  }

  lemma {:induction false} OrderRunOrdered(s: seq<Slot>)
    ensures Ordered(OrderRun(s))
  {
    if s != [] {
      OrderRunOrdered(s[..|s| - 1]);
      InsertKeepsOrder(OrderRun(s[..|s| - 1]), s[|s| - 1]);
    }
  }

  // ------------------------------------------------------------------ liveness filter

  function LiveSlots(s: seq<Slot>, live: set<NodeId>): (r: seq<Slot>)
    ensures |r| <= |s|
    ensures forall x :: x in r ==> x in s && x.dst in live
  {
    if s == [] then []
    else
      var front := LiveSlots(s[..|s| - 1], live);
      if s[|s| - 1].dst in live then front + [s[|s| - 1]] else front
  }

  lemma {:induction false} LiveSlotsAppend(s: seq<Slot>, x: Slot, live: set<NodeId>)
    ensures LiveSlots(s + [x], live) == if x.dst in live then LiveSlots(s, live) + [x] else LiveSlots(s, live)
  {
    assert (s + [x])[..|s|] == s;
  }

  lemma {:induction false} FilterInsert(s: seq<Slot>, x: Slot, live: set<NodeId>)
    requires Ordered(s)
    ensures LiveSlots(InsertSlot(s, x), live)
         == if x.dst in live then InsertSlot(LiveSlots(s, live), x) else LiveSlots(s, live)
  {
    if s == [] {
      assert LiveSlots([x][..0], live) == [];
    } else if KeyLeq(s[|s| - 1], x) {
      LiveSlotsAppend(s, x, live);
      var f := LiveSlots(s, live);
      if f != [] {
        assert f[|f| - 1] in s;
        var i :| 0 <= i < |s| && s[i] == f[|f| - 1];
        assert KeyLeq(f[|f| - 1], x);
      }
    } else {
      var front, last := s[..|s| - 1], s[|s| - 1];
      FilterInsert(front, x, live);
      LiveSlotsAppend(InsertSlot(front, x), last, live);
      if last.dst in live && x.dst in live {
        var f := LiveSlots(front, live) + [last];
        assert f[..|f| - 1] == LiveSlots(front, live);
      } else if x.dst in live {
        // last is dropped: nothing after x survives in the filtered run beyond front's slots.
        assert LiveSlots(s, live) == LiveSlots(front, live);
      }
    }
  }

  /** Ordering then filtering is filtering then ordering. */
  lemma {:induction false} FilterOrderCommute(s: seq<Slot>, live: set<NodeId>)
    ensures LiveSlots(OrderRun(s), live) == OrderRun(LiveSlots(s, live))
  {
    if s != [] {
      var front, last := s[..|s| - 1], s[|s| - 1];
      FilterOrderCommute(front, live);
      OrderRunOrdered(front);
      FilterInsert(OrderRun(front), last, live);
      if last.dst in live {
        var f := LiveSlots(front, live) + [last];
        assert f[..|f| - 1] == LiveSlots(front, live);
      }
    }
  }

  // ------------------------------------------------------------------ columns

  /** The columns of a run of slots. An untyped resolution leaves every code 0. */
  function RunOf(s: seq<Slot>, handleCol: bool, typed: bool): (r: Run)
    ensures |r.dsts| == |s| && r.handleCol == handleCol
  {
    Columns(seq(|s|, i requires 0 <= i < |s| => s[i].dst),
        if handleCol then seq(|s|, i requires 0 <= i < |s| => s[i].handle) else [],
        seq(|s|, i requires 0 <= i < |s| => if typed then FirstCode(s[i].types) else 0),
        ExtraCodes(s, typed),
        handleCol)
  }

  predicate MultiTyped(x: Slot) { RestCodes(x.types) != [] }

  function ExtraCodes(s: seq<Slot>, typed: bool): map<nat, seq<TypeCode>> {
    map i: nat | typed && i < |s| && MultiTyped(s[i]) :: RestCodes(s[i].types)
  }

  /** A node's whole outgoing run: ordered and typed, not filtered by liveness. */
  function Resolve(e: Entry, typed: bool): Run { RunOf(OrderRun(e.slots), e.handleCol, typed) }

  /** The run the whole-graph build gives a source: it filters every arc by the liveness of both
      endpoints first, then orders and types what is left. */
  function Built(e: Entry, srcLive: bool, live: set<NodeId>, typed: bool): Run {
    if srcLive then RunOf(OrderRun(LiveSlots(e.slots, live)), e.handleCol, typed) else EmptyRun
  }

  /** The columns a traversal that asks for no type reads. */
  predicate SameArcs(a: Columns, b: Columns) {
    a.dsts == b.dsts && a.handles == b.handles && a.handleCol == b.handleCol
  }

  /** The positions, in order, of the slots whose destination is live. */
  function Kept(dsts: seq<NodeId>, live: set<NodeId>): (r: seq<nat>)
    ensures |r| <= |dsts|
    ensures forall k :: 0 <= k < |r| ==> r[k] < |dsts| && k <= r[k]
  {
    if dsts == [] then []
    else
      var front := Kept(dsts[..|dsts| - 1], live);
      if dsts[|dsts| - 1] in live then front + [|dsts| - 1] else front
  }

  /** Compaction of every aligned column to the live positions, re-keying `extra`. */
  function Compact(r: Run, live: set<NodeId>): Run {
    var kept := Kept(r.dsts, live);
    Columns(seq(|kept|, k requires 0 <= k < |kept| => r.dsts[kept[k]]),
        if r.handleCol then seq(|kept|, k requires 0 <= k < |kept| => r.handles[kept[k]]) else [],
        seq(|kept|, k requires 0 <= k < |kept| => r.codes[kept[k]]),
        Rekeyed(r.extra, kept),
        r.handleCol)
  }

  /** The multi-type map keyed by the positions the kept slots move to. */
  function Rekeyed(extra: map<nat, seq<TypeCode>>, kept: seq<nat>): (r: map<nat, seq<TypeCode>>)
    ensures forall k :: k in r ==> k < |kept|
  {
    if kept == [] then map[]
    else
      var k := |kept| - 1;
      if kept[k] in extra then Rekeyed(extra, kept[..k])[k := extra[kept[k]]] else Rekeyed(extra, kept[..k])
  }

  lemma {:induction false} RekeyedAt(extra: map<nat, seq<TypeCode>>, kept: seq<nat>, k: nat)
    requires k < |kept|
    ensures var r := Rekeyed(extra, kept);
            (k in r <==> kept[k] in extra) && (k in r ==> r[k] == extra[kept[k]])
  {
    if k < |kept| - 1 { RekeyedAt(extra, kept[..|kept| - 1], k); }
  }

  lemma {:induction false} KeptSlots(s: seq<Slot>, dsts: seq<NodeId>, live: set<NodeId>)
    requires |dsts| == |s| && forall i :: 0 <= i < |s| ==> dsts[i] == s[i].dst
    ensures var kept, f := Kept(dsts, live), LiveSlots(s, live);
            |kept| == |f| && forall k :: 0 <= k < |kept| ==> s[kept[k]] == f[k]
  {
    if s != [] {
      KeptSlots(s[..|s| - 1], dsts[..|s| - 1], live);
    }
  }

  /** Compacting a resolved run gives exactly the columns of the live slots. */
  lemma CompactColumns(s: seq<Slot>, handleCol: bool, typed: bool, live: set<NodeId>)
    ensures Compact(RunOf(s, handleCol, typed), live) == RunOf(LiveSlots(s, live), handleCol, typed)
  {
    var r := RunOf(s, handleCol, typed);
    KeptSlots(s, r.dsts, live);
    var kept, f := Kept(r.dsts, live), LiveSlots(s, live);
    CompactExtra(s, typed, kept, f);
    var a, b := Compact(r, live), RunOf(f, handleCol, typed);
    assert a.dsts == b.dsts;
    assert a.handles == b.handles;
    assert a.codes == b.codes;
  }

  lemma CompactExtra(s: seq<Slot>, typed: bool, kept: seq<nat>, f: seq<Slot>)
    requires |kept| == |f|
    requires forall k :: 0 <= k < |kept| ==> kept[k] < |s| && s[kept[k]] == f[k]
    ensures Rekeyed(ExtraCodes(s, typed), kept) == ExtraCodes(f, typed)
  {
    var a, b := Rekeyed(ExtraCodes(s, typed), kept), ExtraCodes(f, typed);
    forall k: nat | k < |kept| ensures k in a <==> k in b ensures k in a ==> a[k] == b[k] {
      RekeyedAt(ExtraCodes(s, typed), kept, k);
    }
  }

  /** Resolving first and filtering the result afterwards is what the whole-graph build gives. */
  lemma ResolveThenFilter(e: Entry, typed: bool, live: set<NodeId>)
    ensures Compact(Resolve(e, typed), live) == Built(e, true, live, typed)
  {
    CompactColumns(OrderRun(e.slots), e.handleCol, typed, live);
    FilterOrderCommute(e.slots, live);
  }

  /** A typed capture serves an untyped traversal the arcs the untyped build would. */
  lemma TypedCaptureSameArcs(e: Entry, live: set<NodeId>)
    ensures SameArcs(Compact(Resolve(e, true), live), Built(e, true, live, false))
  {
    ResolveThenFilter(e, true, live);
    var f := OrderRun(LiveSlots(e.slots, live));
    assert RunOf(f, e.handleCol, true).dsts == RunOf(f, e.handleCol, false).dsts;
  }

  // ------------------------------------------------------------------ what a run shows of an entry

  /** The list holds every type but the first, each once, in the order the slot first names them. */
  ghost predicate ListsFurther(list: seq<TypeCode>, types: seq<TypeCode>) {
    && (forall c :: c in list <==> c in types && c != types[0])
    && (forall a, b :: 0 <= a < b < |list| ==> NamedBefore(types, list[a], list[b]))
  }

  ghost predicate NamedBefore(types: seq<TypeCode>, c: TypeCode, d: TypeCode) {
    exists i :: 0 <= i < |types| && types[i] == c && d !in types[..i + 1]
  }

  /** Position k of the run is the slot x, in every column a traversal reads. */
  ghost predicate PositionShows(r: Columns, k: nat, x: Slot, handleCol: bool, typed: bool)
    requires k < |r.dsts| == |r.codes| && (handleCol ==> |r.handles| == |r.dsts|)
  {
    && r.dsts[k] == x.dst
    && (handleCol ==> r.handles[k] == x.handle)
    && (typed ==> r.codes[k] == if x.types == [] then 0 else x.types[0])
    && (typed ==> ListsFurther(if k in r.extra then r.extra[k] else [], x.types))
    && (typed && k in r.extra ==> r.extra[k] != [])
  }

  predicate ComesBefore(s: seq<Slot>, i: nat, j: nat)
    requires i < |s| && j < |s|
  {
    || s[i].dst < s[j].dst
    || (s[i].dst == s[j].dst && s[i].handle < s[j].handle)
    || (s[i].dst == s[j].dst && s[i].handle == s[j].handle && i < j)
  }

  /** The run is the entry's slots with a live destination, one position each: position k shows the
      slot at from[k], and positions ascend by destination, then by handle, then as written. */
  ghost predicate Shows(r: Columns, e: Entry, live: set<NodeId>, typed: bool, from: seq<nat>) {
    && |from| == |r.dsts| == |r.codes|
    && r.handleCol == e.handleCol
    && |r.handles| == (if e.handleCol then |from| else 0)
    && (typed ==> forall k :: k in r.extra ==> k < |from|)
    && (forall k :: 0 <= k < |from| ==> from[k] < |e.slots|)
    && (forall i :: 0 <= i < |e.slots| ==> (i in from <==> e.slots[i].dst in live))
    && (forall k :: 0 <= k < |from| ==> PositionShows(r, k, e.slots[from[k]], e.handleCol, typed))
    && (forall j, k :: 0 <= j < k < |from| ==> ComesBefore(e.slots, from[j], from[k]))
  }

  lemma {:induction false} RestCodesListed(types: seq<TypeCode>)
    ensures ListsFurther(RestCodes(types), types)
  {
    if |types| > 1 {
      var front, c := types[..|types| - 1], types[|types| - 1];
      RestCodesListed(front);
      var before, list := RestCodes(front), RestCodes(types);
      forall a, b | 0 <= a < b < |list| ensures NamedBefore(types, list[a], list[b]) {
        if b < |before| {
          assert NamedBefore(front, before[a], before[b]);
          var i :| 0 <= i < |front| && front[i] == before[a] && before[b] !in front[..i + 1];
          assert types[..i + 1] == front[..i + 1];
        } else {
          assert list[a] in front;
          var i :| 0 <= i < |front| && front[i] == list[a];
          assert types[..i + 1] == front[..i + 1];
          assert c !in front;
        }
      }
    }
  }

  lemma {:induction false} InsertAt(s: seq<Slot>, x: Slot) returns (m: nat)
    requires Ordered(s)
    ensures m <= |s| && InsertSlot(s, x) == s[..m] + [x] + s[m..]
    ensures forall j :: 0 <= j < |s| ==> (j < m <==> KeyLeq(s[j], x))
  {
    if s == [] || KeyLeq(s[|s| - 1], x) {
      m := |s|;
    } else {
      var front := s[..|s| - 1];
      m := InsertAt(front, x);
      assert s[..m] + [x] + s[m..] == front[..m] + [x] + front[m..] + [s[|s| - 1]];
    }
  }

  /** Where each position of an ordered run comes from. */
  ghost predicate Places(s: seq<Slot>, r: seq<Slot>, from: seq<nat>) {
    && |from| == |s| == |r|
    && (forall k :: 0 <= k < |from| ==> from[k] < |s| && r[k] == s[from[k]])
    && (forall i :: 0 <= i < |s| ==> i in from)
    && (forall j, k :: 0 <= j < k < |from| ==> ComesBefore(s, from[j], from[k]))
  }

  lemma {:induction false} OrderRunPlaces(s: seq<Slot>) returns (from: seq<nat>)
    ensures Places(s, OrderRun(s), from)
  {
    if s == [] {
      from := [];
    } else {
      var front, x := s[..|s| - 1], s[|s| - 1];
      var was := OrderRunPlaces(front);
      OrderRunOrdered(front);
      var r := OrderRun(front);
      var m := InsertAt(r, x);
      from := was[..m] + [|front|] + was[m..];
      PlacesInsert(s, r, was, m);
    }
  }

  lemma PlacesInsert(s: seq<Slot>, r: seq<Slot>, was: seq<nat>, m: nat)
    requires s != [] && Places(s[..|s| - 1], r, was) && m <= |was|
    requires forall j :: 0 <= j < |r| ==> (j < m <==> KeyLeq(r[j], s[|s| - 1]))
    ensures Places(s, r[..m] + [s[|s| - 1]] + r[m..], was[..m] + [|s| - 1] + was[m..])
  {
    hide ComesBefore, KeyLeq;
    var n := |s| - 1;
    var from := was[..m] + [n] + was[m..];
    InsertCovers(was, n, m);
    forall j, k | 0 <= j < k < |from| ensures ComesBefore(s, from[j], from[k]) {
      InsertOrders(s, r, was, m, if j < m then j else j - 1, if k < m then k else k - 1);
    }
  }

  lemma InsertOrders(s: seq<Slot>, r: seq<Slot>, was: seq<nat>, m: nat, j: int, k: int)
    requires s != [] && Places(s[..|s| - 1], r, was) && m <= |was|
    requires forall j :: 0 <= j < |r| ==> (j < m <==> KeyLeq(r[j], s[|s| - 1]))
    ensures 0 <= j < k < |was| ==> ComesBefore(s, was[j], was[k])
    ensures 0 <= j < m ==> ComesBefore(s, was[j], |s| - 1)
    ensures m <= k < |was| ==> ComesBefore(s, |s| - 1, was[k])
  {
    if 0 <= j < k < |was| { assert ComesBefore(s[..|s| - 1], was[j], was[k]); }
  }

  lemma InsertCovers(was: seq<nat>, n: nat, m: nat)
    requires m <= |was| && forall i :: 0 <= i < n ==> i in was
    ensures forall i :: 0 <= i <= n ==> i in was[..m] + [n] + was[m..]
  {
    forall i | 0 <= i < n ensures i in was[..m] + [n] + was[m..] {
      assert i in was && was == was[..m] + was[m..];
    }
  }

  lemma {:induction false} KeptAscending(dsts: seq<NodeId>, live: set<NodeId>)
    ensures var kept := Kept(dsts, live);
            && (forall i :: 0 <= i < |dsts| ==> (i in kept <==> dsts[i] in live))
            && (forall j, k :: 0 <= j < k < |kept| ==> kept[j] < kept[k])
  {
    if dsts != [] { KeptAscending(dsts[..|dsts| - 1], live); }
  }

  lemma RunPosition(s: seq<Slot>, handleCol: bool, typed: bool, k: nat)
    requires k < |s|
    ensures PositionShows(RunOf(s, handleCol, typed), k, s[k], handleCol, typed)
  {
    RestCodesListed(s[k].types);
  }

  lemma RunPositions(e: Entry, s: seq<Slot>, typed: bool, from: seq<nat>)
    requires |from| == |s| && forall k :: 0 <= k < |s| ==> from[k] < |e.slots| && s[k] == e.slots[from[k]]
    ensures var r := RunOf(s, e.handleCol, typed);
            && |from| == |r.dsts| == |r.codes| && r.handleCol == e.handleCol
            && |r.handles| == (if e.handleCol then |from| else 0)
            && (forall k :: k in r.extra ==> k < |from|)
            && forall k :: 0 <= k < |from| ==> PositionShows(r, k, e.slots[from[k]], e.handleCol, typed)
  {
    hide PositionShows, ExtraCodes;
    forall k | 0 <= k < |from|
      ensures PositionShows(RunOf(s, e.handleCol, typed), k, e.slots[from[k]], e.handleCol, typed)
    {
      RunPosition(s, e.handleCol, typed, k);
    }
  }

  /** The whole-graph build gives a live source exactly its entry's live slots, in order. */
  lemma BuiltShows(e: Entry, live: set<NodeId>, typed: bool) returns (from: seq<nat>)
    ensures Shows(Built(e, true, live, typed), e, live, typed, from)
  {
    hide OrderRun, LiveSlots, RunOf, Kept, ComesBefore, PositionShows;
    var dsts := seq(|e.slots|, i requires 0 <= i < |e.slots| => e.slots[i].dst);
    var kept, f := Kept(dsts, live), LiveSlots(e.slots, live);
    KeptSlots(e.slots, dsts, live);
    KeptAscending(dsts, live);
    var p := OrderRunPlaces(f);
    from := seq(|p|, k requires 0 <= k < |p| => kept[p[k]]);
    FromKept(e.slots, live, kept, p, from);
    RunPositions(e, OrderRun(f), typed, from);
  }

  lemma FromKept(slots: seq<Slot>, live: set<NodeId>, kept: seq<nat>, p: seq<nat>, from: seq<nat>)
    requires var f := LiveSlots(slots, live);
             && |kept| == |f| && Places(f, OrderRun(f), p)
             && (forall k :: 0 <= k < |kept| ==> kept[k] < |slots| && slots[kept[k]] == f[k])
    requires forall i :: 0 <= i < |slots| ==> (i in kept <==> slots[i].dst in live)
    requires forall j, k :: 0 <= j < k < |kept| ==> kept[j] < kept[k]
    requires |from| == |p| && forall k :: 0 <= k < |p| ==> p[k] < |kept| && from[k] == kept[p[k]]
    ensures forall k :: 0 <= k < |from| ==> from[k] < |slots|
    ensures forall i :: 0 <= i < |slots| ==> (i in from <==> slots[i].dst in live)
    ensures forall j, k :: 0 <= j < k < |from| ==> ComesBefore(slots, from[j], from[k])
  {
    hide OrderRun, LiveSlots;
    var f := LiveSlots(slots, live);
    forall i | 0 <= i < |slots| ensures i in from <==> slots[i].dst in live {
      if i in kept {
        var m :| 0 <= m < |kept| && kept[m] == i;
        assert m in p;
        var k :| 0 <= k < |p| && p[k] == m;
        assert from[k] == i;
      }
    }
    forall j, k | 0 <= j < k < |from| ensures ComesBefore(slots, from[j], from[k]) {
      assert ComesBefore(f, p[j], p[k]);
    }
  }

  lemma SameArcsShow(a: Columns, b: Columns, e: Entry, live: set<NodeId>, from: seq<nat>)
    requires SameArcs(a, b) && a.Aligned() && b.Aligned() && Shows(b, e, live, false, from)
    ensures Shows(a, e, live, false, from)
  {
    forall k | 0 <= k < |from| ensures PositionShows(a, k, e.slots[from[k]], e.handleCol, false) {
      assert PositionShows(b, k, e.slots[from[k]], e.handleCol, false);
    }
  }
}
