/** The code under the build protocol: a bound hash index, the build log that catches it up, the
    commit-time resolution of node state, and the backfill scan. */
module IndexFanout {
  import opened IndexEntries

  type Node = nat
  type Id = nat

  /** A node as a snapshot reads it. */
  datatype Record = Record(live: bool, labels: set<Id>, props: map<Id, Val>)

  type Snapshot = map<Node, Record>

  function ValueIn(s: Snapshot, n: Node, prop: Id): Option<Val> {
    if n in s && s[n].live && prop in s[n].props then Some(s[n].props[prop]) else None
  }

  predicate EligibleIn(s: Snapshot, n: Node, lab: Id) { n in s && s[n].live && lab in s[n].labels }

  /** The node as one index reads it: the state its maintenance rules are resolved against. */
  function StateIn(s: Snapshot, n: Node, lab: Id, prop: Id): NodeState {
    NodeState(n in s && s[n].live, n in s && lab in s[n].labels, if n in s && prop in s[n].props then Some(s[n].props[prop]) else None)
  }

  lemma StateAgrees(s: Snapshot, n: Node, lab: Id, prop: Id)
    ensures StateIn(s, n, lab, prop).Eligible() == EligibleIn(s, n, lab)
    ensures StateIn(s, n, lab, prop).Current() == Project(ValueIn(s, n, prop))
  {
  }

  // ------------------------------------------------------------------ commit-time node state

  datatype Memo = Memo(node: Node, coord: Id, isValue: bool, ok: bool, value: Option<Val>)

  const CommitMemoSize := 8

  /** Answers about nodes as of one commit's snapshot, remembering the first few. */
  class CommitNodeState {
    var snap: Snapshot
    const memo: array<Memo>
    var memoN: nat

    constructor (snap: Snapshot)
      ensures Valid() && this.snap == snap
    {
      this.snap, memoN := snap, 0;
      memo := new Memo[CommitMemoSize];
    }

    /** Every remembered answer is what the snapshot says. */
    ghost predicate Valid()
      reads this, memo
    {
      && memo.Length == CommitMemoSize && memoN <= CommitMemoSize
      && forall i :: 0 <= i < memoN ==> Right(memo[i])
    }

    ghost predicate Right(e: Memo) reads this`snap {
      if e.isValue then e.value == ValueIn(snap, e.node, e.coord)
      else e.ok == EligibleIn(snap, e.node, e.coord)
    }

    method Reset(snap: Snapshot)
      requires Valid()
      modifies this`snap, this`memoN
      ensures Valid() && this.snap == snap
    {
      this.snap, memoN := snap, 0;
    }

    method Lookup(id: Node, coord: Id, isValue: bool) returns (hit: Option<Memo>)
      requires Valid()
      ensures hit.Some? ==> Right(hit.value) && hit.value.node == id && hit.value.coord == coord && hit.value.isValue == isValue
    {
      for i := 0 to memoN {
        if memo[i].node == id && memo[i].coord == coord && memo[i].isValue == isValue { return Some(memo[i]); }
      }
      return None;
    }

    method Remember(e: Memo)
      requires Valid() && Right(e)
      modifies this`memoN, memo
      ensures Valid() && memoN == if old(memoN) < CommitMemoSize then old(memoN) + 1 else old(memoN)
    {
      if memoN < CommitMemoSize {
        memo[memoN] := e;
        memoN := memoN + 1;
      }
    }

    method NodeValue(id: Node, prop: Id) returns (v: Option<Val>)
      requires Valid()
      modifies this`memoN, memo
      ensures Valid() && v == ValueIn(snap, id, prop)
    {
      var hit := Lookup(id, prop, true);
      if hit.Some? { return hit.value.value; }
      v := None;
      if id in snap && snap[id].live && prop in snap[id].props { v := Some(snap[id].props[prop]); }
      Remember(Memo(id, prop, true, v.Some?, v));
    }

    method NodeEligible(id: Node, lab: Id) returns (ok: bool)
      requires Valid()
      modifies this`memoN, memo
      ensures Valid() && ok == EligibleIn(snap, id, lab)
    {
      var hit := Lookup(id, lab, false);
      if hit.Some? { return hit.value.ok; }
      ok := id in snap && snap[id].live && lab in snap[id].labels;
      Remember(Memo(id, lab, false, ok, None));
    }
  }

  // ------------------------------------------------------------------ the bound index

  datatype Op = PropOp(prop: Id, c: Change) | LabelOp(lab: Id, c: Change)

  /** A change of one node, as fanned out. */
  datatype NodeChange = NodeChange(node: Node, op: Op)
  {
    predicate WellFormed() {
      match op
      case PropOp(_, c) => c.SetNodeProperty? || c.DelNodeProperty?
      case LabelOp(_, c) => c.AddNodeLabel? || c.RemoveNodeLabel?
    }

    /** Whether the change could modify an index bound to the label and property. */
    predicate Concerns(lab: Id, prop: Id) {
      match op
      case PropOp(p, _) => p == prop
      case LabelOp(l, _) => l == lab
    }
  }

  /** Every change is of a property or of a label, and of one only. */
  lemma EveryChange(n: Node, k: Id, c: Change)
    ensures NodeChange(n, PropOp(k, c)).WellFormed() <==> !NodeChange(n, LabelOp(k, c)).WellFormed()
  {
  }

  /** What is known of the node when a change is applied: its indexable value and its eligibility. */
  datatype Recorded = Recorded(value: Option<string>, eligible: bool)

  class HashIndex {
    const lab: Id
    const prop: Id
    var entries: map<string, set<Node>>

    constructor (lab: Id, prop: Id)
      ensures this.lab == lab && this.prop == prop && entries == map[]
    {
      this.lab, this.prop, entries := lab, prop, map[];
    }

    /** The values the index lists the node under. */
    ghost function KeysOf(n: Node): set<string> reads this { set k | k in entries && n in entries[k] }

    method Insert(k: string, n: Node)
      modifies this`entries
      ensures KeysOf(n) == old(KeysOf(n)) + {k}
      ensures forall m :: m != n ==> KeysOf(m) == old(KeysOf(m))
    {
      entries := entries[k := (if k in entries then entries[k] else {}) + {n}];
    }

    method Delete(k: string, n: Node)
      modifies this`entries
      ensures KeysOf(n) == old(KeysOf(n)) - {k}
      ensures forall m :: m != n ==> KeysOf(m) == old(KeysOf(m))
    {
      if k !in entries { return; }
      var rest := entries[k] - {n};
      assert forall m :: m in entries[k] && m != n ==> m in rest;
      if rest == {} {
        entries := entries - {k};
      } else {
        entries := entries[k := rest];
      }
    }

    /** The maintenance rules, shared by the live fan-out and by the replay of a build log: what they
        read of the node is given, so they produce the same effects in both. */
    method ApplyBound(c: NodeChange, rec: Recorded)
      requires c.WellFormed()
      modifies this`entries
      ensures forall m :: m != c.node || !c.Concerns(lab, prop) ==> KeysOf(m) == old(KeysOf(m))
      ensures c.Concerns(lab, prop) ==> forall s: NodeState ::
                s.Eligible() == rec.eligible && s.Current() == rec.value ==> KeysOf(c.node) == Apply(c.op.c, s, old(KeysOf(c.node)))
    {
      match c.op
      case PropOp(p, SetNodeProperty(before, after)) =>
        if p != prop { return; }
        if Project(before).Some? { Delete(Project(before).value, c.node); }
        if Project(Some(after)).Some? && rec.eligible { Insert(Project(Some(after)).value, c.node); }
      case PropOp(p, DelNodeProperty(before)) =>
        if p != prop { return; }
        if Project(before).Some? { Delete(Project(before).value, c.node); }
      case LabelOp(l, AddNodeLabel) =>
        if l != lab { return; }
        if rec.value.Some? && rec.eligible { Insert(rec.value.value, c.node); }
      case LabelOp(l, RemoveNodeLabel) =>
        if l != lab { return; }
        if rec.value.Some? { Delete(rec.value.value, c.node); }
    }
  }

  /** Resolves a change against a commit's state, as the index under it would: a label change reads the
      value, a property set or a label add the eligibility. */
  method Resolve(st: CommitNodeState, c: NodeChange, lab: Id, prop: Id) returns (rec: Recorded)
    requires st.Valid()
    modifies st`memoN, st.memo
    ensures st.Valid()
    ensures rec == Recorded(StateIn(st.snap, c.node, lab, prop).Current(), StateIn(st.snap, c.node, lab, prop).Eligible())
  {
    StateAgrees(st.snap, c.node, lab, prop);
    var v := st.NodeValue(c.node, prop);
    var e := st.NodeEligible(c.node, lab);
    rec := Recorded(Project(v), e);
  }

  // ------------------------------------------------------------------ the build log

  const MaxBuildLogChanges := 131072

  /** The changes fanned out during a build, each beside the answers captured as it was. A log that has
      overflowed is no longer a complete account, and stays so. */
  class BuildLog {
    var changes: seq<(NodeChange, Recorded)>
    var overflowed: bool

    constructor ()
      ensures changes == [] && !overflowed
    {
      changes, overflowed := [], false;
    }

    method Append(c: NodeChange, rec: Recorded)
      requires |changes| <= MaxBuildLogChanges
      modifies this
      ensures |changes| <= MaxBuildLogChanges
      ensures overflowed <==> old(overflowed) || |old(changes)| == MaxBuildLogChanges
      ensures !overflowed ==> changes == old(changes) + [(c, rec)]
    {
      if overflowed { return; }
      if |changes| >= MaxBuildLogChanges {
        overflowed, changes := true, [];
        return;
      }
      changes := changes + [(c, rec)];
    }
  }

  /** What the recorded changes make of the node's entries, applied in order with what was recorded. */
  function ReplayOn(changes: seq<(NodeChange, Recorded)>, lab: Id, prop: Id, n: Node, x: set<string>): set<string> {
    if changes == [] then x
    else
      var (c, rec) := changes[|changes| - 1];
      var y := ReplayOn(changes[..|changes| - 1], lab, prop, n, x);
      if c.node == n && c.Concerns(lab, prop) then Apply(c.op.c, NodeState(true, rec.eligible, AsProp(rec.value)), y) else y
  }

  function AsProp(v: Option<string>): Option<Val> { if v.Some? then Some(Str(v.value)) else None }

  /** Replays the recording into a freshly built index, before it is reachable; refuses an incomplete one. */
  method FinishBuild(l: BuildLog, idx: HashIndex) returns (registered: bool)
    requires forall i :: 0 <= i < |l.changes| ==> l.changes[i].0.WellFormed()
    modifies idx`entries
    ensures registered == !l.overflowed
    ensures !registered ==> forall n :: idx.KeysOf(n) == old(idx.KeysOf(n))
    ensures registered ==> forall n :: idx.KeysOf(n) == ReplayOn(l.changes, idx.lab, idx.prop, n, old(idx.KeysOf(n)))
  {
    if l.overflowed { return false; }
    var changes := l.changes;
    for i := 0 to |changes|
      invariant forall n :: idx.KeysOf(n) == ReplayOn(changes[..i], idx.lab, idx.prop, n, old(idx.KeysOf(n)))
    {
      assert changes[..i + 1][..i] == changes[..i];
      var (c, rec) := changes[i];
      assert NodeState(true, rec.eligible, AsProp(rec.value)).Current() == rec.value;
      idx.ApplyBound(c, rec);
    }
    assert changes[..|changes|] == changes;
    return true;
  }

  // ------------------------------------------------------------------ the backfill

  /** What the scan reads: for each interned node in turn, whether the view indexes it, and its value. */
  function SeedOf(s: Snapshot, refs: seq<Node>, lab: Id, prop: Id): seq<Val> {
    if refs == [] then []
    else
      var n, rest := refs[|refs| - 1], SeedOf(s, refs[..|refs| - 1], lab, prop);
      if EligibleIn(s, n, lab) && ValueIn(s, n, prop).Some? then rest + [ValueIn(s, n, prop).value] else rest
  }

  /** The entries a scan of the nodes must find for n. */
  function Found(s: Snapshot, refs: seq<Node>, n: Node, lab: Id, prop: Id): set<string> {
    if n in refs then Entries(StateIn(s, n, lab, prop)) else {}
  }

  lemma {:induction false} SeedAppend(s: Snapshot, a: seq<Node>, b: seq<Node>, lab: Id, prop: Id)
    ensures SeedOf(s, a + b, lab, prop) == SeedOf(s, a, lab, prop) + SeedOf(s, b, lab, prop)
  {
    if b == [] {
      assert a + b == a;
    } else {
      assert (a + b)[..|a + b| - 1] == a + b[..|b| - 1];
      SeedAppend(s, a, b[..|b| - 1], lab, prop);
    }
  }

  lemma EmptyRange(s: Snapshot, lab: Id, prop: Id)
    ensures SeedOf(s, [], lab, prop) == [] && forall m :: Found(s, [], m, lab, prop) == {}
  {
  }

  /** One more node of the range. */
  lemma RangeNext(s: Snapshot, refs: seq<Node>, lo: nat, i: nat, lab: Id, prop: Id)
    requires lo <= i < |refs|
    ensures var n := refs[i];
      && SeedOf(s, refs[lo..i + 1], lab, prop) == SeedOf(s, refs[lo..i], lab, prop) +
           (if EligibleIn(s, n, lab) && ValueIn(s, n, prop).Some? then [ValueIn(s, n, prop).value] else [])
      && forall m :: Found(s, refs[lo..i + 1], m, lab, prop) ==
           Found(s, refs[lo..i], m, lab, prop) + if m == n then Entries(StateIn(s, n, lab, prop)) else {}
  {
    assert refs[lo..i + 1] == refs[lo..i] + [refs[i]];
    assert refs[lo..i + 1][..i - lo] == refs[lo..i];
  }

  /** Indexes the nodes of one range as of the snapshot, and collects every value read, indexable or not. */
  method ProcessRange(s: Snapshot, refs: seq<Node>, lo: nat, hi: nat, idx: HashIndex) returns (seed: seq<Val>)
    requires lo <= hi <= |refs|
    modifies idx`entries
    ensures seed == SeedOf(s, refs[lo..hi], idx.lab, idx.prop)
    ensures forall n :: idx.KeysOf(n) == old(idx.KeysOf(n)) + Found(s, refs[lo..hi], n, idx.lab, idx.prop)
  {
    hide SeedOf, Found, HashIndex.KeysOf;
    seed := [];
    assert refs[lo..lo] == [];
    EmptyRange(s, idx.lab, idx.prop);
    for i := lo to hi
      invariant seed == SeedOf(s, refs[lo..i], idx.lab, idx.prop)
      invariant forall n :: idx.KeysOf(n) == old(idx.KeysOf(n)) + Found(s, refs[lo..i], n, idx.lab, idx.prop)
    {
      var n := refs[i];
      RangeNext(s, refs, lo, i, idx.lab, idx.prop);
      if n !in s || !s[n].live || idx.lab !in s[n].labels || idx.prop !in s[n].props { continue; }
      var v := s[n].props[idx.prop];
      seed := seed + [v];
      if Project(Some(v)).Some? { idx.Insert(Project(Some(v)).value, n); }
    }
  }

  const BackfillParallelMinNodes := 8192

  /** The scan, whole or cut into one consecutive range per worker: both leave the same index and collect
      the same values in the same order. */
  method Backfill(s: Snapshot, refs: seq<Node>, idx: HashIndex, procs: nat, parallel: bool) returns (seed: seq<Val>)
    modifies idx`entries
    ensures seed == SeedOf(s, refs, idx.lab, idx.prop)
    ensures forall n :: idx.KeysOf(n) == old(idx.KeysOf(n)) + Found(s, refs, n, idx.lab, idx.prop)
  {
    if !parallel || |refs| < BackfillParallelMinNodes || procs <= 1 {
      assert refs[0..|refs|] == refs;
      seed := ProcessRange(s, refs, 0, |refs|, idx);
      return;
    }
    var workers := if procs > |refs| then |refs| else procs;
    var chunk := (|refs| + workers - 1) / workers;
    ChunksCover(|refs|, workers, chunk);
    seed := [];
    for w := 0 to workers
      invariant seed == SeedOf(s, refs[..Cut(w, chunk, |refs|)], idx.lab, idx.prop)
      invariant forall n :: idx.KeysOf(n) == old(idx.KeysOf(n)) + Found(s, refs[..Cut(w, chunk, |refs|)], n, idx.lab, idx.prop)
    {
      var lo, hi := Cut(w, chunk, |refs|), Cut(w + 1, chunk, |refs|);
      CutsGrow(w, chunk, |refs|);
      var part := ProcessRange(s, refs, lo, hi, idx);
      SeedAppend(s, refs[..lo], refs[lo..hi], idx.lab, idx.prop);
      assert refs[..hi] == refs[..lo] + refs[lo..hi];
      seed := seed + part;
    }
    assert refs[..|refs|] == refs;
  }

  /** Where worker w's range starts. */
  function Cut(w: nat, chunk: nat, n: nat): (c: nat)
    ensures c <= n
  {
    if w * chunk < n then w * chunk else n
  }

  lemma CutsGrow(w: nat, chunk: nat, n: nat)
    ensures Cut(w, chunk, n) <= Cut(w + 1, chunk, n)
  {
    assert (w + 1) * chunk == w * chunk + chunk;
  }

  lemma ChunksCover(n: nat, workers: nat, chunk: nat)
    requires 0 < workers && chunk == (n + workers - 1) / workers
    ensures Cut(0, chunk, n) == 0 && Cut(workers, chunk, n) == n
  {
    var q, r := (n + workers - 1) / workers, (n + workers - 1) % workers;
    assert workers * q + r == n + workers - 1 && r <= workers - 1;
  }

  // ------------------------------------------------------------------ the shards a delivery locks

  const CommitApplyShards := 64

  function ShardOf(n: Node): nat { n * 0x9E3779B97F4A7C15 % 0x1_0000_0000_0000_0000 / 0x400_0000_0000_0000 }

  /** Every shard of a node the changes name, but for the nodes no other transaction can name. */
  method ShardsOf(pending: seq<NodeChange>, private: set<Node>) returns (shards: set<nat>)
    ensures forall k :: k in shards <==> exists i :: 0 <= i < |pending| && pending[i].node !in private && ShardOf(pending[i].node) == k
    ensures forall k :: k in shards ==> k < CommitApplyShards
  {
    shards := {};
    var last, lastPrivate, have := 0, false, false;
    for i := 0 to |pending|
      invariant have ==> (lastPrivate <==> last in private)
      invariant forall k :: k in shards <==> exists j :: 0 <= j < i && pending[j].node !in private && ShardOf(pending[j].node) == k
    {
      var n := pending[i].node;
      if !have || n != last { last, lastPrivate, have := n, n in private, true; }
      if !lastPrivate { shards := shards + {ShardOf(n)}; }
    }
    forall k | k in shards ensures k < CommitApplyShards { }
  }
}
