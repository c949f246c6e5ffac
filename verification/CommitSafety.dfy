/** What holds in every run of the explicit transactions, whatever the interleaving: unique at every instant,
    durable before visible, recovered whole, never lost, never half undone. */
module CommitSafety {
  import opened CommitRuns

  // ------------------------------------------------------------------ the log

  predicate DurableTx(s: Sys, t: TxId) { t in s.txs && s.txs[t].phase.Durable? }

  ghost predicate DurablyTouched(s: Sys, n: Node) { exists t :: DurableTx(s, t) && Touches(s, t, n) }

  function RecordOf(s: Sys, t: TxId): Commit
    requires t in s.txs
  {
    Commit(t, WritesOf(s.store, s.txs[t]))
  }

  predicate Survives(s: Sys, t: TxId) { t in s.txs && (s.txs[t].phase.Durable? || IsKept(s.txs[t].phase)) }

  /** Recovery shows of each node what is published, or what a transaction durable and not yet published wrote. */
  ghost predicate LogShows(s: Sys, n: Node) {
    At(Recovered(s.log), n) == if DurablyTouched(s, n) then At(s.store, n) else At(Now(s), n)
  }

  ghost predicate LogInv(s: Sys, wal: bool) {
    && (forall t :: DurableTx(s, t) ==> wal && RecordOf(s, t) in s.log)
    && (wal ==> forall i :: 0 <= i < |s.slots| && s.slots[i].Done? ==> s.slots[i].c in s.log)
    && (wal ==> forall n :: LogShows(s, n))
  }

  /** What is logged is kept. */
  ghost predicate LogKept(s: Sys) { forall c :: c in s.log ==> Survives(s, c.t) }

  lemma RecoveredPush(log: seq<Commit>, c: Commit)
    ensures Recovered(log + [c]) == Overlaid(Recovered(log), c.writes)
  {
    assert (log + [c])[..|log|] == log;
  }

  /** A step that leaves the log, what is shown, and what the durable ones have written. */
  ghost predicate Steady(s: Sys, s': Sys) {
    && s'.log == s.log && Now(s') == Now(s)
    && (forall t :: DurableTx(s', t) <==> DurableTx(s, t))
    && (forall t :: DurableTx(s, t) ==> s'.txs[t].undo == s.txs[t].undo && Alike(s.store, s'.store, s.txs[t].Touched()))
    && (forall i :: 0 <= i < |s'.slots| && s'.slots[i].Done? ==> i < |s.slots| && s.slots[i] == s'.slots[i])
  }

  /** No node is two transactions' at once, nor written at a later instant than one pending that has it. */
  ghost predicate NodeInv(s: Sys) { NodesApart(s) && LaterNodes(s) }

  lemma SteadyKeeps(s: Sys, s': Sys, wal: bool)
    requires LogInv(s, wal) && Steady(s, s')
    ensures LogInv(s', wal)
  {
    hide Recovered, Now;
    forall t | DurableTx(s', t) ensures RecordOf(s', t) in s'.log { SameRecord(s, s', t); }
    forall n | wal ensures LogShows(s', n) {
      assert LogShows(s, n);
      SteadyTouched(s, s', n);
    }
  }

  lemma SameRecord(s: Sys, s': Sys, t: TxId)
    requires t in s.txs && t in s'.txs && s'.txs[t].undo == s.txs[t].undo && Alike(s.store, s'.store, s.txs[t].Touched())
    ensures RecordOf(s', t) == RecordOf(s, t)
  {
  }

  lemma SteadyTouched(s: Sys, s': Sys, n: Node)
    requires Steady(s, s')
    ensures DurablyTouched(s', n) <==> DurablyTouched(s, n)
    ensures DurablyTouched(s, n) ==> At(s'.store, n) == At(s.store, n)
  {
    hide Now;
    forall t | DurableTx(s, t) ensures Touches(s', t, n) <==> Touches(s, t, n) { assert DurableTx(s', t); }
  }

  predicate Stores(s: Sys, op: Op, n: Node) {
    (op.Set? && op.n == n) || (op.UndoOne? && op.t in s.txs && s.txs[op.t].undo != [] && Last(s.txs[op.t].undo).n == n)
  }

  lemma StoreAt(s: Sys, wal: bool, op: Op, n: Node)
    requires Enabled(s, wal, op) && !Stores(s, op, n)
    ensures At(Next(s, wal, op).store, n) == At(s.store, n)
  {
    hide Written, Unmarked, WritesOf;
  }

  /** No one writes, or undoes, what another has written and not given up. */
  lemma StoresOwn(s: Sys, wal: bool, op: Op, t: TxId, n: Node)
    requires NodesApart(s) && Enabled(s, wal, op) && Touches(s, t, n) && Stores(s, op, n)
    ensures op.t == t
  {
    if op.UndoOne? {
      var undo := s.txs[op.t].undo;
      assert undo == Front(undo) + [Last(undo)];
      NodesPush(Front(undo), Last(undo));
      assert Touches(s, op.t, n);
    }
  }

  lemma StoreSteady(s: Sys, wal: bool, op: Op, t: TxId)
    requires NodesApart(s) && Enabled(s, wal, op) && DurableTx(s, t)
    ensures Alike(s.store, Next(s, wal, op).store, s.txs[t].Touched())
  {
    hide Next, NodesApart, Stores;
    forall n | n in s.txs[t].Touched() ensures At(Next(s, wal, op).store, n) == At(s.store, n) {
      NotDurable(s, wal, op, t, n);
      StoreAt(s, wal, op, n);
    }
  }

  lemma NotDurable(s: Sys, wal: bool, op: Op, t: TxId, n: Node)
    requires NodesApart(s) && Enabled(s, wal, op) && DurableTx(s, t) && n in s.txs[t].Touched()
    ensures !Stores(s, op, n)
  {
    if Stores(s, op, n) { StoresOwn(s, wal, op, t, n); }
  }

  lemma StepSteady(s: Sys, wal: bool, op: Op)
    requires NodesApart(s) && Slots(s) && Enabled(s, wal, op)
    requires !op.Publish? && !(op.Sync? && op.ok)
    ensures Steady(s, Next(s, wal, op))
  {
    hide Written, Unmarked, WritesOf, Alike, Shown, SlotOk, TxSlot, NodesApart;
    var s' := Next(s, wal, op);
    forall t | DurableTx(s, t) ensures s'.txs[t].undo == s.txs[t].undo && Alike(s.store, s'.store, s.txs[t].Touched()) {
      StoreSteady(s, wal, op, t);
    }
    if Quiet(op) { QuietUnseen(s, wal, op); } else { assert s'.slots == s.slots; }
    if op.Abort? && s.txs[op.t].slot.Some? { AbortedSlot(s, op.t); }
  }

  lemma AbortedSlot(s: Sys, t: TxId)
    requires Slots(s) && t in s.txs && s.txs[t].phase.Undoing? && s.txs[t].slot.Some?
    ensures s.txs[t].slot.value < |s.slots| && s.slots[s.txs[t].slot.value] == Pending(t)
  {
    assert TxSlot(s, t) && SlotOk(s, s.txs[t].slot.value);
  }

  lemma SyncShows(s: Sys, wal: bool, t: TxId)
    requires Enabled(s, wal, Sync(t, true))
    ensures Now(Next(s, wal, Sync(t, true))) == Now(s)
  {
  }

  lemma SyncKeepsLog(s: Sys, wal: bool, t: TxId)
    requires LogInv(s, wal) && NodesApart(s) && Enabled(s, wal, Sync(t, true))
    ensures LogInv(Next(s, wal, Sync(t, true)), wal)
  {
    hide Recovered, Now, WritesOf;
    var s' := Next(s, wal, Sync(t, true));
    var c := RecordOf(s, t);
    forall u ensures DurableTx(s', u) <==> DurableTx(s, u) || u == t { }
    forall u, n ensures Touches(s', u, n) <==> Touches(s, u, n) { }
    assert s'.log[|s.log|] == c;
    forall u | DurableTx(s', u) ensures RecordOf(s', u) in s'.log { SameRecord(s, s', u); }
    SyncShows(s, wal, t);
    forall n ensures LogShows(s', n) {
      assert LogShows(s, n);
      RecoveredPush(s.log, c);
      WritesAre(s.store, s.txs[t], n);
      if u :| DurableTx(s, u) && Touches(s, u, n) { assert DurableTx(s', u) && Touches(s', u, n); }
      if u :| DurableTx(s', u) && Touches(s', u, n) { assert u == t || (DurableTx(s, u) && Touches(s, u, n)); }
      assert n in s.txs[t].Touched() ==> DurableTx(s', t) && Touches(s', t, n);
    }
  }

  lemma PublishKeepsLog(s: Sys, wal: bool, t: TxId)
    requires LogInv(s, wal) && NodeInv(s) && Slots(s) && Enabled(s, wal, Publish(t))
    ensures LogInv(Next(s, wal, Publish(t)), wal)
  {
    hide Recovered, Now, WritesOf, NodesApart, LaterNodes, Slots;
    var s' := Next(s, wal, Publish(t));
    PublishNow(s, wal, t);
    forall u ensures DurableTx(s', u) <==> DurableTx(s, u) && u != t { }
    forall u, n ensures Touches(s', u, n) <==> Touches(s, u, n) && u != t { }
    forall u | DurableTx(s', u) ensures RecordOf(s', u) in s'.log { assert RecordOf(s, u) in s.log; }
    if wal {
      assert DurableTx(s, t) && RecordOf(s, t) in s.log;
      forall n ensures LogShows(s', n) { PublishShowsLog(s, t, s', n); }
    }
  }

  lemma PublishShowsLog(s: Sys, t: TxId, s': Sys, n: Node)
    requires LogShows(s, n) && NodesApart(s) && DurableTx(s, t) && s'.log == s.log && s'.store == s.store
    requires forall u :: DurableTx(s', u) <==> DurableTx(s, u) && u != t
    requires forall u, m :: Touches(s', u, m) <==> Touches(s, u, m) && u != t
    requires At(Now(s'), n) == if Touches(s, t, n) then At(s.store, n) else At(Now(s), n)
    ensures LogShows(s', n)
  {
    hide Recovered, Now, Touches, DurableTx;
    if u :| DurableTx(s, u) && Touches(s, u, n) { assert u != t ==> DurableTx(s', u) && Touches(s', u, n); }
    if u :| DurableTx(s', u) && Touches(s', u, n) { assert DurableTx(s, u) && Touches(s, u, n); }
    assert Touches(s, t, n) ==> DurablyTouched(s, n);
  }

  lemma StepKeepsLog(s: Sys, wal: bool, op: Op)
    requires LogInv(s, wal) && NodeInv(s) && Slots(s) && Enabled(s, wal, op)
    ensures LogInv(Next(s, wal, op), wal)
  {
    hide LogInv, Slots, Next, NodesApart, LaterNodes;
    if op.Publish? {
      PublishKeepsLog(s, wal, op.t);
    } else if op.Sync? && op.ok {
      SyncKeepsLog(s, wal, op.t);
    } else {
      StepSteady(s, wal, op);
      SteadyKeeps(s, Next(s, wal, op), wal);
    }
  }

  // ------------------------------------------------------------------ no update is lost

  function SnapshotOf(s: Sys, t: TxId): int { if t in s.txs then s.txs[t].snapshot else 0 }

  /** Whoever wrote a node had seen every commit to it. */
  ghost predicate NoLost(s: Sys) {
    && (forall t, i, n :: Touches(s, t, n) && Wrote(s, i, n) ==> i < SnapshotOf(s, t))
    && (forall i, j, n :: Wrote(s, i, n) && Wrote(s, j, n) && i < j ==> i < SnapshotOf(s, s.slots[j].c.t))
  }

  lemma StepKeepsNoLost(s: Sys, wal: bool, op: Op)
    requires NoLost(s) && NodeInv(s) && Slots(s) && Enabled(s, wal, op)
    ensures NoLost(Next(s, wal, op))
  {
    hide Slots, NodesApart, LaterNodes, Unmarked;
    if op.Publish? {
      PublishKeepsNoLost(s, wal, op.t);
    } else {
      StepSlots(s, wal, op);
      StepTouches(s, wal, op);
    }
  }

  lemma StepSlots(s: Sys, wal: bool, op: Op)
    requires Slots(s) && Enabled(s, wal, op) && !op.Publish?
    ensures var s' := Next(s, wal, op);
      && (forall i, n :: Wrote(s', i, n) ==> Wrote(s, i, n) && s'.slots[i] == s.slots[i])
      && (forall t :: t in s.txs ==> SnapshotOf(s', t) == SnapshotOf(s, t))
      && (forall i, n :: Wrote(s, i, n) ==> s.slots[i].c.t in s.txs)
  {
    hide Written, Unmarked, WritesOf, TxSlot;
    forall i, n | Wrote(s, i, n) ensures s.slots[i].c.t in s.txs { assert SlotOk(s, i); }
    if op.Abort? && s.txs[op.t].slot.Some? { AbortedSlot(s, op.t); }
  }

  /** A transaction comes to touch a node only by writing it. */
  lemma StepTouches(s: Sys, wal: bool, op: Op)
    requires Enabled(s, wal, op) && !op.Publish?
    ensures var s' := Next(s, wal, op);
      forall t, n :: Touches(s', t, n) ==> Touches(s, t, n) || (op.Set? && t == op.t && n == op.n)
  {
    hide Written, Unmarked, WritesOf;
    var s' := Next(s, wal, op);
    if op.Set? {
      WrittenIs(s, s.txs[op.t], op.n, op.v);
      NodesPush(s.txs[op.t].undo, Last(s'.txs[op.t].undo));
    } else if op.UndoOne? || op.Skip? {
      var undo := s.txs[op.t].undo;
      assert undo == Front(undo) + [Last(undo)];
      NodesPush(Front(undo), Last(undo));
    } else if op.Begin? {
      assert Nodes(s'.txs[op.t].undo) == {};
    }
  }

  lemma PublishKeepsNoLost(s: Sys, wal: bool, t: TxId)
    requires NoLost(s) && NodesApart(s) && LaterNodes(s) && Slots(s) && Enabled(s, wal, Publish(t))
    ensures NoLost(Next(s, wal, Publish(t)))
  {
    hide WritesOf, NodesApart, LaterNodes, LaterFree, Slots, Now;
    var s' := Next(s, wal, Publish(t));
    PublishNow(s, wal, t);
    var at := s.txs[t].slot.value;
    PublishWrote(s, wal, t, at);
    forall u, i, n | Touches(s', u, n) && Wrote(s', i, n) ensures i < SnapshotOf(s', u) {
      assert u != t && Touches(s, u, n);
      if !Wrote(s, i, n) { OneToucher(s, t, u, n); }
    }
    forall i, j, n | Wrote(s', i, n) && Wrote(s', j, n) && i < j ensures i < SnapshotOf(s', s'.slots[j].c.t) {
      if j == at {
        assert Wrote(s, i, n) && Touches(s, t, n);
      } else {
        assert Wrote(s, j, n);
        if i == at { PinnedFirst(s, t, at, j, n); }
      }
    }
  }

  lemma OneToucher(s: Sys, t: TxId, u: TxId, n: Node)
    requires NodesApart(s) && Touches(s, t, n) && Touches(s, u, n)
    ensures t == u
  {
  }

  lemma PinnedFirst(s: Sys, t: TxId, i: int, j: int, n: Node)
    requires LaterNodes(s) && Pinned(s, t, i) && Touches(s, t, n) && Wrote(s, j, n)
    ensures j < i
  {
  }

  lemma PublishWrote(s: Sys, wal: bool, t: TxId, i: nat)
    requires Enabled(s, wal, Publish(t)) && i < |s.slots| && s.txs[t].slot == Some(i) && s.slots[i] == Pending(t)
    ensures var s' := Next(s, wal, Publish(t));
      && (forall j, n :: Wrote(s', j, n) <==> Wrote(s, j, n) || (j == i && Touches(s, t, n)))
      && s'.slots[i].c.t == t && (forall j :: 0 <= j < |s.slots| && j != i ==> s'.slots[j] == s.slots[j])
      && (forall u :: SnapshotOf(s', u) == SnapshotOf(s, u))
  {
    hide WritesOf;
    forall n ensures n in WritesOf(s.store, s.txs[t]) <==> n in s.txs[t].Touched() { WritesAre(s.store, s.txs[t], n); }
  }

  // ------------------------------------------------------------------ whose node is whose

  lemma StepPinned(s: Sys, wal: bool, op: Op)
    requires Slots(s) && Enabled(s, wal, op)
    ensures var s' := Next(s, wal, op);
      forall t, i :: Pinned(s', t, i) ==> (Pinned(s, t, i) || i >= |s.slots|) && !(op.Set? && t == op.t) && !(op.Publish? && t == op.t)
  {
    hide Written, Unmarked, WritesOf, SlotOk;
    if !op.Begin? { assert TxSlot(s, op.t); }
  }

  lemma StepKeepsNodes(s: Sys, wal: bool, op: Op)
    requires NodeInv(s) && Slots(s) && Enabled(s, wal, op)
    ensures NodeInv(Next(s, wal, op))
  {
    hide Slots, Next, Touches, Pinned, Wrote;
    StepPinned(s, wal, op);
    if op.Publish? {
      PublishKeepsNodes(s, wal, op.t);
    } else {
      StepSlots(s, wal, op);
      StepTouches(s, wal, op);
      SetAlone(s, wal, op);
      forall j, n ensures Wrote(s, j, n) ==> j < |s.slots| { WroteWithin(s, j, n); }
    }
  }

  /** The node of a write is no other's. */
  lemma SetAlone(s: Sys, wal: bool, op: Op)
    requires Enabled(s, wal, op)
    ensures op.Set? ==> forall t :: Touches(s, t, op.n) ==> t == op.t
  {
  }

  lemma PublishKeepsNodes(s: Sys, wal: bool, t: TxId)
    requires NodeInv(s) && Slots(s) && Enabled(s, wal, Publish(t))
    ensures NodeInv(Next(s, wal, Publish(t)))
  {
    hide WritesOf, Slots, Now, NodesApart, LaterNodes;
    var s' := Next(s, wal, Publish(t));
    PublishNow(s, wal, t);
    var at := s.txs[t].slot.value;
    PublishWrote(s, wal, t, at);
    forall u, n ensures Touches(s', u, n) <==> Touches(s, u, n) && u != t { }
    forall u, i ensures Pinned(s', u, i) <==> Pinned(s, u, i) && u != t { }
    StillApart(s, s');
    StillLater(s, s', t, at);
  }

  lemma StillApart(s: Sys, s': Sys)
    requires NodesApart(s) && forall u, n :: Touches(s', u, n) ==> Touches(s, u, n)
    ensures NodesApart(s')
  {
  }

  lemma StillLater(s: Sys, s': Sys, t: TxId, at: int)
    requires NodesApart(s) && LaterNodes(s)
    requires forall u, n :: Touches(s', u, n) ==> Touches(s, u, n) && u != t
    requires forall u, i :: Pinned(s', u, i) ==> Pinned(s, u, i)
    requires forall j, n :: Wrote(s', j, n) ==> Wrote(s, j, n) || (j == at && Touches(s, t, n))
    ensures LaterNodes(s')
  {
  }

  // ------------------------------------------------------------------ every run

  lemma StepKeepsLogged(s: Sys, wal: bool, op: Op)
    requires LogKept(s) && Enabled(s, wal, op)
    ensures LogKept(Next(s, wal, op))
  {
    hide Written, Unmarked, WritesOf;
    forall c | c in Next(s, wal, op).log && c in s.log ensures Survives(Next(s, wal, op), c.t) { assert Survives(s, c.t); }
  }

  ghost predicate Inv(s: Sys, wal: bool) {
    Slots(s) && LogKept(s) && NodeInv(s) && LogInv(s, wal) && NoLost(s) && (!s.suspect ==> StateInv(s))
  }

  lemma StepKeeps(s: Sys, wal: bool, op: Op)
    requires Inv(s, wal) && Enabled(s, wal, op)
    ensures Inv(Next(s, wal, op), wal)
  {
    hide StateInv, Slots, LogInv, LogKept, NodeInv, NoLost, Next, Enabled;
    StepKeepsSlots(s, wal, op);
    StepKeepsLogged(s, wal, op);
    StepKeepsNodes(s, wal, op);
    StepKeepsLog(s, wal, op);
    StepKeepsNoLost(s, wal, op);
    SuspectStays(s, wal, op);
    if !Next(s, wal, op).suspect { StepKeepsState(s, wal, op); }
  }

  lemma SuspectStays(s: Sys, wal: bool, op: Op)
    requires Enabled(s, wal, op)
    ensures Next(s, wal, op).suspect == (s.suspect || op.Skip?)
  {
    hide Written, Unmarked, WritesOf;
  }

  lemma StartInv(wal: bool)
    ensures Inv(Start, wal)
  {
    assert forall k :: 0 <= k <= 0 ==> ShownAt(Start, k) == map[];
  }

  lemma {:induction false} RunKeeps(ops: seq<Op>, wal: bool)
    ensures Inv(Exec(ops, wal), wal)
  {
    hide Inv;
    if ops == [] {
      StartInv(wal);
    } else {
      RunKeeps(ops[..|ops| - 1], wal);
      var s, op := Exec(ops[..|ops| - 1], wal), ops[|ops| - 1];
      if Enabled(s, wal, op) { StepKeeps(s, wal, op); }
    }
  }

  /** In every run in which no inverse has panicked. */
  lemma RunParts(ops: seq<Op>, wal: bool)
    requires !Exec(ops, wal).suspect
    ensures var s := Exec(ops, wal); StateInv(s) && Slots(s) && OneHolder(Now(s))
  {
    hide StateInv, Slots, LogInv, LogKept, NodeInv, NoLost, Exec;
    RunKeeps(ops, wal);
    NowIsUnique(Exec(ops, wal));
  }

  lemma RunSlots(ops: seq<Op>, wal: bool)
    ensures Slots(Exec(ops, wal)) && LogKept(Exec(ops, wal)) && LogInv(Exec(ops, wal), wal) && NoLost(Exec(ops, wal))
  {
    hide StateInv, Slots, LogInv, LogKept, NodeInv, NoLost, Exec;
    RunKeeps(ops, wal);
  }

  lemma NowIsUnique(s: Sys)
    requires StateInv(s)
    ensures OneHolder(Now(s))
  {
    NowUnique(s);
  }

  // ------------------------------------------------------------------ unique at every instant

  /** At every point of every run no value is held twice: not by what a snapshot at any instant shows, and not
      by the store with everyone's uncommitted writes in it. */
  lemma UniqueAlways(ops: seq<Op>, wal: bool)
    requires !Exec(ops, wal).suspect
    ensures var s := Exec(ops, wal); OneHolder(s.store) && forall k :: 0 <= k <= |s.slots| ==> OneHolder(ShownAt(s, k))
  {
    hide Exec, Slots, LogInv, NoLost;
    RunParts(ops, wal);
    StoreUnique(Exec(ops, wal));
  }

  /** No peer may take a value someone holds: whoever is let write it finds it at no other node, and, in what
      is published, only at nodes it has itself rewritten. */
  lemma NoPeerTakes(ops: seq<Op>, wal: bool, t: TxId, n: Node, v: Val, m: Node)
    requires !Exec(ops, wal).suspect && Enabled(Exec(ops, wal), wal, Op.Set(t, n, Some(v))) && m != n
    ensures At(Exec(ops, wal).store, m) != Some(v)
    ensures At(Now(Exec(ops, wal)), m) == Some(v) ==> Touches(Exec(ops, wal), t, m)
  {
    hide Exec, Slots, LogInv, NoLost, StateInv, Enabled, Now;
    RunParts(ops, wal);
    if At(Now(Exec(ops, wal)), m) == Some(v) { TakeShown(Exec(ops, wal), wal, t, n, v, m); }
    TakeStored(Exec(ops, wal), wal, t, n, v, m);
  }

  /** What the writer may take though it is claimed is its own. */
  lemma TakenIsMine(s: Sys, wal: bool, t: TxId, n: Node, v: Val)
    requires StateInv(s) && OneHolder(Now(s)) && Enabled(s, wal, Op.Set(t, n, Some(v))) && v in s.claimed
    requires v in s.txs[t].marks || Touches(s, t, n)
    ensures Mine(Now(s), s.txs[t].Touched(), Reserved(s.txs[t].undo), v)
  {
    hide Shown;
    assert TxSound(s, t);
    SoundFits(Now(s), s.store, s.txs[t].undo, s.txs[t].marks);
  }

  lemma TakeShown(s: Sys, wal: bool, t: TxId, n: Node, v: Val, m: Node)
    requires StateInv(s) && OneHolder(Now(s)) && Enabled(s, wal, Op.Set(t, n, Some(v))) && m != n && At(Now(s), m) == Some(v)
    ensures Touches(s, t, m)
  {
    hide Shown, Sound, Fits, Mine;
    assert Holding(Now(s), v);
    if !Touches(s, t, n) { assert Untouched(s, n); }
    if v in s.txs[t].marks || Touches(s, t, n) {
      TakenIsMine(s, wal, t, n, v);
      MineShown(s, t, v, m);
    }
  }

  lemma TakeStored(s: Sys, wal: bool, t: TxId, n: Node, v: Val, m: Node)
    requires StateInv(s) && OneHolder(Now(s)) && Enabled(s, wal, Op.Set(t, n, Some(v))) && m != n
    ensures At(s.store, m) != Some(v)
  {
    hide Shown, Sound, Fits;
    StoreUnique(s);
    if At(s.store, m) == Some(v) {
      HeldIsClaimed(s, m);
      assert v in s.txs[t].marks;
      MarkedNotHeld(s, t, v, m);
    }
  }

  lemma HeldIsClaimed(s: Sys, m: Node)
    requires StateInv(s) && m in s.store
    ensures s.store[m] in s.claimed
  {
    hide Shown, Sound, Fits;
    if u :| Touches(s, u, m) {
      HeldIsMine(s, u, m);
      if s.store[m] in Reserved(s.txs[u].undo) { assert Owns(s, u, s.store[m]); } else { assert Holding(Now(s), s.store[m]); }
    } else {
      assert Untouched(s, m);
      assert At(Now(s), m) == Some(s.store[m]);
    }
  }

  lemma MarkedNotHeld(s: Sys, t: TxId, v: Val, m: Node)
    requires StateInv(s) && OneHolder(Now(s)) && Holder(s, t) && v in s.txs[t].marks
    ensures At(s.store, m) != Some(v)
  {
    hide Shown, Sound, Mine;
    var tx := s.txs[t];
    assert TxSound(s, t);
    SoundFits(Now(s), s.store, tx.undo, tx.marks);
    assert Mine(Now(s), tx.Touched(), Reserved(tx.undo), v);
    if At(s.store, m) == Some(v) {
      if u :| Touches(s, u, m) {
        HeldIsMine(s, u, m);
        MineApart(s, t, u, v);
      } else {
        assert Untouched(s, m);
        MineShown(s, t, v, m);
      }
    }
  }

  /** The shared set holds what is published and what a transaction has reserved or not yet freed, nothing else:
      no phantom of an aborted one, and nothing free that someone holds. Outside the bracket nothing is owed. */
  lemma ClaimsAre(ops: seq<Op>, wal: bool, v: Val)
    requires !Exec(ops, wal).suspect
    ensures var s := Exec(ops, wal);
      && (v in s.claimed <==> Holding(Now(s), v) || Owned(s, v))
      && ((forall t :: t in s.txs ==> !s.txs[t].phase.InBracket()) && v in s.claimed && !Holding(Now(s), v) ==>
            exists t :: Holder(s, t) && v in Reserved(s.txs[t].undo))
  {
    hide Exec, Slots, LogInv, NoLost, Shown, Now;
    RunParts(ops, wal);
    var s := Exec(ops, wal);
    assert ClaimsExact(s);
    if t :| Owns(s, t, v) { assert !s.txs[t].phase.InBracket() ==> Holder(s, t) && v in Reserved(s.txs[t].undo); }
  }

  // ------------------------------------------------------------------ durable before visible

  /** What any snapshot can show is in the log by then, with the very writes. */
  lemma VisibleIsDurable(ops: seq<Op>, i: nat)
    requires var s := Exec(ops, true); i < |s.slots| && s.slots[i].Done?
    ensures Exec(ops, true).slots[i].c in Exec(ops, true).log
  {
    hide Exec, Slots, NoLost;
    RunSlots(ops, true);
  }

  /** A crash at any point of any run, also after an inverse has panicked: recovery gives every node what is
      published, or what a transaction whose record was durable had written to it; and no value twice, if none
      has panicked. */
  lemma CrashAnywhere(ops: seq<Op>)
    ensures var s := Exec(ops, true); (forall n :: LogShows(s, n)) && (!s.suspect ==> OneHolder(Recovered(s.log)))
  {
    hide Exec, Slots, LogKept, NoLost, StateInv, LogShows;
    RunSlots(ops, true);
    if !Exec(ops, true).suspect {
      RunParts(ops, true);
      RecoveredUnique(Exec(ops, true));
    }
  }

  lemma RecoveredUnique(s: Sys)
    requires StateInv(s) && OneHolder(Now(s)) && forall n :: LogShows(s, n)
    ensures OneHolder(Recovered(s.log))
  {
    hide Recovered, Now, Sound, StateInv, LogShows, Mine;
    StoreUnique(s);
    var g := Recovered(s.log);
    forall n, m | n in g && m in g && g[n] == g[m] ensures n == m {
      assert LogShows(s, n) && LogShows(s, m);
      LogOrigin(s, n);
      LogOrigin(s, m);
      if DurablyTouched(s, n) && !DurablyTouched(s, m) {
        RecoveredApart(s, n, m);
      } else if DurablyTouched(s, m) && !DurablyTouched(s, n) {
        RecoveredApart(s, m, n);
      }
    }
  }

  lemma LogOrigin(s: Sys, n: Node)
    requires LogShows(s, n)
    ensures At(Recovered(s.log), n) == if DurablyTouched(s, n) then At(s.store, n) else At(Now(s), n)
  {
  }

  lemma RecoveredApart(s: Sys, n: Node, m: Node)
    requires StateInv(s) && OneHolder(Now(s)) && DurablyTouched(s, n) && !DurablyTouched(s, m) && n in s.store
    ensures At(Now(s), m) != Some(s.store[n])
  {
    hide Recovered, Now, Sound, Mine;
    var t :| DurableTx(s, t) && Touches(s, t, n);
    HeldIsMine(s, t, n);
    if At(Now(s), m) == Some(s.store[n]) { MineShown(s, t, s.store[n], m); }
  }

  // ------------------------------------------------------------------ from one point of a run to a later one

  ghost predicate Since(s: Sys, s': Sys) {
    && |s.slots| <= |s'.slots| && s.log <= s'.log
    && (forall i :: 0 <= i < |s.slots| && !s.slots[i].Pending? ==> s'.slots[i] == s.slots[i])
    && (forall t :: t in s.txs ==> t in s'.txs)
    && (forall t :: t in s.txs && s.txs[t].phase.Closed? ==> s'.txs[t].phase == s.txs[t].phase)
    && (forall t :: t in s.txs && s.txs[t].phase.InBracket() ==> s'.txs[t].phase.InBracket() || s'.txs[t].phase.Closed?)
  }

  lemma StepSince(s: Sys, wal: bool, op: Op)
    requires Slots(s) && Enabled(s, wal, op)
    ensures Since(s, Next(s, wal, op))
  {
    hide Written, Unmarked, WritesOf, SlotOk, TxSlot;
    if !op.Begin? { OwnSlot(s, op.t); }
  }

  lemma {:induction false} RunSince(ops: seq<Op>, more: seq<Op>, wal: bool)
    ensures Since(Exec(ops, wal), Exec(ops + more, wal))
    decreases |more|
  {
    if more == [] {
      assert ops + more == ops;
    } else {
      var front := more[..|more| - 1];
      RunSince(ops, front, wal);
      assert (ops + more)[..|ops + more| - 1] == ops + front && (ops + more)[|ops + more| - 1] == more[|more| - 1];
      var s, op := Exec(ops + front, wal), more[|more| - 1];
      SinceStep(Exec(ops, wal), ops + front, op, wal);
    }
  }

  lemma SinceStep(s0: Sys, ops: seq<Op>, op: Op, wal: bool)
    requires Since(s0, Exec(ops, wal))
    ensures var s := Exec(ops, wal); Since(s0, if Enabled(s, wal, op) then Next(s, wal, op) else s)
  {
    hide Exec, LogKept, Next, Enabled;
    var s := Exec(ops, wal);
    RunSlots(ops, wal);
    if Enabled(s, wal, op) { StepSince(s, wal, op); }
  }

  /** What a snapshot shows never changes. */
  lemma SnapshotStands(ops: seq<Op>, more: seq<Op>, wal: bool, k: nat)
    requires k <= |Exec(ops, wal).slots| && Settled(Exec(ops, wal).slots[..k])
    ensures ShownAt(Exec(ops + more, wal), k) == ShownAt(Exec(ops, wal), k)
  {
    hide Exec, Shown;
    RunSince(ops, more, wal);
    var s, s' := Exec(ops, wal), Exec(ops + more, wal);
    assert forall i :: 0 <= i < k ==> !s.slots[..k][i].Pending? && s.slots[..k][i] == s.slots[i];
    assert s'.slots[..k] == s.slots[..k];
  }

  /** What became durable stays so, and is not taken back. */
  lemma DurableStays(ops: seq<Op>, more: seq<Op>, wal: bool, c: Commit)
    requires c in Exec(ops, wal).log
    ensures c in Exec(ops + more, wal).log && Survives(Exec(ops + more, wal), c.t)
  {
    hide Exec, Slots, Survives;
    RunSince(ops, more, wal);
    RunSlots(ops + more, wal);
    var i :| 0 <= i < |Exec(ops, wal).log| && Exec(ops, wal).log[i] == c;
    assert Exec(ops + more, wal).log[i] == c;
  }

  ghost predicate PublishedTx(s: Sys, t: TxId) { exists i :: 0 <= i < |s.slots| && s.slots[i].Done? && s.slots[i].c.t == t }

  ghost predicate Holdless(s: Sys, t: TxId) { (forall n :: !Touches(s, t, n)) && forall v :: !Owns(s, t, v) }

  /** Who sees a transaction that was in the bracket no longer there finds it published and its vacated values
      freed, or taken back whole: no write of it left, no instant, no record, no value. */
  lemma DrainedIsEnded(ops: seq<Op>, more: seq<Op>, wal: bool, t: TxId)
    requires var s := Exec(ops, wal); t in s.txs && s.txs[t].phase.InBracket()
    requires var s' := Exec(ops + more, wal); t in s'.txs ==> !s'.txs[t].phase.InBracket()
    ensures var s' := Exec(ops + more, wal);
      && t in s'.txs && s'.txs[t].phase.Closed? && Holdless(s', t)
      && (s'.txs[t].phase.kept <==> PublishedTx(s', t))
      && (!s'.txs[t].phase.kept ==> forall c :: c in s'.log ==> c.t != t)
  {
    hide Exec, Holdless;
    RunSince(ops, more, wal);
    var s' := Exec(ops + more, wal);
    ClosedIs(ops + more, wal, t);
  }

  /** An ended transaction: kept exactly if published, and holding nothing. */
  lemma ClosedIs(ops: seq<Op>, wal: bool, t: TxId)
    requires var s := Exec(ops, wal); t in s.txs && s.txs[t].phase.Closed?
    ensures var s := Exec(ops, wal);
      && Holdless(s, t) && (s.txs[t].phase.kept <==> PublishedTx(s, t))
      && (!s.txs[t].phase.kept ==> forall c :: c in s.log ==> c.t != t)
      && (s.txs[t].phase.kept && wal ==> exists c :: c in s.log && c.t == t)
  {
    hide Exec, LogInv, NoLost;
    RunSlots(ops, wal);
    var s := Exec(ops, wal);
    assert TxSlot(s, t);
    if s.txs[t].phase.kept { assert SlotOk(s, s.txs[t].slot.value); }
    forall i | 0 <= i < |s.slots| && s.slots[i].Done? && s.slots[i].c.t == t ensures s.txs[t].phase.kept { assert SlotOk(s, i); }
    if s.txs[t].phase.kept && wal { VisibleIsDurable(ops, s.txs[t].slot.value); }
  }

  /** A transaction is published at most once. */
  lemma PublishedOnce(ops: seq<Op>, wal: bool, i: nat, j: nat)
    requires var s := Exec(ops, wal); i < |s.slots| && j < |s.slots| && s.slots[i].Done? && s.slots[j].Done? && s.slots[i].c.t == s.slots[j].c.t
    ensures i == j
  {
    hide Exec, LogKept;
    RunSlots(ops, wal);
    assert SlotOk(Exec(ops, wal), i) && SlotOk(Exec(ops, wal), j);
  }

  /** A node no open transaction has written holds, in the shared store, what is published. */
  lemma RestIsPublished(ops: seq<Op>, wal: bool, n: Node)
    requires !Exec(ops, wal).suspect && Untouched(Exec(ops, wal), n)
    ensures At(Exec(ops, wal).store, n) == At(Now(Exec(ops, wal)), n)
  {
    hide Exec, Slots, LogInv, NoLost;
    RunParts(ops, wal);
  }

  /** Whatever began, wrote, failed and was taken back in between: a node that no open transaction has written,
      then or now, and no commit since, holds what it held. */
  lemma TakenBackWhole(ops: seq<Op>, more: seq<Op>, wal: bool, n: Node)
    requires var s, s' := Exec(ops, wal), Exec(ops + more, wal);
      !s.suspect && !s'.suspect && Untouched(s, n) && Untouched(s', n) && forall j :: Wrote(s', j, n) ==> Wrote(s, j, n)
    ensures At(Exec(ops + more, wal).store, n) == At(Exec(ops, wal).store, n)
  {
    hide Exec, Shown;
    RunSince(ops, more, wal);
    RestIsPublished(ops, wal, n);
    RestIsPublished(ops + more, wal, n);
    var s, s' := Exec(ops, wal), Exec(ops + more, wal);
    forall i | 0 <= i < |s'.slots| && s'.slots[i].Done? && n in s'.slots[i].c.writes ensures i < |s.slots| && s.slots[i] == s'.slots[i] {
      assert Wrote(s', i, n);
    }
    SameWriters(s.slots, s'.slots, n);
  }

  lemma {:induction false} SameWriters(h: seq<Slot>, h': seq<Slot>, n: Node)
    requires |h| <= |h'|
    requires forall i :: 0 <= i < |h| && h[i].Done? ==> h'[i] == h[i]
    requires forall i :: 0 <= i < |h'| && h'[i].Done? && n in h'[i].c.writes ==> i < |h| && h[i] == h'[i]
    ensures At(Shown(h'), n) == At(Shown(h), n)
    decreases |h'|
  {
    if h' != [] {
      SameWriters(if |h| == |h'| then h[..|h| - 1] else h, h'[..|h'| - 1], n);
    }
  }

  /** No update is lost: of two commits to a node, the later one's snapshot had the earlier. */
  lemma NoUpdateLost(ops: seq<Op>, wal: bool, i: nat, j: nat, n: Node)
    requires var s := Exec(ops, wal); i < j && Wrote(s, i, n) && Wrote(s, j, n)
    ensures var s := Exec(ops, wal); i < SnapshotOf(s, s.slots[j].c.t)
  {
    hide Exec, Slots, LogInv;
    RunSlots(ops, wal);
  }
}
