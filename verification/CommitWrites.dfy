/** What a commit says: of every node its transaction wrote, the value written last, and of no other node
    anything. True of every publication and every record in the log, in every run. */
module CommitWrites {
  import opened CommitRuns
  import opened CommitSafety

  /** The value the transaction's last write to the node gave it, if it wrote the node at all. */
  function LastSet(ops: seq<Op>, t: TxId, n: Node): Option<Option<Val>> {
    if ops == [] then None
    else if ops[|ops| - 1].Set? && ops[|ops| - 1].t == t && ops[|ops| - 1].n == n then Some(ops[|ops| - 1].v)
    else LastSet(ops[..|ops| - 1], t, n)
  }

  /** Every step of the run was taken. */
  ghost predicate Ran(ops: seq<Op>, wal: bool) {
    ops == [] || (Ran(ops[..|ops| - 1], wal) && Enabled(Exec(ops[..|ops| - 1], wal), wal, ops[|ops| - 1]))
  }

  /** The commit's writes are exactly its transaction's last ones. */
  ghost predicate SaysLast(c: Commit, ops: seq<Op>) {
    forall n :: (n in c.writes <==> LastSet(ops, c.t, n).Some?) && (n in c.writes ==> Some(c.writes[n]) == LastSet(ops, c.t, n))
  }

  predicate Forward(p: Phase) { p.Open? || p.Inside? || p.Durable? }

  /** Until it is published or gives up, a transaction's nodes are those it wrote, each as it wrote it last. */
  ghost predicate HasLast(s: Sys, ops: seq<Op>, t: TxId, n: Node) {
    && (t !in s.txs ==> LastSet(ops, t, n).None?)
    && (t in s.txs && Forward(s.txs[t].phase) ==>
          (n in s.txs[t].Touched() <==> LastSet(ops, t, n).Some?)
          && (LastSet(ops, t, n).Some? ==> LastSet(ops, t, n) == Some(At(s.store, n))))
  }

  ghost predicate AllSay(s: Sys, ops: seq<Op>) {
    && (forall i :: 0 <= i < |s.slots| && s.slots[i].Done? ==> SaysLast(s.slots[i].c, ops))
    && (forall c :: c in s.log ==> SaysLast(c, ops))
  }

  lemma LastSetPush(ops: seq<Op>, op: Op, t: TxId, n: Node)
    ensures LastSet(ops + [op], t, n) == if op.Set? && op.t == t && op.n == n then Some(op.v) else LastSet(ops, t, n)
  {
    assert (ops + [op])[..|ops|] == ops;
  }

  lemma StepTouched(s: Sys, wal: bool, op: Op, t: TxId)
    requires Enabled(s, wal, op) && t in Next(s, wal, op).txs && Forward(Next(s, wal, op).txs[t].phase)
    ensures t !in s.txs ==> Next(s, wal, op).txs[t].Touched() == {}
    ensures t in s.txs ==> Forward(s.txs[t].phase)
    ensures var more := if op.Set? && op.t == t then {op.n} else {};
            t in s.txs ==> Next(s, wal, op).txs[t].Touched() == s.txs[t].Touched() + more
  {
    hide Written, Unmarked, WritesOf;
    if op.Set? && op.t == t {
      WrittenIs(s, s.txs[t], op.n, op.v);
      NodesPush(s.txs[t].undo, Last(Next(s, wal, op).txs[t].undo));
    }
  }

  lemma StepKnown(s: Sys, wal: bool, op: Op, t: TxId)
    requires Enabled(s, wal, op) && t in s.txs
    ensures t in Next(s, wal, op).txs
    ensures op.Set? ==> op.t in s.txs && s.txs[op.t].phase.Open?
  {
    hide Written, Unmarked, WritesOf;
  }

  lemma StepKeepsLast(s: Sys, wal: bool, ops: seq<Op>, op: Op, t: TxId, n: Node)
    requires NodesApart(s) && Enabled(s, wal, op) && HasLast(s, ops, t, n)
    ensures HasLast(Next(s, wal, op), ops + [op], t, n)
  {
    hide Next, Enabled, NodesApart, LastSet, Stores;
    LastSetPush(ops, op, t, n);
    var s' := Next(s, wal, op);
    if t in s.txs { StepKnown(s, wal, op, t); }
    SetKnown(s, wal, op);
    if t in s'.txs && Forward(s'.txs[t].phase) {
      StepTouched(s, wal, op, t);
      if t in s.txs && LastSet(ops, t, n).Some? && !(op.Set? && op.t == t && op.n == n) {
        NotOthers(s, wal, op, t, n);
        StoreAt(s, wal, op, n);
      }
      if op.Set? && op.t == t && op.n == n { SetStores(s, wal, op); }
    }
  }

  lemma SetKnown(s: Sys, wal: bool, op: Op)
    requires Enabled(s, wal, op)
    ensures op.Set? ==> op.t in s.txs && s.txs[op.t].phase.Open?
  {
  }

  lemma SetStores(s: Sys, wal: bool, op: Op)
    requires Enabled(s, wal, op) && op.Set?
    ensures At(Next(s, wal, op).store, op.n) == op.v
  {
    hide Written;
  }

  /** Another's write or undoing leaves the node alone, and so does the transaction's own write to another. */
  lemma NotOthers(s: Sys, wal: bool, op: Op, t: TxId, n: Node)
    requires NodesApart(s) && Enabled(s, wal, op) && t in s.txs && Forward(s.txs[t].phase) && n in s.txs[t].Touched()
    requires !(op.Set? && op.t == t && op.n == n)
    ensures !Stores(s, op, n)
  {
    assert Touches(s, t, n);
    if Stores(s, op, n) { StoresOwn(s, wal, op, t, n); }
  }

  lemma CommitSays(s: Sys, ops: seq<Op>, t: TxId)
    requires t in s.txs && Forward(s.txs[t].phase) && forall n :: HasLast(s, ops, t, n)
    ensures SaysLast(Commit(t, WritesOf(s.store, s.txs[t])), ops)
  {
    hide WritesOf, LastSet;
    var c := Commit(t, WritesOf(s.store, s.txs[t]));
    forall n ensures (n in c.writes <==> LastSet(ops, t, n).Some?) && (n in c.writes ==> Some(c.writes[n]) == LastSet(ops, t, n)) {
      assert HasLast(s, ops, t, n);
      WritesAre(s.store, s.txs[t], n);
    }
  }

  /** A step of nobody's writing leaves what a commit says; a write is by one that has not committed. */
  lemma StillSays(s: Sys, wal: bool, ops: seq<Op>, op: Op, c: Commit)
    requires Enabled(s, wal, op) && SaysLast(c, ops) && c.t in s.txs && !s.txs[c.t].phase.Open?
    ensures SaysLast(c, ops + [op])
  {
    hide Enabled, LastSet;
    SetKnown(s, wal, op);
    forall n ensures LastSet(ops + [op], c.t, n) == LastSet(ops, c.t, n) { LastSetPush(ops, op, c.t, n); }
  }

  lemma StepSays(s: Sys, wal: bool, op: Op, i: nat)
    requires Slots(s) && Enabled(s, wal, op) && i < |Next(s, wal, op).slots| && Next(s, wal, op).slots[i].Done?
    ensures i < |s.slots|
    ensures (s.slots[i] == Next(s, wal, op).slots[i] && s.slots[i].c.t in s.txs && !s.txs[s.slots[i].c.t].phase.Open?)
            || (op.t in s.txs && Forward(s.txs[op.t].phase) && !s.txs[op.t].phase.Open?
                && Next(s, wal, op).slots[i].c == Commit(op.t, WritesOf(s.store, s.txs[op.t])))
  {
    hide Written, Unmarked, WritesOf, TxSlot;
    if i < |s.slots| { assert SlotOk(s, i); }
  }

  lemma StepLogs(s: Sys, wal: bool, op: Op, c: Commit)
    requires LogKept(s) && Enabled(s, wal, op) && c in Next(s, wal, op).log
    ensures (c in s.log && c.t in s.txs && !s.txs[c.t].phase.Open?)
            || (op.t in s.txs && Forward(s.txs[op.t].phase) && !s.txs[op.t].phase.Open?
                && c == Commit(op.t, WritesOf(s.store, s.txs[op.t])))
  {
    hide Written, Unmarked, WritesOf;
    if c in s.log { assert Survives(s, c.t); }
  }

  lemma StepKeepsSays(s: Sys, wal: bool, ops: seq<Op>, op: Op)
    requires Slots(s) && LogKept(s) && Enabled(s, wal, op)
    requires AllSay(s, ops) && forall t, n :: HasLast(s, ops, t, n)
    ensures AllSay(Next(s, wal, op), ops + [op])
  {
    hide Slots, LogKept, Next, Enabled, SaysLast, WritesOf, HasLast;
    var s' := Next(s, wal, op);
    if op.t in s.txs && Forward(s.txs[op.t].phase) {
      CommitSays(s, ops, op.t);
      if !s.txs[op.t].phase.Open? { StillSays(s, wal, ops, op, Commit(op.t, WritesOf(s.store, s.txs[op.t]))); }
    }
    forall i: nat | i < |s'.slots| && s'.slots[i].Done? ensures SaysLast(s'.slots[i].c, ops + [op]) {
      StepSays(s, wal, op, i);
      if s.slots[i] == s'.slots[i] && s.slots[i].c.t in s.txs && !s.txs[s.slots[i].c.t].phase.Open? {
        StillSays(s, wal, ops, op, s.slots[i].c);
      }
    }
    forall c | c in s'.log ensures SaysLast(c, ops + [op]) {
      StepLogs(s, wal, op, c);
      if c in s.log && c.t in s.txs && !s.txs[c.t].phase.Open? { StillSays(s, wal, ops, op, c); }
    }
  }

  /** In every run, also one in which inverses panic: each publication, and each record in the log, has of every
      node its transaction wrote the value it wrote last, and nothing else. */
  lemma {:induction false} CommitsSayLast(ops: seq<Op>, wal: bool)
    requires Ran(ops, wal)
    ensures AllSay(Exec(ops, wal), ops) && forall t, n :: HasLast(Exec(ops, wal), ops, t, n)
  {
    hide AllSay, HasLast, NodesApart, LaterNodes, LogInv, NoLost, StateInv, Slots, LogKept, Next, Enabled, Exec;
    if ops == [] {
      NothingSaid(wal);
    } else {
      var front, op := ops[..|ops| - 1], ops[|ops| - 1];
      CommitsSayLast(front, wal);
      RunKeeps(front, wal);
      RunOf(front, op, wal);
      assert ops == front + [op];
      var s := Exec(front, wal);
      StepKeepsSays(s, wal, front, op);
      forall t, n ensures HasLast(Next(s, wal, op), ops, t, n) { StepKeepsLast(s, wal, front, op, t, n); }
    }
  }

  lemma NothingSaid(wal: bool)
    ensures AllSay(Exec([], wal), []) && forall t, n :: HasLast(Exec([], wal), [], t, n)
  {
  }

  lemma RunOf(ops: seq<Op>, op: Op, wal: bool)
    requires Enabled(Exec(ops, wal), wal, op)
    ensures Exec(ops + [op], wal) == Next(Exec(ops, wal), wal, op)
  {
    assert (ops + [op])[..|ops|] == ops;
  }

  /** A published commit shows, from its instant on, exactly the transaction's last writes over what was there. */
  lemma ShowsLast(ops: seq<Op>, wal: bool, i: nat, n: Node)
    requires Ran(ops, wal) && i < |Exec(ops, wal).slots| && Exec(ops, wal).slots[i].Done?
    ensures var s := Exec(ops, wal); var w := LastSet(ops, s.slots[i].c.t, n);
      At(ShownAt(s, i + 1), n) == if w.Some? then w.value else At(ShownAt(s, i), n)
  {
    hide Exec, LastSet;
    CommitsSayLast(ops, wal);
    var s := Exec(ops, wal);
    assert SaysLast(s.slots[i].c, ops);
    assert s.slots[..i + 1][..i] == s.slots[..i];
  }

  // ------------------------------------------------------------------ a commit with nobody else about

  lemma RanLast(ops: seq<Op>, op: Op, wal: bool)
    requires Ran(ops + [op], wal)
    ensures Ran(ops, wal) && Enabled(Exec(ops, wal), wal, op)
    ensures Exec(ops + [op], wal) == Next(Exec(ops, wal), wal, op)
  {
    hide Enabled, Next;
    assert (ops + [op])[..|ops|] == ops;
  }

  function SlotOf(s: Sys, t: TxId): Option<nat> { if t in s.txs then s.txs[t].slot else None }

  /** What the steps of a commit do to the instants. */
  lemma CommitStepSlots(s: Sys, wal: bool, op: Op)
    requires Enabled(s, wal, op)
    ensures var s' := Next(s, wal, op);
      && (op.Enter? || op.Sync? || op.Free? || op.Exit? ==> s'.slots == s.slots && SlotOf(s', op.t) == SlotOf(s, op.t))
      && (op.Stamp? ==> s'.slots == s.slots + [Pending(op.t)] && SlotOf(s', op.t) == Some(|s.slots|))
      && (op.Publish? && SlotOf(s, op.t).Some? && SlotOf(s, op.t).value < |s.slots| ==>
            && |s'.slots| == |s.slots| && s'.slots[SlotOf(s, op.t).value].Done? && s'.slots[SlotOf(s, op.t).value].c.t == op.t
            && forall i :: 0 <= i < |s.slots| && i != SlotOf(s, op.t).value ==> s'.slots[i] == s.slots[i])
  {
    hide Written, Unmarked, WritesOf;
  }

  /** The steps of a commit one after another take the next instant and publish at it. */
  lemma AloneTakesNext(ops: seq<Op>, wal: bool, t: TxId, more: seq<Op>)
    requires more == if wal then [Enter(t), Stamp(t), Sync(t, true), Publish(t), Free(t), Exit(t)]
                     else [Enter(t), Stamp(t), Publish(t), Free(t), Exit(t)]
    requires Ran(ops + more, wal)
    ensures var s, s' := Exec(ops, wal), Exec(ops + more, wal);
      && |s'.slots| == |s.slots| + 1 && s'.slots[|s.slots|].Done? && s'.slots[|s.slots|].c.t == t
      && s'.slots[..|s.slots|] == s.slots
  {
    hide Exec, Ran, Enabled, Next;
    var n := |more|;
    assert ops + more[..n] == ops + more;
    forall k | 0 <= k < n ensures ops + more[..k + 1] == ops + more[..k] + [more[k]] { }
    RanLast(ops + more[..4], more[4], wal) by {
      if wal { RanLast(ops + more[..5], more[5], wal); }
    }
    RanLast(ops + more[..3], more[3], wal);
    RanLast(ops + more[..2], more[2], wal);
    RanLast(ops + more[..1], more[1], wal);
    RanLast(ops + more[..0], more[0], wal);
    if wal { RanLast(ops + more[..5], more[5], wal); }
    assert ops + more[..0] == ops;
    forall k | 0 <= k < n
      ensures Enabled(Exec(ops + more[..k], wal), wal, more[k])
           && Exec(ops + more[..k + 1], wal) == Next(Exec(ops + more[..k], wal), wal, more[k])
    {
    }
    CommitStepSlots(Exec(ops, wal), wal, more[0]);
    CommitStepSlots(Exec(ops + more[..1], wal), wal, more[1]);
    CommitStepSlots(Exec(ops + more[..2], wal), wal, more[2]);
    CommitStepSlots(Exec(ops + more[..3], wal), wal, more[3]);
    CommitStepSlots(Exec(ops + more[..4], wal), wal, more[4]);
    if wal { CommitStepSlots(Exec(ops + more[..5], wal), wal, more[5]); }
  }

  /** From instant i on, a snapshot shows of every node the transaction wrote in the run so far the value it
      wrote last, and every other node as before. */
  ghost predicate MadeVisible(s: Sys, t: TxId, ops: seq<Op>, i: nat) {
    && i < |s.slots| && s.slots[i].Done? && s.slots[i].c.t == t
    && forall n :: At(ShownAt(s, i + 1), n) ==
         if LastSet(ops, t, n).Some? then LastSet(ops, t, n).value else At(ShownAt(s, i), n)
  }

  lemma IsVisible(ops: seq<Op>, wal: bool, was: seq<Op>, t: TxId, i: nat)
    requires Ran(ops, wal) && forall n :: LastSet(ops, t, n) == LastSet(was, t, n)
    requires i < |Exec(ops, wal).slots| && Exec(ops, wal).slots[i].Done? && Exec(ops, wal).slots[i].c.t == t
    ensures MadeVisible(Exec(ops, wal), t, was, i)
  {
    hide Exec, LastSet, Ran, ShownAt;
    forall n ensures At(ShownAt(Exec(ops, wal), i + 1), n) ==
      if LastSet(was, t, n).Some? then LastSet(was, t, n).value else At(ShownAt(Exec(ops, wal), i), n)
    {
      ShowsLast(ops, wal, i, n);
    }
  }

  /** The commit is the last instant, and all there is to see has it. */
  ghost predicate NowShows(s: Sys, s': Sys, t: TxId, ops: seq<Op>) {
    && |s'.slots| == |s.slots| + 1 && (Settled(s.slots) ==> Settled(s'.slots))
    && forall n :: At(Now(s'), n) == if LastSet(ops, t, n).Some? then LastSet(ops, t, n).value else At(Now(s), n)
  }

  lemma AloneShows(s: Sys, s': Sys, t: TxId, ops: seq<Op>)
    requires |s'.slots| == |s.slots| + 1 && s'.slots[..|s.slots|] == s.slots && MadeVisible(s', t, ops, |s.slots|)
    ensures NowShows(s, s', t, ops)
  {
    hide LastSet, Shown;
    assert s'.slots[..|s'.slots|] == s'.slots;
    forall i | 0 <= i < |s.slots| ensures s'.slots[i] == s.slots[i] { assert s'.slots[..|s.slots|][i] == s.slots[i]; }
  }
}
