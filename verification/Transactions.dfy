/** The explicit-transaction handle: the steps Exec, Commit, Rollback and release make of the shared engine, on
    every path, whatever the other transactions do between any two of them. */
module Transactions {
  import opened CommitRuns
  import CommitSafety
  import opened CommitWrites

  // ------------------------------------------------------------------ the undo log

  /** Every inverse in turn, the last recorded first; one that panics leaves what it finds. */
  function Replayed(g: Store, undo: seq<Inverse>, panics: set<nat>): Store
    decreases |undo|
  {
    if undo == [] then g
    else
      Replayed(if |undo| - 1 in panics then g else With(g, Last(undo).n, Last(undo).before), Front(undo), panics)
  }

  /** What the node's first inverse that runs puts back. */
  function Before(undo: seq<Inverse>, panics: set<nat>, n: Node): Option<Option<Val>> {
    if undo == [] then None
    else
      var earlier := Before(Front(undo), panics, n);
      if earlier.Some? then earlier else if Last(undo).n == n && |undo| - 1 !in panics then Some(Last(undo).before) else None
  }

  /** However often a node was written, replaying puts back what it held before the first write whose inverse
      runs; a node none of whose inverses runs is left as it is. */
  lemma {:induction false} ReplayRestores(g: Store, undo: seq<Inverse>, panics: set<nat>, n: Node)
    ensures At(Replayed(g, undo, panics), n) ==
            if Before(undo, panics, n).Some? then Before(undo, panics, n).value else At(g, n)
    decreases |undo|
  {
    if undo != [] {
      ReplayRestores(if |undo| - 1 in panics then g else With(g, Last(undo).n, Last(undo).before), Front(undo), panics, n);
    }
  }

  /** A panic harms only the nodes of the inverses that panicked. */
  lemma {:induction false} OnlyPanickedHarmed(g: Store, undo: seq<Inverse>, panics: set<nat>, n: Node)
    requires forall i :: 0 <= i < |undo| && undo[i].n == n ==> i !in panics
    ensures At(Replayed(g, undo, panics), n) == At(Replayed(g, undo, {}), n)
  {
    ReplayRestores(g, undo, panics, n);
    ReplayRestores(g, undo, {}, n);
    SameBefore(undo, panics, n);
  }

  lemma {:induction false} SameBefore(undo: seq<Inverse>, panics: set<nat>, n: Node)
    requires forall i :: 0 <= i < |undo| && undo[i].n == n ==> i !in panics
    ensures Before(undo, panics, n) == Before(undo, {}, n)
  {
    if undo != [] { SameBefore(Front(undo), panics, n); }
  }

  class UndoLog {
    var inverses: seq<Inverse>

    constructor ()
      ensures inverses == []
    {
      inverses := [];
    }

    method Record(inv: Inverse)
      modifies this
      ensures inverses == old(inverses) + [inv]
    {
      inverses := inverses + [inv];
    }

    /** Runs every inverse under its own guard and empties the log, so that a second call does nothing. */
    method Replay(g: Store, panics: set<nat>) returns (r: Store, ok: bool)
      modifies this
      ensures r == Replayed(g, old(inverses), panics) && inverses == []
      ensures ok <==> forall i :: 0 <= i < |old(inverses)| ==> i !in panics
    {
      r, ok := g, true;
      var i := |inverses|;
      assert inverses[..i] == inverses;
      while i > 0
        invariant 0 <= i <= |inverses| && inverses == old(inverses)
        invariant ok <==> forall j :: i <= j < |inverses| ==> j !in panics
        invariant Replayed(r, inverses[..i], panics) == Replayed(g, inverses, panics)
      {
        i := i - 1;
        assert inverses[..i + 1][..i] == inverses[..i];
        if i in panics { ok := false; } else { r := With(r, inverses[i].n, inverses[i].before); }
      }
      inverses := [];
    }
  }

  // ------------------------------------------------------------------ what a handle does, in order

  /** The transaction's own steps. */
  function Own(ops: seq<Op>, t: TxId): seq<Op> {
    if ops == [] then []
    else
      var rest := Own(ops[..|ops| - 1], t);
      if ops[|ops| - 1].t == t then rest + [ops[|ops| - 1]] else rest
  }

  datatype Write = Write(n: Node, v: Option<Val>, silent: bool)

  /** The write may be made: no other transaction still open has written the node, no commit to it is newer
      than the snapshot, and the value is free, or one the transaction has itself released. */
  ghost predicate Admits(s: Sys, t: TxId, w: Write) {
    && t in s.txs && s.txs[t].phase.Open?
    && (forall u, j :: u in s.txs && u != t && s.txs[u].phase.Holds() && 0 <= j < |s.txs[u].undo| ==> s.txs[u].undo[j].n != w.n)
    && (forall i :: s.txs[t].snapshot <= i < |s.slots| && s.slots[i].Done? ==> w.n !in s.slots[i].c.writes)
    && (w.v.Some? && w.v.value in s.claimed ==> w.v.value in s.txs[t].marks || At(s.store, w.n) == w.v)
  }

  /** The write is refused where it is made, and fails its statement. */
  ghost predicate Refuses(s: Sys, t: TxId, w: Write) { !w.silent && !Admits(s, t, w) }

  lemma AdmitsIsEnabled(s: Sys, wal: bool, t: TxId, w: Write)
    ensures Enabled(s, wal, Op.Set(t, w.n, w.v)) <==> Admits(s, t, w)
  {
    if Enabled(s, wal, Op.Set(t, w.n, w.v)) {
      forall u, j | u in s.txs && u != t && s.txs[u].phase.Holds() && 0 <= j < |s.txs[u].undo| ensures s.txs[u].undo[j].n != w.n {
        assert s.txs[u].undo[j].n in s.txs[u].Touched();
      }
    }
  }

  /** The writes made: those admitted in the states they met. */
  ghost function Made(t: TxId, ws: seq<Write>, met: seq<Sys>): seq<Op>
    requires |met| <= |ws|
    decreases |met|
  {
    if met == [] then []
    else
      var i := |met| - 1;
      Made(t, ws, met[..i]) + if Admits(met[i], t, ws[i]) then [Op.Set(t, ws[i].n, ws[i].v)] else []
  }

  lemma MadePush(t: TxId, ws: seq<Write>, met: seq<Sys>, s: Sys)
    requires |met| < |ws|
    ensures Made(t, ws, met + [s]) == Made(t, ws, met) + if Admits(s, t, ws[|met|]) then [Op.Set(t, ws[|met|].n, ws[|met|].v)] else []
  {
    assert (met + [s])[..|met|] == met;
  }

  /** The states are met in order in the later part of the run, and a write is made in the state that admits it. */
  ghost predicate MetIn(ops: seq<Op>, wal: bool, since: nat, t: TxId, ws: seq<Write>, at: seq<nat>, met: seq<Sys>) {
    && |at| == |met| <= |ws|
    && (forall i :: 0 <= i < |at| ==> since <= at[i] <= |ops| && met[i] == CommitRuns.Exec(ops[..at[i]], wal))
    && (forall i :: 0 <= i < |at| && Admits(met[i], t, ws[i]) ==> at[i] < |ops| && ops[at[i]] == Op.Set(t, ws[i].n, ws[i].v))
    && (forall i, j :: 0 <= i < j < |at| ==> at[i] <= at[j])
  }

  lemma NothingMet(ops: seq<Op>, wal: bool, t: TxId, ws: seq<Write>)
    ensures MetIn(ops, wal, |ops|, t, ws, [], []) && Made(t, ws, []) == [] && Sets(t, ws[..0]) == [] && ws[0..] == ws
  {
  }

  lemma MetLater(ops: seq<Op>, ops': seq<Op>, wal: bool, since: nat, t: TxId, ws: seq<Write>, at: seq<nat>, met: seq<Sys>)
    requires MetIn(ops, wal, since, t, ws, at, met) && ops <= ops'
    ensures MetIn(ops', wal, since, t, ws, at, met)
  {
    hide Admits, CommitRuns.Exec;
    forall i | 0 <= i < |at| ensures ops'[..at[i]] == ops[..at[i]] { }
  }

  lemma MetPush(ops: seq<Op>, ops': seq<Op>, wal: bool, since: nat, t: TxId, ws: seq<Write>, at: seq<nat>, met: seq<Sys>, k: nat, s: Sys)
    requires MetIn(ops, wal, since, t, ws, at, met) && ops <= ops' && |met| < |ws|
    requires since <= |ops| <= k <= |ops'| && s == CommitRuns.Exec(ops'[..k], wal)
    requires Admits(s, t, ws[|met|]) ==> k < |ops'| && ops'[k] == Op.Set(t, ws[|met|].n, ws[|met|].v)
    ensures MetIn(ops', wal, since, t, ws, at + [k], met + [s])
  {
    hide Admits, CommitRuns.Exec;
    MetLater(ops, ops', wal, since, t, ws, at, met);
  }

  function Sets(t: TxId, ws: seq<Write>): seq<Op> { seq(|ws|, i requires 0 <= i < |ws| => Op.Set(t, ws[i].n, ws[i].v)) }

  /** With nobody else about: every node free to write in the state given, every value free and asked for once. */
  ghost predicate AllFree(s: Sys, t: TxId, ws: seq<Write>) {
    && (forall i :: 0 <= i < |ws| ==> Admits(s, t, ws[i]) && (ws[i].v.Some? ==> ws[i].v.value !in s.claimed))
    && (forall i, j :: 0 <= i < j < |ws| && ws[i].v.Some? ==> ws[i].v != ws[j].v)
  }

  lemma StillFree(s: Sys, wal: bool, t: TxId, ws: seq<Write>)
    requires ws != [] && AllFree(s, t, ws) && Enabled(s, wal, Op.Set(t, ws[0].n, ws[0].v))
    ensures AllFree(Next(s, wal, Op.Set(t, ws[0].n, ws[0].v)), t, ws[1..])
  {
    hide Written;
  }

  lemma AloneNext(s: Sys, wal: bool, t: TxId, ws: seq<Write>, i: nat)
    requires i < |ws| && AllFree(s, t, ws[i..])
    ensures Admits(s, t, ws[i]) && Enabled(s, wal, Op.Set(t, ws[i].n, ws[i].v))
    ensures AllFree(Next(s, wal, Op.Set(t, ws[i].n, ws[i].v)), t, ws[i + 1..])
    ensures Sets(t, ws[..i + 1]) == Sets(t, ws[..i]) + [Op.Set(t, ws[i].n, ws[i].v)]
  {
    hide Admits, Next, Enabled;
    assert ws[i..][0] == ws[i] && ws[i..][1..] == ws[i + 1..];
    AdmitsIsEnabled(s, wal, t, ws[i]);
    StillFree(s, wal, t, ws[i..]);
  }

  /** Everything taken back, the last write first. */
  function UndoOps(t: TxId, n: nat, panics: set<nat>): seq<Op> {
    if n == 0 then [] else [if n - 1 in panics then Skip(t) else UndoOne(t)] + UndoOps(t, n - 1, panics)
  }

  lemma OneUndone(own: seq<Op>, t: TxId, n: nat, panics: set<nat>)
    requires n > 0
    ensures own + UndoOps(t, n, panics) == own + [if n - 1 in panics then Skip(t) else UndoOne(t)] + UndoOps(t, n - 1, panics)
  {
  }

  lemma NoneUndone(own: seq<Op>, t: TxId, panics: set<nat>)
    ensures own + UndoOps(t, 0, panics) == own
  {
  }

  /** Inside the bracket: refused, or not made durable, and taken back; or kept. */
  function VerdictOps(t: TxId, refused: bool, wal: bool, walOk: bool, n: nat, panics: set<nat>): seq<Op> {
    if refused then [Refuse(t)] + UndoOps(t, n, panics)
    else if !wal then []
    else if walOk then [Stamp(t), Sync(t, true)]
    else [Stamp(t), Sync(t, false)] + UndoOps(t, n, panics)
  }

  function SettleOps(t: TxId, wal: bool, kept: bool): seq<Op> {
    if !kept then [Abort(t)] else if wal then [Publish(t)] else [Stamp(t), Publish(t)]
  }

  /** The ending: visible, then its vacated values free; or aborted. The bracket last. */
  function EndOps(t: TxId, wal: bool, kept: bool, entered: bool): seq<Op> {
    SettleOps(t, wal, kept) + (if kept then [Free(t)] else []) + (if entered then [Exit(t)] else [])
  }

  function CommitOps(t: TxId, refused: bool, wal: bool, walOk: bool, n: nat, panics: set<nat>): seq<Op> {
    [Enter(t)] + VerdictOps(t, refused, wal, walOk, n, panics) + EndOps(t, wal, !refused && (wal ==> walOk), true)
  }

  function RollbackOps(t: TxId, n: nat, panics: set<nat>): seq<Op> {
    [Op.Rollback(t)] + UndoOps(t, n, panics) + EndOps(t, false, false, false)
  }

  lemma OwnPush(ops: seq<Op>, op: Op, t: TxId)
    ensures Own(ops + [op], t) == if op.t == t then Own(ops, t) + [op] else Own(ops, t)
  {
    assert (ops + [op])[..|ops|] == ops;
  }

  /** A transaction's last write to a node is the last among its own steps. */
  lemma {:induction false} OwnLast(ops: seq<Op>, t: TxId, n: Node)
    ensures LastSet(ops, t, n) == LastSet(Own(ops, t), t, n)
  {
    if ops != [] {
      var front, op := ops[..|ops| - 1], ops[|ops| - 1];
      OwnLast(front, t, n);
      if op.t == t { LastSetPush(Own(front, t), op, t, n); }
    }
  }

  lemma {:induction false} NoneSet(own: seq<Op>, more: seq<Op>, t: TxId, n: Node)
    requires forall i :: 0 <= i < |more| ==> !more[i].Set?
    ensures LastSet(own + more, t, n) == LastSet(own, t, n)
    decreases |more|
  {
    if more == [] {
      assert own + more == own;
    } else {
      assert own + more == (own + more[..|more| - 1]) + [more[|more| - 1]];
      LastSetPush(own + more[..|more| - 1], more[|more| - 1], t, n);
      NoneSet(own, more[..|more| - 1], t, n);
    }
  }

  lemma {:induction false} SetsLater(was: seq<Op>, ops: seq<Op>, t: TxId, more: seq<Op>)
    requires Own(ops, t) == Own(was, t) + more && forall i :: 0 <= i < |more| ==> !more[i].Set?
    ensures forall n :: LastSet(ops, t, n) == LastSet(was, t, n)
  {
    hide LastSet, Own;
    forall n ensures LastSet(ops, t, n) == LastSet(was, t, n) {
      OwnLast(ops, t, n);
      OwnLast(was, t, n);
      NoneSet(Own(was, t), more, t, n);
    }
  }

  lemma CommitIs(t: TxId, refused: bool, wal: bool, walOk: bool, n: nat, panics: set<nat>)
    ensures CommitOps(t, refused, wal, walOk, n, panics) ==
      [Enter(t)] + VerdictOps(t, refused, wal, walOk, n, panics) + EndOps(t, wal, !refused && (wal ==> walOk), true)
    ensures !wal ==> CommitOps(t, refused, wal, walOk, n, panics) == CommitOps(t, refused, wal, true, n, panics)
  {
  }

  lemma CommitSets(t: TxId, wal: bool, n: nat, panics: set<nat>)
    ensures var more := CommitOps(t, false, wal, true, n, panics);
      && (forall i :: 0 <= i < |more| ==> !more[i].Set?)
      && more == if wal then [Enter(t), Stamp(t), Sync(t, true), Publish(t), Free(t), Exit(t)]
                 else [Enter(t), Stamp(t), Publish(t), Free(t), Exit(t)]
  {
  }

  /** A kept transaction is visible whole, as it wrote last; at once and at the end of all there is to see when
      nobody else is about. */
  lemma KeptShows(was: seq<Op>, ops: seq<Op>, wal: bool, t: TxId, n: nat, panics: set<nat>)
    requires Ran(ops, wal) && CommitSafety.PublishedTx(Exec(ops, wal), t)
    requires Own(ops, t) == Own(was, t) + CommitOps(t, false, wal, true, n, panics)
    ensures exists i :: MadeVisible(Exec(ops, wal), t, was, i)
    ensures ops == was + CommitOps(t, false, wal, true, n, panics) ==> NowShows(Exec(was, wal), Exec(ops, wal), t, was)
  {
    hide Exec, Own, Ran, LastSet, CommitOps, MadeVisible, NowShows;
    var more := CommitOps(t, false, wal, true, n, panics);
    CommitSets(t, wal, n, panics);
    SetsLater(was, ops, t, more);
    var i: nat :| i < |Exec(ops, wal).slots| && Exec(ops, wal).slots[i].Done? && Exec(ops, wal).slots[i].c.t == t;
    IsVisible(ops, wal, was, t, i);
    if ops == was + more {
      AloneTakesNext(was, wal, t, more);
      IsVisible(ops, wal, was, t, |Exec(was, wal).slots|);
      AloneShows(Exec(was, wal), Exec(ops, wal), t, was);
    }
  }

  lemma ExecPush(ops: seq<Op>, op: Op, wal: bool)
    ensures var s := Exec(ops, wal); Exec(ops + [op], wal) == if Enabled(s, wal, op) then Next(s, wal, op) else s
  {
    assert (ops + [op])[..|ops|] == ops;
  }

  lemma RanPush(ops: seq<Op>, op: Op, wal: bool)
    requires Ran(ops, wal) && Enabled(Exec(ops, wal), wal, op)
    ensures Ran(ops + [op], wal)
  {
    hide Enabled;
    assert (ops + [op])[..|ops|] == ops;
  }

  /** What may come next of a transaction whatever the others do. */
  predicate Ready(tx: Tx, wal: bool, op: Op) {
    match op
    case Begin(_, _) => false
    case Set(_, _, _) => false
    case Fail(_) => tx.phase.Open?
    case Enter(_) => tx.phase.Open? && !tx.failed
    case Refuse(_) => tx.phase.Inside? && tx.slot.None?
    case Stamp(_) => tx.phase.Inside? && tx.slot.None?
    case Sync(_, _) => wal && tx.phase.Inside? && tx.slot.Some?
    case Publish(_) => tx.phase == (if wal then Durable else Inside) && tx.slot.Some?
    case Free(_) => tx.phase.Published?
    case Exit(_) => tx.phase.Freed? || tx.phase.Aborted?
    case Rollback(_) => tx.phase.Open?
    case UndoOne(_) => tx.phase.Undoing? && tx.undo != []
    case Skip(_) => tx.phase.Undoing? && tx.undo != []
    case Abort(_) => tx.phase.Undoing? && tx.undo == []
  }

  function PhaseAfter(p: Phase, op: Op): Phase {
    match op
    case Enter(_) => Inside
    case Refuse(_) => Undoing(true)
    case Sync(_, ok) => if ok then Durable else Undoing(true)
    case Publish(_) => Published
    case Free(_) => Freed
    case Exit(_) => Closed(p.Freed?)
    case Rollback(_) => Undoing(false)
    case Abort(_) => if p.Undoing? && p.inside then Aborted else Closed(false)
    case _ => p
  }

  predicate Advanced(tx: Tx, tx': Tx, op: Op) {
    && tx'.phase == PhaseAfter(tx.phase, op)
    && (tx'.slot.Some? <==> tx.slot.Some? || op.Stamp?)
    && tx'.undo == (if (op.UndoOne? || op.Skip?) && tx.undo != [] then Front(tx.undo) else if op.Publish? then [] else tx.undo)
    && (tx'.failed <==> tx.failed || op.Fail?)
  }

  // ------------------------------------------------------------------ the engine

  /** `schedule` is what the other transactions do before each of the handle's next steps: anything. */
  class Engine {
    const wal: bool
    var sys: Sys
    var failStopped: bool
    var schedule: seq<seq<Op>>
    ghost var ops: seq<Op>

    ghost predicate Valid() reads this { sys == Exec(ops, wal) && Ran(ops, wal) }

    constructor (wal: bool, schedule: seq<seq<Op>>)
      ensures Valid() && this.wal == wal && ops == [] && !failStopped
    {
      this.wal, sys, failStopped, this.schedule, ops := wal, Start, false, schedule, [];
    }

    method Do(op: Op)
      requires Valid() && Enabled(sys, wal, op)
      modifies this`sys, this`ops
      ensures Valid() && sys == Next(old(sys), wal, op)
      ensures ops == old(ops) + [op] && forall t :: Own(ops, t) == if op.t == t then Own(old(ops), t) + [op] else Own(old(ops), t)
    {
      hide Ran, Own, Exec, Next, Enabled;
      forall t ensures Own(ops + [op], t) == if op.t == t then Own(ops, t) + [op] else Own(ops, t) { OwnPush(ops, op, t); }
      ExecPush(ops, op, wal);
      RanPush(ops, op, wal);
      sys, ops := Next(sys, wal, op), ops + [op];
    }

    /** The others' turn. */
    method Turn(t: TxId)
      requires Valid()
      modifies this`sys, this`ops, this`schedule
      ensures Valid() && old(ops) <= ops && Own(ops, t) == Own(old(ops), t)
      ensures (t in sys.txs <==> t in old(sys.txs)) && (t in sys.txs ==> sys.txs[t] == old(sys.txs)[t])
      ensures old(schedule) == [] ==> schedule == [] && ops == old(ops) && sys == old(sys)
    {
      if schedule == [] { return; }
      var turn := schedule[0];
      schedule := schedule[1..];
      for i := 0 to |turn|
        invariant Valid() && old(ops) <= ops && Own(ops, t) == Own(old(ops), t)
        invariant (t in sys.txs <==> t in old(sys.txs)) && (t in sys.txs ==> sys.txs[t] == old(sys.txs)[t])
      {
        if turn[i].t != t && Enabled(sys, wal, turn[i]) {
          OneMoves(sys, wal, turn[i], t);
          Do(turn[i]);
        }
      }
    }

    /** One step of the handle's, after the others' turn. */
    method Step(op: Op)
      requires Valid() && op.t in sys.txs && Ready(sys.txs[op.t], wal, op)
      modifies this`sys, this`ops, this`schedule
      ensures Valid() && Own(ops, op.t) == Own(old(ops), op.t) + [op]
      ensures old(ops) <= ops
      ensures op.t in sys.txs && Advanced(old(sys.txs)[op.t], sys.txs[op.t], op)
      ensures old(schedule) == [] ==> schedule == [] && ops == old(ops) + [op]
    {
      Turn(op.t);
      ReadyIsEnabled(sys, wal, op);
      Do(op);
    }

    /** The contiguous commit frontier. */
    method Frontier() returns (k: nat)
      ensures k <= |sys.slots| && Settled(sys.slots[..k]) && (k < |sys.slots| ==> sys.slots[k].Pending?)
    {
      k := 0;
      while k < |sys.slots| && !sys.slots[k].Pending?
        invariant k <= |sys.slots| && Settled(sys.slots[..k])
      {
        k := k + 1;
      }
    }
  }

  lemma OneMoves(s: Sys, wal: bool, op: Op, t: TxId)
    requires Enabled(s, wal, op) && op.t != t
    ensures var s' := Next(s, wal, op); (t in s'.txs <==> t in s.txs) && (t in s.txs ==> s'.txs[t] == s.txs[t])
  {
    hide Written, Unmarked, WritesOf;
  }

  lemma ReadyIsEnabled(s: Sys, wal: bool, op: Op)
    requires op.t in s.txs && Ready(s.txs[op.t], wal, op)
    ensures Enabled(s, wal, op)
    ensures op.t in Next(s, wal, op).txs && Advanced(s.txs[op.t], Next(s, wal, op).txs[op.t], op)
  {
    hide Written, Unmarked, WritesOf;
  }

  // ------------------------------------------------------------------ the handle

  datatype Outcome = Ok | TxFinished | TxPoisoned | FailStopped | ReadOnlyWrite | Pipeline
    | Conflict(undoFailed: bool) | Violation(undoFailed: bool) | WalFailed(undoFailed: bool) | UndoFailed

  class ExplicitTx {
    const eng: Engine
    const id: TxId
    const readOnly: bool
    const view: nat             // the instant a read-only one reads at
    var finished: bool
    var failed: bool
    var doomed: bool            // a primitive that returns no error recorded a conflict
    var entered: bool           // holds a place in the bracket
    var abandoned: bool
    var releasesOwed: bool
    ghost const begun: nat
    ghost const seen: Store

    /** Unfinished, it is open in the engine; finished, it has ended there, and holds nothing. */
    ghost predicate Valid() reads this, eng {
      && eng.Valid() && !releasesOwed && !entered
      && (readOnly ==> !failed && begun <= |eng.ops| && Fixed(CommitRuns.Exec(eng.ops[..begun], eng.wal)))
      && (!readOnly ==> id in eng.sys.txs && var tx := eng.sys.txs[id];
            if finished then tx.phase.Closed? else tx.phase.Open? && tx.slot.None? && tx.failed == failed && !abandoned)
    }

    ghost predicate Fixed(s: Sys) { view <= |s.slots| && Settled(s.slots[..view]) && seen == ShownAt(s, view) }

    constructor Begin(e: Engine, t: TxId)
      requires e.Valid() && t !in e.sys.txs
      modifies e`sys, e`ops, e`schedule
      ensures Valid() && eng == e && id == t && !readOnly && !finished && !failed && !doomed
      ensures e.sys.txs[t].undo == [] && exists k :: Own(e.ops, t) == Own(old(e.ops), t) + [Op.Begin(t, k)]
    {
      eng, id, readOnly, view, begun, seen := e, t, false, 0, 0, map[];
      finished, failed, doomed, entered, abandoned, releasesOwed := false, false, false, false, false, false;
      new;
      e.Turn(t);
      var k := e.Frontier();
      e.Do(Op.Begin(t, k));
    }

    constructor BeginRead(e: Engine)
      requires e.Valid()
      ensures Valid() && eng == e && readOnly && !finished
      ensures view <= |e.sys.slots| && Settled(e.sys.slots[..view]) && (view < |e.sys.slots| ==> e.sys.slots[view].Pending?)
      ensures seen == ShownAt(e.sys, view)
    {
      var k := e.Frontier();
      eng, id, readOnly, view, begun, seen := e, 0, true, k, |e.ops|, ShownAt(e.sys, k);
      finished, failed, doomed, entered, abandoned, releasesOwed := false, false, false, false, false, false;
      new;
      assert e.ops[..|e.ops|] == e.ops;
    }

    /** A read-only transaction reads, at any time, what was visible when it began. */
    method Read(n: Node) returns (v: Option<Val>)
      requires Valid() && readOnly
      modifies eng`sys, eng`ops, eng`schedule
      ensures Valid() && v == At(seen, n)
    {
      eng.Turn(id);
      var was := eng.ops[..begun];
      assert old(eng.ops)[..begun] == was && eng.ops == was + eng.ops[begun..];
      CommitSafety.SnapshotStands(was, eng.ops[begun..], eng.wal, view);
      v := At(ShownAt(eng.sys, view), n);
    }

    /** One write, in the state it meets once the others have had their turn. */
    method TryWrite(w: Write) returns (ok: bool, ghost at: nat, ghost met: Sys)
      requires Valid() && !finished && !readOnly
      modifies eng`sys, eng`ops, eng`schedule
      ensures Valid() && old(eng.ops) <= eng.ops && |old(eng.ops)| <= at <= |eng.ops|
      ensures met == CommitRuns.Exec(eng.ops[..at], eng.wal) && (ok <==> Admits(met, id, w))
      ensures ok ==> at < |eng.ops| && eng.ops[at] == Op.Set(id, w.n, w.v)
      ensures Own(eng.ops, id) == Own(old(eng.ops), id) + if ok then [Op.Set(id, w.n, w.v)] else []
      ensures old(eng.schedule) == [] ==> eng.schedule == [] && met == old(eng.sys) && at == |old(eng.ops)|
      ensures old(eng.schedule) == [] && ok ==>
        Enabled(met, eng.wal, Op.Set(id, w.n, w.v)) && eng.ops == old(eng.ops) + [Op.Set(id, w.n, w.v)]
        && eng.sys == Next(met, eng.wal, Op.Set(id, w.n, w.v))
    {
      hide Own, Ran, CommitRuns.Exec;
      eng.Turn(id);
      var op := Op.Set(id, w.n, w.v);
      at, met := |eng.ops|, eng.sys;
      assert eng.ops[..at] == eng.ops;
      AdmitsIsEnabled(met, eng.wal, id, w);
      ok := Enabled(eng.sys, eng.wal, op);
      if ok {
        eng.Do(op);
        assert eng.ops[..at] == old(eng.ops) + eng.ops[|old(eng.ops)|..at];
      }
    }

    /** The writes in turn, up to one that is refused and not merely recorded. */
    method TryEach(ws: seq<Write>) returns (refused: bool, ghost at: seq<nat>, ghost met: seq<Sys>)
      requires Valid() && !finished && !readOnly
      modifies this`doomed, eng`sys, eng`ops, eng`schedule
      ensures Valid() && old(eng.ops) <= eng.ops && MetIn(eng.ops, eng.wal, |old(eng.ops)|, id, ws, at, met)
      ensures refused <==> exists i :: 0 <= i < |met| && Refuses(met[i], id, ws[i])
      ensures |met| == |ws| || refused
      ensures forall i :: 0 <= i < |met| - 1 ==> !Refuses(met[i], id, ws[i])
      ensures doomed <==> old(doomed) || exists i :: 0 <= i < |met| && ws[i].silent && !Admits(met[i], id, ws[i])
      ensures Own(eng.ops, id) == Own(old(eng.ops), id) + Made(id, ws, met)
      ensures old(eng.schedule) == [] ==> eng.schedule == []
      ensures old(eng.schedule) == [] && AllFree(old(eng.sys), id, ws) ==>
        !refused && doomed == old(doomed) && eng.ops == old(eng.ops) + Sets(id, ws)
    {
      hide Own, Ran, CommitRuns.Exec, Admits, Next, Enabled, Made, Sets, AllFree, MetIn;
      refused, at, met := false, [], [];
      ghost var alone := eng.schedule == [] && AllFree(eng.sys, id, ws);
      NothingMet(eng.ops, eng.wal, id, ws);
      for i := 0 to |ws|
        invariant Valid() && !refused && |met| == i
        invariant old(eng.ops) <= eng.ops && MetIn(eng.ops, eng.wal, |old(eng.ops)|, id, ws, at, met)
        invariant forall j :: 0 <= j < i ==> !Refuses(met[j], id, ws[j])
        invariant doomed <==> old(doomed) || exists j :: 0 <= j < i && ws[j].silent && !Admits(met[j], id, ws[j])
        invariant Own(eng.ops, id) == Own(old(eng.ops), id) + Made(id, ws, met)
        invariant old(eng.schedule) == [] ==> eng.schedule == []
        invariant alone ==> AllFree(eng.sys, id, ws[i..]) && doomed == old(doomed) && eng.ops == old(eng.ops) + Sets(id, ws[..i])
      {
        ghost var was := eng.ops;
        var ok;
        ghost var k, s;
        ok, k, s := TryWrite(ws[i]);
        MetPush(was, eng.ops, eng.wal, |old(eng.ops)|, id, ws, at, met, k, s);
        MadePush(id, ws, met, s);
        if alone { AloneNext(s, eng.wal, id, ws, i); }
        at, met := at + [k], met + [s];
        if !ok && !ws[i].silent {
          refused := true;
          return;
        }
        if !ok { doomed := true; }
      }
      assert ws[..|ws|] == ws;
    }

    /** A statement fails, and the transaction with it. */
    method Poison(ghost ws: seq<Write>, ghost at: seq<nat>, ghost met: seq<Sys>, ghost since: nat)
      requires Valid() && !finished && !readOnly && MetIn(eng.ops, eng.wal, since, id, ws, at, met)
      modifies this`failed, eng`sys, eng`ops, eng`schedule
      ensures Valid() && failed && old(eng.ops) <= eng.ops && MetIn(eng.ops, eng.wal, since, id, ws, at, met)
      ensures Own(eng.ops, id) == Own(old(eng.ops), id) + [Fail(id)]
      ensures old(eng.schedule) == [] ==> eng.schedule == []
    {
      hide Own, Ran, CommitRuns.Exec, MetIn;
      eng.Step(Fail(id));
      failed := true;
      MetLater(old(eng.ops), eng.ops, eng.wal, since, id, ws, at, met);
    }

    /** The writes of one statement. One that is refused fails the statement, or is recorded; a statement that
        fails part-way leaves what it wrote, and poisons the transaction. `met` are the states its writes met. */
    method Exec(ws: seq<Write>, fails: bool) returns (r: Outcome, ghost at: seq<nat>, ghost met: seq<Sys>)
      requires Valid()
      modifies this`failed, this`doomed, eng`sys, eng`ops, eng`schedule
      ensures Valid()
      ensures old(finished) ==> r.TxFinished?
      ensures !old(finished) && readOnly ==> r == if ws != [] then ReadOnlyWrite else Ok
      ensures finished || readOnly ==> eng.ops == old(eng.ops) && failed == old(failed) && doomed == old(doomed)
      ensures !finished && !readOnly ==> old(eng.ops) <= eng.ops && MetIn(eng.ops, eng.wal, |old(eng.ops)|, id, ws, at, met)
      ensures !finished && !readOnly ==>
        && (r.Ok? || r.Pipeline?) && failed == (old(failed) || r.Pipeline?)
        && (r.Ok? <==> |met| == |ws| && !fails && forall i :: 0 <= i < |met| ==> !Refuses(met[i], id, ws[i]))
        && (forall i :: 0 <= i < |met| - 1 ==> !Refuses(met[i], id, ws[i]))
        && (|met| < |ws| ==> met != [] && Refuses(met[|met| - 1], id, ws[|met| - 1]))
        && (doomed <==> old(doomed) || exists i :: 0 <= i < |met| && ws[i].silent && !Admits(met[i], id, ws[i]))
        && Own(eng.ops, id) == Own(old(eng.ops), id) + Made(id, ws, met) + if r.Ok? then [] else [Fail(id)]
      ensures !finished && !readOnly && !old(doomed) ==>
        (r.Ok? && !doomed <==> |met| == |ws| && !fails && forall i :: 0 <= i < |met| ==> Admits(met[i], id, ws[i]))
      ensures old(eng.schedule) == [] ==> eng.schedule == []
      ensures !finished && !readOnly && old(eng.schedule) == [] && AllFree(old(eng.sys), id, ws) && !fails ==>
        r.Ok? && doomed == old(doomed) && eng.ops == old(eng.ops) + Sets(id, ws)
    {
      hide Own, Ran, CommitRuns.Exec, Admits, Next, Enabled, Made, Sets, AllFree;
      at, met := [], [];
      if finished { return TxFinished, at, met; }
      if readOnly { return if ws != [] then ReadOnlyWrite else Ok, at, met; }
      var refused;
      refused, at, met := TryEach(ws);
      if refused || fails {
        Poison(ws, at, met, |old(eng.ops)|);
        return Pipeline, at, met;
      }
      return Ok, at, met;
    }

    /** Takes everything back, inside the barrier; an inverse that panics is skipped and reported. */
    method RollbackInBarrier(panics: set<nat>) returns (undoOK: bool)
      requires eng.Valid() && id in eng.sys.txs && eng.sys.txs[id].phase.Undoing?
      modifies this`abandoned, this`releasesOwed, eng`sys, eng`ops, eng`schedule
      ensures eng.Valid() && id in eng.sys.txs && abandoned && !releasesOwed
      ensures var tx, was := eng.sys.txs[id], old(eng.sys.txs)[id]; tx.phase == was.phase && tx.undo == [] && tx.slot.Some? == was.slot.Some?
      ensures Own(eng.ops, id) == Own(old(eng.ops), id) + UndoOps(id, |old(eng.sys.txs)[id].undo|, panics)
      ensures undoOK <==> forall i :: 0 <= i < |old(eng.sys.txs)[id].undo| ==> i !in panics
    {
      hide CommitRuns.Exec, Ran, Next, Enabled, Own;
      hide UndoOps;
      abandoned, undoOK := true, true;
      var n := |eng.sys.txs[id].undo|;
      ghost var all, own := n, Own(eng.ops, id);
      while n > 0
        invariant eng.Valid() && id in eng.sys.txs && n == |eng.sys.txs[id].undo| <= all
        invariant abandoned && eng.sys.txs[id].phase == old(eng.sys.txs)[id].phase && eng.sys.txs[id].slot.Some? == old(eng.sys.txs)[id].slot.Some?
        invariant Own(eng.ops, id) + UndoOps(id, n, panics) == own + UndoOps(id, all, panics)
        invariant undoOK <==> forall i :: n <= i < all ==> i !in panics
      {
        OneUndone(Own(eng.ops, id), id, n, panics);
        eng.Step(if n - 1 in panics then Skip(id) else UndoOne(id));
        if n - 1 in panics { undoOK := false; }
        n := n - 1;
      }
      NoneUndone(Own(eng.ops, id), id, panics);
      releasesOwed := false;
    }

    /** Publishes the transaction's record, or marks it aborted. */
    method EndVersioned()
      requires eng.Valid() && id in eng.sys.txs && Decidable(eng.sys.txs[id])
      modifies eng`sys, eng`ops, eng`schedule
      ensures eng.Valid() && id in eng.sys.txs
      ensures eng.sys.txs[id].phase == if !abandoned then Published else if entered then Aborted else Closed(false)
      ensures Own(eng.ops, id) == Own(old(eng.ops), id) + SettleOps(id, eng.wal, !abandoned)
      ensures old(eng.schedule) == [] ==> eng.schedule == [] && eng.ops == old(eng.ops) + SettleOps(id, eng.wal, !abandoned)
    {
      hide CommitRuns.Exec, Ran, Next, Enabled, Own;
      if abandoned {
        eng.Step(Abort(id));
      } else {
        if !eng.wal { eng.Step(Stamp(id)); }
        eng.Step(Publish(id));
      }
    }

    predicate Decidable(tx: Tx) reads this, eng {
      if abandoned then tx.phase == Undoing(entered) && tx.undo == []
      else tx.phase == (if eng.wal then Durable else Inside) && (eng.wal <==> tx.slot.Some?) && entered
    }

    method LeaveBracket()
      requires eng.Valid() && id in eng.sys.txs
      requires var p := eng.sys.txs[id].phase; if entered then p.Freed? || p.Aborted? else p.Closed?
      modifies this`entered, eng`sys, eng`ops, eng`schedule
      ensures eng.Valid() && id in eng.sys.txs && !entered
      ensures var p := old(eng.sys.txs)[id].phase; eng.sys.txs[id].phase == if old(entered) then Closed(p.Freed?) else p
      ensures Own(eng.ops, id) == Own(old(eng.ops), id) + if old(entered) then [Exit(id)] else []
      ensures old(eng.schedule) == [] ==> eng.schedule == [] && eng.ops == old(eng.ops) + if old(entered) then [Exit(id)] else []
    {
      hide CommitRuns.Exec, Ran, Next, Enabled, Own;
      if entered {
        eng.Step(Exit(id));
        entered := false;
      }
    }

    /** Ends the transaction exactly once, then gives back everything it holds, the bracket last. */
    method Release()
      requires eng.Valid() && !finished
      requires readOnly ==> !releasesOwed && !entered
      requires !readOnly ==> id in eng.sys.txs && Decidable(eng.sys.txs[id]) && releasesOwed == !abandoned
      modifies this`finished, this`entered, this`releasesOwed, eng`sys, eng`ops, eng`schedule
      ensures finished && !entered && !releasesOwed && eng.Valid()
      ensures readOnly ==> eng.ops == old(eng.ops)
      ensures !readOnly ==> id in eng.sys.txs && eng.sys.txs[id].phase == Closed(!abandoned)
      ensures !readOnly ==> Own(eng.ops, id) == Own(old(eng.ops), id) + EndOps(id, eng.wal, !abandoned, old(entered))
      ensures !readOnly && old(eng.schedule) == [] ==>
        eng.schedule == [] && eng.ops == old(eng.ops) + EndOps(id, eng.wal, !abandoned, old(entered))
    {
      hide CommitRuns.Exec, Ran, Next, Enabled, Own, SettleOps;
      finished := true;
      if readOnly { return; }
      EndVersioned();
      if releasesOwed {
        releasesOwed := false;
        eng.Step(Free(id));
      }
      LeaveBracket();
    }

    /** What has become of the transaction, whoever asks: published, its record in the log first, or nothing. */
    ghost predicate Decided(kept: bool) reads this, eng {
      && eng.sys == CommitRuns.Exec(eng.ops, eng.wal) && CommitSafety.Holdless(eng.sys, id)
      && (kept <==> CommitSafety.PublishedTx(eng.sys, id))
      && (!kept ==> forall c :: c in eng.sys.log ==> c.t != id)
      && (kept && eng.wal ==> exists c :: c in eng.sys.log && c.t == id)
    }

    /** Keeps the transaction's writes, durable before any is visible; or reports why not and takes all of them
        back. Whatever the others do in between, these are its steps. A finished or poisoned one is refused and
        left as it is. */
    method Commit(violates: bool, walOk: bool, panics: set<nat>) returns (r: Outcome)
      requires Valid()
      modifies this, eng`sys, eng`ops, eng`schedule
      ensures Valid()
      ensures old(finished) ==> r.TxFinished? && eng.ops == old(eng.ops)
      ensures !old(finished) && readOnly ==> r.Ok? && finished && eng.ops == old(eng.ops)
      ensures !old(finished) && !readOnly && old(failed) ==> r.TxPoisoned? && !finished && eng.ops == old(eng.ops)
      ensures !old(finished) && !readOnly && !old(failed) ==>
        && finished && Decided(r.Ok?)
        && (r.Ok? <==> !eng.failStopped && !old(doomed) && !violates && (eng.wal ==> walOk))
        && var n := |old(eng.sys.txs)[id].undo|;
          Own(eng.ops, id) == Own(old(eng.ops), id) +
            if eng.failStopped then RollbackOps(id, n, panics)
            else CommitOps(id, old(doomed) || violates, eng.wal, walOk, n, panics)
      ensures !old(finished) && !readOnly && r.Ok? ==> exists i :: MadeVisible(eng.sys, id, old(eng.ops), i)
      ensures !old(finished) && !readOnly && r.Ok? && old(eng.schedule) == [] ==> NowShows(old(eng.sys), eng.sys, id, old(eng.ops))
      ensures !old(finished) && !readOnly && !old(failed) && !r.Ok? ==>
        var harmed := exists i :: 0 <= i < |old(eng.sys.txs)[id].undo| && i in panics;
        r == if eng.failStopped then FailStopped else if old(doomed) then Conflict(harmed) else if violates then Violation(harmed) else WalFailed(harmed)
    {
      hide CommitRuns.Exec, Ran, Next, Enabled, Own, UndoOps, VerdictOps, EndOps, Advanced, Decided, MadeVisible, NowShows;
      if finished { return TxFinished; }
      if readOnly {
        Release();
        return Ok;
      }
      if failed { return TxPoisoned; }
      if eng.failStopped {
        var _ := Rollback(panics);
        return FailStopped;
      }
      r := EnterAndFinish(violates, walOk, panics);
    }

    method EnterAndFinish(violates: bool, walOk: bool, panics: set<nat>) returns (r: Outcome)
      requires Valid() && !finished && !readOnly && !failed
      modifies this, eng`sys, eng`ops, eng`schedule
      ensures Valid() && finished && Decided(r.Ok?)
      ensures r.Ok? <==> !old(doomed) && !violates && (eng.wal ==> walOk)
      ensures Own(eng.ops, id) == Own(old(eng.ops), id) +
        CommitOps(id, old(doomed) || violates, eng.wal, walOk, |old(eng.sys.txs)[id].undo|, panics)
      ensures r.Ok? ==> exists i :: MadeVisible(eng.sys, id, old(eng.ops), i)
      ensures old(eng.schedule) == [] && r.Ok? ==> eng.schedule == [] && NowShows(old(eng.sys), eng.sys, id, old(eng.ops))
      ensures !r.Ok? ==>
        var harmed := exists i :: 0 <= i < |old(eng.sys.txs)[id].undo| && i in panics;
        r == if old(doomed) then Conflict(harmed) else if violates then Violation(harmed) else WalFailed(harmed)
    {
      hide CommitRuns.Exec, Ran, Next, Enabled, Own, UndoOps, VerdictOps, EndOps;
      hide CommitOps, MadeVisible, NowShows;
      eng.Step(Enter(id));
      entered := true;
      r := Finalise(violates, walOk, panics);
      Release();
      CommitSafety.ClosedIs(eng.ops, eng.wal, id);
      CommitIs(id, old(doomed) || violates, eng.wal, walOk, |old(eng.sys.txs)[id].undo|, panics);
      if r.Ok? {
        CommitIs(id, false, eng.wal, true, |old(eng.sys.txs)[id].undo|, panics);
        KeptShows(old(eng.ops), eng.ops, eng.wal, id, |old(eng.sys.txs)[id].undo|, panics);
      }
    }

    /** The instant first, then the record that carries it. */
    method CommitWALOnly(walOk: bool)
      requires eng.Valid() && eng.wal && id in eng.sys.txs && eng.sys.txs[id].phase.Inside? && eng.sys.txs[id].slot.None?
      modifies eng`sys, eng`ops, eng`schedule
      ensures eng.Valid() && id in eng.sys.txs
      ensures var tx, was := eng.sys.txs[id], old(eng.sys.txs)[id];
        tx.phase == (if walOk then Durable else Undoing(true)) && tx.slot.Some? && tx.undo == was.undo
      ensures Own(eng.ops, id) == Own(old(eng.ops), id) + [Stamp(id), Sync(id, walOk)]
      ensures old(eng.schedule) == [] ==> eng.schedule == [] && eng.ops == old(eng.ops) + [Stamp(id), Sync(id, walOk)]
    {
      hide CommitRuns.Exec, Ran, Next, Enabled, Own;
      eng.Step(Stamp(id));
      eng.Step(Sync(id, walOk));
    }

    /** The verdict, inside the barrier: the recorded conflict, then the constraints, then the log. */
    method Finalise(violates: bool, walOk: bool, panics: set<nat>) returns (r: Outcome)
      requires eng.Valid() && id in eng.sys.txs && eng.sys.txs[id].phase.Inside? && eng.sys.txs[id].slot.None?
      requires entered && !releasesOwed && !abandoned
      modifies this`abandoned, this`releasesOwed, eng`sys, eng`ops, eng`schedule
      ensures eng.Valid() && id in eng.sys.txs && releasesOwed == !abandoned == r.Ok?
      ensures r.Ok? <==> !doomed && !violates && (eng.wal ==> walOk)
      ensures entered && Decidable(eng.sys.txs[id])
      ensures Own(eng.ops, id) == Own(old(eng.ops), id) +
        VerdictOps(id, doomed || violates, eng.wal, walOk, |old(eng.sys.txs)[id].undo|, panics)
      ensures old(eng.schedule) == [] && r.Ok? ==>
        eng.schedule == [] && eng.ops == old(eng.ops) + VerdictOps(id, false, eng.wal, true, |old(eng.sys.txs)[id].undo|, panics)
      ensures !r.Ok? ==>
        var harmed := exists i :: 0 <= i < |old(eng.sys.txs)[id].undo| && i in panics;
        r == if doomed then Conflict(harmed) else if violates then Violation(harmed) else WalFailed(harmed)
    {
      hide CommitRuns.Exec, Ran, Next, Enabled, Own, UndoOps;
      if doomed {
        eng.Step(Refuse(id));
        var ok := RollbackInBarrier(panics);
        return Conflict(!ok);
      }
      if violates {
        eng.Step(Refuse(id));
        var ok := RollbackInBarrier(panics);
        return Violation(!ok);
      }
      if eng.wal {
        CommitWALOnly(walOk);
        if !walOk {
          var ok := RollbackInBarrier(panics);
          return WalFailed(!ok);
        }
      }
      releasesOwed := true;
      return Ok;
    }

    /** Takes everything back and ends the transaction, poisoned or not; the second time it is refused. */
    method Rollback(panics: set<nat>) returns (r: Outcome)
      requires Valid()
      modifies this`finished, this`entered, this`abandoned, this`releasesOwed, eng`sys, eng`ops, eng`schedule
      ensures Valid() && finished
      ensures old(finished) ==> r.TxFinished? && eng.ops == old(eng.ops)
      ensures !old(finished) && readOnly ==> r.Ok? && eng.ops == old(eng.ops)
      ensures !old(finished) && !readOnly ==>
        && Decided(false)
        && Own(eng.ops, id) == Own(old(eng.ops), id) + RollbackOps(id, |old(eng.sys.txs)[id].undo|, panics)
        && r == if exists i :: 0 <= i < |old(eng.sys.txs)[id].undo| && i in panics then UndoFailed else Ok
    {
      hide CommitRuns.Exec, Ran, Next, Enabled, Own, UndoOps;
      if finished { return TxFinished; }
      if readOnly {
        Release();
        return Ok;
      }
      eng.Step(Op.Rollback(id));
      var ok := RollbackInBarrier(panics);
      Release();
      CommitSafety.ClosedIs(eng.ops, eng.wal, id);
      return if ok then Ok else UndoFailed;
    }
  }
}
