/** Explicit transactions as steps that interleave: eager writes, unique values reserved and released, the
    commit-decision bracket, the commit instant, the log, the publication, and the undo of what is not kept. */
module CommitRuns {

  type Node = int
  type Val = int
  type TxId = int

  datatype Option<T> = None | Some(value: T)

  // ------------------------------------------------------------------ state

  /** The value of the unique property each node holds. */
  type Store = map<Node, Val>

  function At(g: Store, n: Node): Option<Val> { if n in g then Some(g[n]) else None }

  function With(g: Store, n: Node, v: Option<Val>): Store { if v.Some? then g[n := v.value] else g - {n} }

  /** What takes one write back: the value the node held, the reservation the write inserted, and the release
      marks it spent and made. */
  datatype Inverse = Inverse(n: Node, before: Option<Val>, inserted: Option<Val>, spent: Option<Val>)

  /** Inside: in the commit-decision bracket. A transaction that is not kept takes its writes back one by one. */
  datatype Phase =
    | Open
    | Inside
    | Durable
    | Published
    | Freed
    | Undoing(inside: bool)
    | Aborted
    | Closed(kept: bool)
  {
    /** Its writes stand in the store and in no publication. */
    predicate Holds() { Open? || Inside? || Durable? || Undoing? }

    predicate InBracket() { Inside? || Durable? || Published? || Freed? || Aborted? || (Undoing? && inside) }
  }

  /** `slot` is its commit instant. */
  datatype Tx = Tx(phase: Phase, snapshot: nat, slot: Option<nat>, undo: seq<Inverse>, marks: set<Val>, failed: bool)
  {
    function Touched(): set<Node> { Nodes(undo) }
  }

  function Nodes(undo: seq<Inverse>): set<Node> { set i | 0 <= i < |undo| :: undo[i].n }

  /** The values the log's reservations inserted. */
  function Reserved(undo: seq<Inverse>): set<Val> {
    set i | 0 <= i < |undo| && undo[i].inserted.Some? :: undo[i].inserted.value
  }

  datatype Commit = Commit(t: TxId, writes: map<Node, Option<Val>>)

  /** A commit instant, from its allocation on. */
  datatype Slot = Pending(t: TxId) | Done(c: Commit) | Gone(t: TxId)

  /** `slots` holds the instants in order; `store` is written eagerly; `claimed` is the shared set of unique
      values; `log` holds the durable records in order; `suspect`, that an inverse has panicked, and the store
      may be neither with nor without its transaction's writes. */
  datatype Sys = Sys(txs: map<TxId, Tx>, slots: seq<Slot>, store: Store, claimed: set<Val>, log: seq<Commit>, suspect: bool)

  const Start := Sys(map[], [], map[], {}, [], false)

  function Overlaid(g: Store, ws: map<Node, Option<Val>>): Store {
    map n | n in g.Keys + ws.Keys && (if n in ws then ws[n].Some? else true) :: if n in ws then ws[n].value else g[n]
  }

  /** What a snapshot up to the instants shows. */
  function Shown(h: seq<Slot>): Store {
    if h == [] then map[]
    else
      var rest, last := Shown(h[..|h| - 1]), h[|h| - 1];
      if last.Done? then Overlaid(rest, last.c.writes) else rest
  }

  /** No snapshot goes past an instant that is neither published nor abandoned. */
  predicate Settled(h: seq<Slot>) { forall i :: 0 <= i < |h| ==> !h[i].Pending? }

  /** What recovery makes of the log. */
  function Recovered(log: seq<Commit>): Store {
    if log == [] then map[] else Overlaid(Recovered(log[..|log| - 1]), log[|log| - 1].writes)
  }

  predicate OneHolder(g: Store) { forall n, m :: n in g && m in g && g[n] == g[m] ==> n == m }

  // ------------------------------------------------------------------ steps

  datatype Op =
    | Begin(t: TxId, at: nat)        // its snapshot ends at the instant
    | Set(t: TxId, n: Node, v: Option<Val>)
    | Fail(t: TxId)                  // a statement fails: the transaction is poisoned
    | Enter(t: TxId)                 // Commit, into the bracket
    | Refuse(t: TxId)                // a conflict or a constraint stands against it
    | Stamp(t: TxId)                 // the commit instant, before the record that carries it
    | Sync(t: TxId, ok: bool)
    | Publish(t: TxId)
    | Free(t: TxId)                  // the values it vacated, to its peers
    | Exit(t: TxId)
    | Rollback(t: TxId)
    | UndoOne(t: TxId)
    | Skip(t: TxId)                  // the inverse panics, and the next one's turn comes
    | Abort(t: TxId)

  predicate In(s: Sys, t: TxId, p: Phase) { t in s.txs && s.txs[t].phase == p }

  /** Releasing the value the node holds comes before reserving the new one. */
  function Released(tx: Tx, was: Option<Val>): set<Val> { if was.Some? then tx.marks + {was.value} else tx.marks }

  predicate Holder(s: Sys, u: TxId) { u in s.txs && s.txs[u].phase.Holds() }

  predicate Enabled(s: Sys, wal: bool, op: Op) {
    match op
    case Begin(t, k) => t !in s.txs && k <= |s.slots| && Settled(s.slots[..k])
    case Set(t, n, v) =>
      // The node is nobody else's, and no commit to it is newer than the snapshot; the value is nobody's,
      // or one this transaction has itself released.
      && In(s, t, Open)
      && (forall u :: u in s.txs && u != t && s.txs[u].phase.Holds() ==> n !in s.txs[u].Touched())
      && (forall i :: s.txs[t].snapshot <= i < |s.slots| && s.slots[i].Done? ==> n !in s.slots[i].c.writes)
      && (v.Some? ==> v.value !in s.claimed || v.value in Released(s.txs[t], At(s.store, n)))
    case Fail(t) => In(s, t, Open)
    case Enter(t) => In(s, t, Open) && !s.txs[t].failed
    case Refuse(t) => In(s, t, Inside) && s.txs[t].slot.None?
    case Stamp(t) => In(s, t, Inside) && s.txs[t].slot.None?
    case Sync(t, _) => wal && In(s, t, Inside) && s.txs[t].slot.Some?
    case Publish(t) => In(s, t, if wal then Durable else Inside) && s.txs[t].slot.Some?
    case Free(t) => In(s, t, Published)
    case Exit(t) => In(s, t, Freed) || In(s, t, Aborted)
    case Rollback(t) => In(s, t, Open)
    case UndoOne(t) => t in s.txs && s.txs[t].phase.Undoing? && s.txs[t].undo != []
    case Skip(t) => t in s.txs && s.txs[t].phase.Undoing? && s.txs[t].undo != []
    case Abort(t) => t in s.txs && s.txs[t].phase.Undoing? && s.txs[t].undo == []
  }

  function WritesOf(g: Store, tx: Tx): map<Node, Option<Val>> { map n | n in tx.Touched() :: At(g, n) }

  /** One write: the old value's release is marked, the new one reserved, and the inverse recorded. */
  function Written(s: Sys, tx: Tx, n: Node, v: Option<Val>): (r: Tx)
    ensures r.phase == tx.phase && r.snapshot == tx.snapshot && r.slot == tx.slot && r.failed == tx.failed
  {
    var was := At(s.store, n);
    var marks := Released(tx, was);
    var inserted := if v.Some? && v.value !in s.claimed then v else None;
    var spent := if v.Some? && v.value in marks then v else None;
    tx.(undo := tx.undo + [Inverse(n, was, inserted, spent)], marks := if v.Some? then marks - {v.value} else marks)
  }

  /** The release marks as they were before the write. */
  function Unmarked(marks: set<Val>, inv: Inverse): set<Val> {
    (if inv.spent.Some? then marks + {inv.spent.value} else marks) - (if inv.before.Some? then {inv.before.value} else {})
  }

  function Last(undo: seq<Inverse>): Inverse
    requires undo != []
  {
    undo[|undo| - 1]
  }

  function Front(undo: seq<Inverse>): seq<Inverse>
    requires undo != []
  {
    undo[..|undo| - 1]
  }

  function Moved(s: Sys, t: TxId, tx: Tx): Sys { s.(txs := s.txs[t := tx]) }

  /** What becomes of the transaction's instant, if it has one. */
  function Ended(slots: seq<Slot>, slot: Option<nat>, how: Slot): seq<Slot> {
    if slot.Some? && slot.value < |slots| then slots[slot.value := how] else slots
  }

  function Next(s: Sys, wal: bool, op: Op): Sys
    requires Enabled(s, wal, op)
  {
    if op.Begin? then Moved(s, op.t, Tx(Open, op.at, None, [], {}, false))
    else
      var t, tx := op.t, s.txs[op.t];
      match op
      case Set(_, n, v) =>
        Moved(s, t, Written(s, tx, n, v)).(
          store := With(s.store, n, v), claimed := if v.Some? then s.claimed + {v.value} else s.claimed)
      case Fail(_) => Moved(s, t, tx.(failed := true))
      case Enter(_) => Moved(s, t, tx.(phase := Inside))
      case Refuse(_) => Moved(s, t, tx.(phase := Undoing(true)))
      case Stamp(_) => Moved(s, t, tx.(slot := Some(|s.slots|))).(slots := s.slots + [Pending(t)])
      case Sync(_, ok) =>
        if ok then Moved(s, t, tx.(phase := Durable)).(log := s.log + [Commit(t, WritesOf(s.store, tx))])
        else Moved(s, t, tx.(phase := Undoing(true)))
      case Publish(_) =>
        Moved(s, t, tx.(phase := Published, undo := [])).(
          slots := Ended(s.slots, tx.slot, Done(Commit(t, WritesOf(s.store, tx)))))
      case Free(_) => Moved(s, t, tx.(phase := Freed, marks := {})).(claimed := s.claimed - tx.marks)
      case Exit(_) => Moved(s, t, tx.(phase := Closed(tx.phase.Freed?)))
      case Rollback(_) => Moved(s, t, tx.(phase := Undoing(false)))
      case UndoOne(_) =>
        var inv := Last(tx.undo);
        Moved(s, t, tx.(undo := Front(tx.undo), marks := Unmarked(tx.marks, inv))).(
          store := With(s.store, inv.n, inv.before),
          claimed := if inv.inserted.Some? then s.claimed - {inv.inserted.value} else s.claimed)
      case Skip(_) => Moved(s, t, tx.(undo := Front(tx.undo))).(suspect := true)
      case Abort(_) =>
        Moved(s, t, tx.(phase := if tx.phase.inside then Aborted else Closed(false), marks := {})).(slots := Ended(s.slots, tx.slot, Gone(t)))
  }

  /** A run of steps; one that is not enabled does nothing. */
  function Exec(ops: seq<Op>, wal: bool): Sys {
    if ops == [] then Start
    else
      var s, op := Exec(ops[..|ops| - 1], wal), ops[|ops| - 1];
      if Enabled(s, wal, op) then Next(s, wal, op) else s
  }

  // ------------------------------------------------------------------ one transaction's writes

  /** The value is the transaction's to use: it reserved it, or a node it has written showed it. */
  ghost predicate Mine(shown: Store, nodes: set<Node>, reserved: set<Val>, v: Val) {
    v in reserved || exists n :: n in nodes && At(shown, n) == Some(v)
  }

  /** What the transaction's nodes hold: distinct values, its own; and each value of its own is either held
      by one of them or marked for release, never both. */
  ghost predicate Fits(shown: Store, g: Store, nodes: set<Node>, reserved: set<Val>, marks: set<Val>) {
    && (forall n, m :: n in nodes && m in nodes && n in g && m in g && g[n] == g[m] ==> n == m)
    && (forall n :: n in nodes && n in g ==> Mine(shown, nodes, reserved, g[n]) && g[n] !in marks)
    && (forall v :: v in marks ==> Mine(shown, nodes, reserved, v))
    && (forall v :: Mine(shown, nodes, reserved, v) ==> v in marks || exists n :: n in nodes && At(g, n) == Some(v))
  }

  /** So it was after every write, and each inverse leads back to where its write began. */
  ghost predicate Sound(shown: Store, g: Store, undo: seq<Inverse>, marks: set<Val>)
    decreases |undo|
  {
    Fits(shown, g, Nodes(undo), Reserved(undo), marks) &&
    if undo == [] then marks == {}
    else
      var inv := Last(undo);
      && (inv.n !in Nodes(Front(undo)) ==> inv.before == At(shown, inv.n))
      && (inv.inserted.Some? ==> inv.inserted.value !in Reserved(Front(undo)))
      && Sound(shown, With(g, inv.n, inv.before), Front(undo), Unmarked(marks, inv))
  }

  ghost predicate Alike(g: Store, g': Store, nodes: set<Node>) { forall n :: n in nodes ==> At(g, n) == At(g', n) }

  lemma NodesPush(undo: seq<Inverse>, inv: Inverse)
    ensures Nodes(undo + [inv]) == Nodes(undo) + {inv.n}
    ensures Reserved(undo + [inv]) == Reserved(undo) + if inv.inserted.Some? then {inv.inserted.value} else {}
    ensures Front(undo + [inv]) == undo && Last(undo + [inv]) == inv
  {
    var more := undo + [inv];
    assert forall i :: 0 <= i < |undo| ==> more[i] == undo[i];
    assert more[|undo|] == inv;
  }

  lemma FitsAlike(shown: Store, shown': Store, g: Store, g': Store, nodes: set<Node>, reserved: set<Val>, marks: set<Val>)
    requires Fits(shown, g, nodes, reserved, marks) && Alike(shown, shown', nodes) && Alike(g, g', nodes)
    ensures Fits(shown', g', nodes, reserved, marks)
  {
    forall v ensures Mine(shown', nodes, reserved, v) <==> Mine(shown, nodes, reserved, v) { }
    forall n | n in nodes ensures At(g', n) == At(g, n) { }
  }

  /** Only the nodes it has written matter. */
  lemma {:induction false} SoundAlike(shown: Store, shown': Store, g: Store, g': Store, undo: seq<Inverse>, marks: set<Val>)
    requires Sound(shown, g, undo, marks) && Alike(shown, shown', Nodes(undo)) && Alike(g, g', Nodes(undo))
    ensures Sound(shown', g', undo, marks)
    decreases |undo|
  {
    FitsAlike(shown, shown', g, g', Nodes(undo), Reserved(undo), marks);
    if undo != [] {
      var inv := Last(undo);
      assert undo == Front(undo) + [inv];
      NodesPush(Front(undo), inv);
      SoundAlike(shown, shown', With(g, inv.n, inv.before), With(g', inv.n, inv.before), Front(undo), Unmarked(marks, inv));
    }
  }

  // ------------------------------------------------------------------ what every step keeps

  function Now(s: Sys): Store { Shown(s.slots) }

  /** What a snapshot at the instant shows. */
  function ShownAt(s: Sys, k: int): Store { if 0 <= k <= |s.slots| then Shown(s.slots[..k]) else Now(s) }

  predicate Touches(s: Sys, t: TxId, n: Node) { Holder(s, t) && n in s.txs[t].Touched() }

  /** The values only the transaction keeps claimed: its reservations while it is unpublished, and after that
      what it has vacated until it frees it. */
  predicate Owns(s: Sys, t: TxId, v: Val) {
    t in s.txs && ((s.txs[t].phase.Holds() && v in Reserved(s.txs[t].undo)) || (s.txs[t].phase.Published? && v in s.txs[t].marks))
  }

  ghost predicate Holding(g: Store, v: Val) { exists n :: At(g, n) == Some(v) }

  ghost predicate Owned(s: Sys, v: Val) { exists t :: Owns(s, t, v) }

  ghost predicate TxSound(s: Sys, t: TxId)
    requires t in s.txs
  {
    var tx := s.txs[t];
    if tx.phase.Holds() then Sound(Now(s), s.store, tx.undo, tx.marks) else tx.undo == [] && (!tx.phase.Published? ==> tx.marks == {})
  }

  ghost predicate AllSound(s: Sys) { forall t :: t in s.txs ==> TxSound(s, t) }

  ghost predicate NodesApart(s: Sys) { forall t, u, n :: Touches(s, t, n) && Touches(s, u, n) ==> t == u }

  ghost predicate ValuesApart(s: Sys) {
    && (forall t, u, v :: Owns(s, t, v) && Owns(s, u, v) ==> t == u)
    && (forall t, v :: Owns(s, t, v) ==> !Holding(Now(s), v))
  }

  /** No value is taken that nobody holds or owes, and none held or owed is free to take. */
  ghost predicate ClaimsExact(s: Sys) { forall v :: v in s.claimed <==> Holding(Now(s), v) || Owned(s, v) }

  ghost predicate Untouched(s: Sys, n: Node) { forall t :: !Touches(s, t, n) }

  /** A node no open transaction has written holds what is published. */
  ghost predicate RestShown(s: Sys) { forall n :: Untouched(s, n) ==> At(s.store, n) == At(Now(s), n) }

  ghost predicate EachUnique(s: Sys) { forall k :: 0 <= k <= |s.slots| ==> OneHolder(ShownAt(s, k)) }

  predicate Pinned(s: Sys, t: TxId, i: int) { Holder(s, t) && s.txs[t].slot.Some? && s.txs[t].slot.value == i }

  predicate Wrote(s: Sys, j: int, n: Node) { 0 <= j < |s.slots| && s.slots[j].Done? && n in s.slots[j].c.writes }

  /** Instants may be published out of order: what comes after one still pending has neither its nodes nor the
      values it has reserved. */
  ghost predicate Later(s: Sys) { LaterNodes(s) && LaterFree(s) }

  ghost predicate LaterNodes(s: Sys) { forall t, i, j, n :: Pinned(s, t, i) && Touches(s, t, n) && Wrote(s, j, n) ==> j < i }

  ghost predicate LaterFree(s: Sys) {
    forall t, i, k, v :: Pinned(s, t, i) && Owns(s, t, v) && 0 <= i < k <= |s.slots| ==> !Holding(ShownAt(s, k), v)
  }

  predicate IsKept(p: Phase) { p.Published? || p.Freed? || (p.Closed? && p.kept) }

  predicate SlotOk(s: Sys, i: nat)
    requires i < |s.slots|
  {
    match s.slots[i]
    case Pending(t) => t in s.txs && s.txs[t].slot == Some(i) && s.txs[t].phase.Holds()
    case Done(c) => c.t in s.txs && s.txs[c.t].slot == Some(i) && IsKept(s.txs[c.t].phase)
    case Gone(t) => t in s.txs && s.txs[t].slot == Some(i) && (s.txs[t].phase.Aborted? || s.txs[t].phase == Closed(false))
  }

  predicate Owner(sl: Slot, t: TxId) { match sl case Pending(u) => u == t case Done(c) => c.t == t case Gone(u) => u == t }

  predicate TxSlot(s: Sys, t: TxId)
    requires t in s.txs
  {
    var tx := s.txs[t];
    && (tx.slot.Some? ==> tx.slot.value < |s.slots| && Owner(s.slots[tx.slot.value], t))
    && (tx.phase.Open? ==> tx.slot.None?)
    && (tx.phase.Durable? || IsKept(tx.phase) ==> tx.slot.Some?)
  }

  /** An instant is one transaction's, and published exactly if that is kept. */
  ghost predicate Slots(s: Sys) { (forall i :: 0 <= i < |s.slots| ==> SlotOk(s, i)) && forall t :: t in s.txs ==> TxSlot(s, t) }

  ghost predicate Apart(s: Sys) { NodesApart(s) && ValuesApart(s) }

  ghost predicate StateInv(s: Sys) { AllSound(s) && Apart(s) && ClaimsExact(s) && RestShown(s) && EachUnique(s) && Later(s) }

  // ------------------------------------------------------------------ whose value is whose

  lemma SoundFits(shown: Store, g: Store, undo: seq<Inverse>, marks: set<Val>)
    requires Sound(shown, g, undo, marks)
    ensures Fits(shown, g, Nodes(undo), Reserved(undo), marks)
  {
  }

  /** A value of a transaction's own that is published is so at a node of its own. */
  lemma MineShown(s: Sys, t: TxId, v: Val, m: Node)
    requires Apart(s) && Holder(s, t) && OneHolder(Now(s))
    requires Mine(Now(s), s.txs[t].Touched(), Reserved(s.txs[t].undo), v) && At(Now(s), m) == Some(v)
    ensures Touches(s, t, m)
  {
    if v in Reserved(s.txs[t].undo) {
      assert Owns(s, t, v) && Holding(Now(s), v);
    }
  }

  lemma MineApart(s: Sys, t: TxId, u: TxId, v: Val)
    requires Apart(s) && Holder(s, t) && Holder(s, u) && OneHolder(Now(s))
    requires Mine(Now(s), s.txs[t].Touched(), Reserved(s.txs[t].undo), v)
    requires Mine(Now(s), s.txs[u].Touched(), Reserved(s.txs[u].undo), v)
    ensures t == u
  {
    if v in Reserved(s.txs[t].undo) {
      assert Owns(s, t, v);
      if v in Reserved(s.txs[u].undo) { assert Owns(s, u, v); } else { assert Holding(Now(s), v); }
    } else {
      var m :| m in s.txs[t].Touched() && At(Now(s), m) == Some(v);
      MineShown(s, u, v, m);
      assert Touches(s, t, m);
    }
  }

  lemma NowUnique(s: Sys)
    requires EachUnique(s)
    ensures OneHolder(Now(s))
  {
    assert s.slots[..|s.slots|] == s.slots;
    assert OneHolder(ShownAt(s, |s.slots|));
  }

  /** What a node written by a holder holds is that holder's. */
  lemma HeldIsMine(s: Sys, t: TxId, n: Node)
    requires AllSound(s) && Touches(s, t, n) && n in s.store
    ensures Mine(Now(s), s.txs[t].Touched(), Reserved(s.txs[t].undo), s.store[n])
  {
    assert TxSound(s, t);
    SoundFits(Now(s), s.store, s.txs[t].undo, s.txs[t].marks);
  }

  /** At every instant, no two nodes hold one value, uncommitted writes included. */
  lemma StoreUnique(s: Sys)
    requires StateInv(s)
    ensures OneHolder(s.store)
  {
    NowUnique(s);
    forall n, m | n in s.store && m in s.store && s.store[n] == s.store[m] ensures n == m { StoreUniqueAt(s, n, m); }
  }

  lemma StoreUniqueAt(s: Sys, n: Node, m: Node)
    requires StateInv(s) && OneHolder(Now(s)) && n in s.store && m in s.store && s.store[n] == s.store[m]
    ensures n == m
  {
    hide Sound, Mine;
    if t :| Touches(s, t, n) {
      HeldIsMine(s, t, n);
      if u :| Touches(s, u, m) {
        HeldIsMine(s, u, m);
        MineApart(s, t, u, s.store[n]);
        assert TxSound(s, t);
        SoundFits(Now(s), s.store, s.txs[t].undo, s.txs[t].marks);
      } else {
        assert Untouched(s, m);
        MineShown(s, t, s.store[n], m);
      }
    } else {
      assert Untouched(s, n);
      if u :| Touches(s, u, m) {
        HeldIsMine(s, u, m);
        MineShown(s, u, s.store[m], n);
      } else {
        assert Untouched(s, m);
      }
    }
  }

  // ------------------------------------------------------------------ step by step

  /** Only the transaction t differs. */
  ghost predicate Others(s: Sys, s': Sys, t: TxId) {
    && t in s'.txs
    && forall u :: u != t ==> (u in s'.txs <==> u in s.txs) && (u in s.txs ==> s'.txs[u] == s.txs[u])
  }

  /** Nothing more or less is shown at any instant. */
  ghost predicate Unseen(s: Sys, s': Sys) {
    && |s.slots| <= |s'.slots|
    && (forall k :: 0 <= k <= |s.slots| ==> ShownAt(s', k) == ShownAt(s, k))
    && (forall k :: |s.slots| <= k <= |s'.slots| ==> ShownAt(s', k) == Now(s))
    && Now(s') == Now(s)
    && (forall j, n :: Wrote(s', j, n) ==> Wrote(s, j, n))
  }

  /** A step in which it keeps its writes and its values. */
  lemma QuietKeeps(s: Sys, s': Sys, t: TxId)
    requires StateInv(s) && Others(s, s', t) && Unseen(s, s')
    requires s'.store == s.store && s'.claimed == s.claimed
    requires forall n :: Touches(s', t, n) <==> Touches(s, t, n)
    requires forall v :: Owns(s', t, v) <==> Owns(s, t, v)
    requires forall i :: Pinned(s', t, i) ==> Pinned(s, t, i) || i >= |s.slots|
    requires TxSound(s', t)
    ensures StateInv(s')
  {
    hide Sound, Shown, ShownAt, Now, Holding, Wrote, Owns, Touches, Pinned;
    QuietSame(s, s', t);
    forall v ensures Owned(s', v) <==> Owned(s, v) { }
    forall u | u in s'.txs ensures TxSound(s', u) { if u != t { assert TxSound(s, u); } }
    forall n | Untouched(s', n) ensures Untouched(s, n) { }
    forall u, i, k, v | Pinned(s', u, i) && Owns(s', u, v) && 0 <= i < k <= |s'.slots| ensures !Holding(ShownAt(s', k), v) {
      if k <= |s.slots| { assert ShownAt(s', k) == ShownAt(s, k); } else { assert ShownAt(s', k) == Now(s); }
    }
    forall u, i, j, n | Pinned(s', u, i) && Touches(s', u, n) && Wrote(s', j, n) ensures j < i { WroteWithin(s, j, n); }
    forall k | 0 <= k <= |s'.slots| ensures OneHolder(ShownAt(s', k)) {
      if k <= |s.slots| { assert ShownAt(s', k) == ShownAt(s, k); } else { NowUnique(s); }
    }
  }

  lemma WroteWithin(s: Sys, j: int, n: Node)
    ensures Wrote(s, j, n) ==> j < |s.slots|
  {
  }

  lemma QuietSame(s: Sys, s': Sys, t: TxId)
    requires Others(s, s', t)
    requires forall n :: Touches(s', t, n) <==> Touches(s, t, n)
    requires forall v :: Owns(s', t, v) <==> Owns(s, t, v)
    requires forall i :: Pinned(s', t, i) ==> Pinned(s, t, i) || i >= |s.slots|
    ensures forall u, n :: Touches(s', u, n) <==> Touches(s, u, n)
    ensures forall u, v :: Owns(s', u, v) <==> Owns(s, u, v)
    ensures forall u, i :: Pinned(s', u, i) ==> Pinned(s, u, i) || i >= |s.slots|
  {
  }

  /** The old value was not marked: it was held. */
  lemma NotMarked(shown: Store, g: Store, nodes: set<Node>, reserved: set<Val>, marks: set<Val>, n: Node)
    requires Fits(shown, g, nodes, reserved, marks) && OneHolder(shown) && n in g
    requires n !in nodes ==> At(g, n) == At(shown, n)
    requires forall r :: r in reserved ==> !Holding(shown, r)
    ensures g[n] !in marks
    ensures forall m :: m in nodes && m != n ==> At(g, m) != Some(g[n])
    ensures Mine(shown, nodes + {n}, reserved, g[n])
  {
    var v := g[n];
    if n !in nodes {
      assert At(shown, n) == Some(v) && Holding(shown, v);
      assert !Mine(shown, nodes, reserved, v);
    }
  }

  lemma FitsSet(shown: Store, g: Store, nodes: set<Node>, reserved: set<Val>, marks: set<Val>, n: Node, v: Option<Val>, fresh': bool)
    requires Fits(shown, g, nodes, reserved, marks) && OneHolder(shown)
    requires n !in nodes ==> At(g, n) == At(shown, n)
    requires forall r :: r in reserved ==> !Holding(shown, r)
    requires v.Some? ==>
      if fresh' then !Mine(shown, nodes, reserved, v.value) && !Holding(shown, v.value)
      else v.value in marks || At(g, n) == v
    ensures var marks' := (if n in g then marks + {g[n]} else marks) - (if v.Some? then {v.value} else {});
      Fits(shown, With(g, n, v), nodes + {n}, reserved + (if v.Some? && fresh' then {v.value} else {}), marks')
  {
    if n in g { NotMarked(shown, g, nodes, reserved, marks, n); }
    var nodes', reserved' := nodes + {n}, reserved + (if v.Some? && fresh' then {v.value} else {});
    var g', marks' := With(g, n, v), (if n in g then marks + {g[n]} else marks) - (if v.Some? then {v.value} else {});
    assert At(g', n) == v && forall m :: m != n ==> At(g', m) == At(g, m);
    forall w ensures Mine(shown, nodes', reserved', w) <==>
                     Mine(shown, nodes, reserved, w) || (v == Some(w) && fresh') || At(shown, n) == Some(w) { }
    forall w | Mine(shown, nodes', reserved', w) ensures w in marks' || exists m :: m in nodes' && At(g', m) == Some(w) {
      if v == Some(w) {
        assert n in nodes' && At(g', n) == Some(w);
      } else if Mine(shown, nodes, reserved, w) && w !in marks {
        var m :| m in nodes && At(g, m) == Some(w);
        if m != n { assert m in nodes' && At(g', m) == Some(w); }
      }
    }
  }

  lemma SetAllowed(s: Sys, wal: bool, t: TxId, n: Node, v: Option<Val>)
    requires StateInv(s) && OneHolder(Now(s)) && Enabled(s, wal, Op.Set(t, n, v))
    ensures var tx := s.txs[t];
      && Fits(Now(s), s.store, tx.Touched(), Reserved(tx.undo), tx.marks)
      && (n !in tx.Touched() ==> At(s.store, n) == At(Now(s), n))
      && (forall r :: r in Reserved(tx.undo) ==> !Holding(Now(s), r))
      && (v.Some? && v.value !in s.claimed ==>
            !Mine(Now(s), tx.Touched(), Reserved(tx.undo), v.value) && !Holding(Now(s), v.value) && !Owned(s, v.value)
            && v.value !in Reserved(tx.undo))
      && (forall w :: w in tx.marks || At(s.store, n) == Some(w) ==> w in s.claimed)
  {
    var tx := s.txs[t];
    assert TxSound(s, t);
    SoundFits(Now(s), s.store, tx.undo, tx.marks);
    forall r | r in Reserved(tx.undo) ensures !Holding(Now(s), r) { assert Owns(s, t, r); }
    if n !in tx.Touched() {
      forall u ensures !Touches(s, u, n) { }
      assert Untouched(s, n);
    }
    forall w | Mine(Now(s), tx.Touched(), Reserved(tx.undo), w) ensures w in s.claimed {
      if w in Reserved(tx.undo) { assert Owns(s, t, w); }
    }
  }

  lemma SetKeeps(s: Sys, wal: bool, t: TxId, n: Node, v: Option<Val>)
    requires StateInv(s) && Slots(s) && Enabled(s, wal, Op.Set(t, n, v))
    ensures StateInv(Next(s, wal, Op.Set(t, n, v)))
  {
    hide AllSound, Apart, ClaimsExact, RestShown, LaterNodes, LaterFree, Slots;
    NowUnique(s);
    SetAllowed(s, wal, t, n, v);
    SetSound(s, wal, t, n, v);
    SetApart(s, wal, t, n, v);
    SetOthers(s, wal, t, n, v);
    SetLater(s, wal, t, n, v);
    forall k | 0 <= k <= |s.slots| ensures OneHolder(ShownAt(Next(s, wal, Op.Set(t, n, v)), k)) { assert OneHolder(ShownAt(s, k)); }
  }

  /** The writer has no instant yet. */
  lemma SetLater(s: Sys, wal: bool, t: TxId, n: Node, v: Option<Val>)
    requires Later(s) && Slots(s) && Enabled(s, wal, Op.Set(t, n, v))
    ensures Later(Next(s, wal, Op.Set(t, n, v)))
  {
    hide Written, Shown;
    var s' := Next(s, wal, Op.Set(t, n, v));
    WrittenIs(s, s.txs[t], n, v);
    assert TxSlot(s, t);
    forall u, i ensures Pinned(s', u, i) <==> Pinned(s, u, i) && u != t { }
    forall u, m | u != t ensures Touches(s', u, m) <==> Touches(s, u, m) { }
    forall u, w | u != t ensures Owns(s', u, w) <==> Owns(s, u, w) { }
    forall j, m ensures Wrote(s', j, m) <==> Wrote(s, j, m) { }
    forall k ensures ShownAt(s', k) == ShownAt(s, k) { }
  }

  lemma SetSound(s: Sys, wal: bool, t: TxId, n: Node, v: Option<Val>)
    requires StateInv(s) && OneHolder(Now(s)) && Enabled(s, wal, Op.Set(t, n, v))
    ensures TxSound(Next(s, wal, Op.Set(t, n, v)), t)
  {
    hide Fits, Sound, Mine, Written;
    SetAllowed(s, wal, t, n, v);
    var tx, s' := s.txs[t], Next(s, wal, Op.Set(t, n, v));
    var tx', taken := s'.txs[t], v.Some? && v.value !in s.claimed;
    WrittenIs(s, tx, n, v);
    var inv := Last(tx'.undo);
    if n in s.store { NotMarked(Now(s), s.store, tx.Touched(), Reserved(tx.undo), tx.marks, n); }
    FitsSet(Now(s), s.store, tx.Touched(), Reserved(tx.undo), tx.marks, n, v, taken);
    assert With(s'.store, n, inv.before) == s.store;
    MarksBack(s, tx, n, v);
    assert TxSound(s, t);
    SoundPush(Now(s), s.store, tx.undo, tx.marks, inv, s'.store, tx'.marks);
  }

  lemma WrittenIs(s: Sys, tx: Tx, n: Node, v: Option<Val>)
    ensures var tx', g, taken := Written(s, tx, n, v), s.store, v.Some? && v.value !in s.claimed;
      && tx'.phase == tx.phase && tx'.undo != [] && Front(tx'.undo) == tx.undo && tx'.undo == tx.undo + [Last(tx'.undo)]
      && Last(tx'.undo).n == n && Last(tx'.undo).before == At(g, n) && Last(tx'.undo).inserted == (if taken then v else None)
      && tx'.marks == (if n in g then tx.marks + {g[n]} else tx.marks) - (if v.Some? then {v.value} else {})
  {
    NodesPush(tx.undo, Last(Written(s, tx, n, v).undo));
  }

  lemma MarksBack(s: Sys, tx: Tx, n: Node, v: Option<Val>)
    requires n in s.store ==> s.store[n] !in tx.marks
    ensures Unmarked(Written(s, tx, n, v).marks, Last(Written(s, tx, n, v).undo)) == tx.marks
  {
  }

  lemma SoundPush(shown: Store, g: Store, undo: seq<Inverse>, marks: set<Val>, inv: Inverse, g': Store, marks': set<Val>)
    requires Sound(shown, g, undo, marks)
    requires Fits(shown, g', Nodes(undo) + {inv.n}, Reserved(undo) + (if inv.inserted.Some? then {inv.inserted.value} else {}), marks')
    requires With(g', inv.n, inv.before) == g && Unmarked(marks', inv) == marks
    requires inv.n !in Nodes(undo) ==> inv.before == At(shown, inv.n)
    requires inv.inserted.Some? ==> inv.inserted.value !in Reserved(undo)
    ensures Sound(shown, g', undo + [inv], marks')
  {
    hide Fits;
    NodesPush(undo, inv);
  }

  lemma SetApart(s: Sys, wal: bool, t: TxId, n: Node, v: Option<Val>)
    requires StateInv(s) && OneHolder(Now(s)) && Enabled(s, wal, Op.Set(t, n, v))
    ensures Apart(Next(s, wal, Op.Set(t, n, v))) && ClaimsExact(Next(s, wal, Op.Set(t, n, v)))
    ensures var s' := Next(s, wal, Op.Set(t, n, v)); forall u, m :: Touches(s', u, m) <==> Touches(s, u, m) || (u == t && m == n)
  {
    hide Sound, Fits, Mine;
    SetAllowed(s, wal, t, n, v);
    var s', taken := Next(s, wal, Op.Set(t, n, v)), if v.Some? && v.value !in s.claimed then v else None;
    SetMoves(s, wal, t, n, v, taken);
    SetValues(s, s', t, v, taken);
  }

  lemma SetMoves(s: Sys, wal: bool, t: TxId, n: Node, v: Option<Val>, taken: Option<Val>)
    requires Enabled(s, wal, Op.Set(t, n, v)) && taken == if v.Some? && v.value !in s.claimed then v else None
    ensures var s' := Next(s, wal, Op.Set(t, n, v));
      && (forall u, m :: Touches(s', u, m) <==> Touches(s, u, m) || (u == t && m == n))
      && (forall u, w :: Owns(s', u, w) <==> Owns(s, u, w) || (u == t && taken == Some(w)))
  {
    hide Written;
    WrittenIs(s, s.txs[t], n, v);
    NodesPush(s.txs[t].undo, Last(Next(s, wal, Op.Set(t, n, v)).txs[t].undo));
  }

  lemma SetValues(s: Sys, s': Sys, t: TxId, v: Option<Val>, taken: Option<Val>)
    requires ValuesApart(s) && ClaimsExact(s) && Now(s') == Now(s)
    requires taken.Some? ==> v == taken && !Holding(Now(s), taken.value) && !Owned(s, taken.value)
    requires taken.None? && v.Some? ==> v.value in s.claimed
    requires s'.claimed == if v.Some? then s.claimed + {v.value} else s.claimed
    requires forall u, w :: Owns(s', u, w) <==> Owns(s, u, w) || (u == t && taken == Some(w))
    ensures ValuesApart(s') && ClaimsExact(s')
  {
    hide Owns, Shown;
    forall w ensures Owned(s', w) <==> Owned(s, w) || taken == Some(w) {
      if taken == Some(w) { assert Owns(s', t, w); }
      if u :| Owns(s, u, w) { assert Owns(s', u, w); }
    }
  }

  lemma SetOthers(s: Sys, wal: bool, t: TxId, n: Node, v: Option<Val>)
    requires StateInv(s) && Enabled(s, wal, Op.Set(t, n, v))
    requires TxSound(Next(s, wal, Op.Set(t, n, v)), t)
    requires var s' := Next(s, wal, Op.Set(t, n, v)); forall u, m :: Touches(s', u, m) <==> Touches(s, u, m) || (u == t && m == n)
    ensures AllSound(Next(s, wal, Op.Set(t, n, v))) && RestShown(Next(s, wal, Op.Set(t, n, v)))
  {
    hide Sound, Written;
    var s' := Next(s, wal, Op.Set(t, n, v));
    forall u | u in s'.txs ensures TxSound(s', u) {
      if u != t {
        assert TxSound(s, u);
        if Holder(s, u) { SoundAlike(Now(s), Now(s'), s.store, s'.store, s.txs[u].undo, s.txs[u].marks); }
      }
    }
    forall m | Untouched(s', m) ensures At(s'.store, m) == At(Now(s'), m) {
      assert !Touches(s', t, m) && Touches(s', t, n);
      forall u ensures !Touches(s, u, m) { assert !Touches(s', u, m); }
      assert Untouched(s, m);
    }
  }

  lemma UndoKeeps(s: Sys, wal: bool, t: TxId)
    requires StateInv(s) && Enabled(s, wal, UndoOne(t))
    ensures StateInv(Next(s, wal, UndoOne(t)))
  {
    hide Fits, LaterNodes, LaterFree;
    var tx, s' := s.txs[t], Next(s, wal, UndoOne(t));
    var inv := Last(tx.undo);
    assert tx.undo == Front(tx.undo) + [inv];
    NodesPush(Front(tx.undo), inv);
    assert TxSound(s, t);
    assert Sound(Now(s), s'.store, Front(tx.undo), s'.txs[t].marks);
    UndoOthers(s, wal, t);
    UndoApart(s, wal, t);
    UndoLater(s, wal, t);
    forall k | 0 <= k <= |s.slots| ensures OneHolder(ShownAt(s', k)) { assert OneHolder(ShownAt(s, k)); }
  }

  lemma UndoLater(s: Sys, wal: bool, t: TxId)
    requires Later(s) && Enabled(s, wal, UndoOne(t))
    ensures Later(Next(s, wal, UndoOne(t)))
  {
    hide Unmarked, Shown;
    var tx, s' := s.txs[t], Next(s, wal, UndoOne(t));
    assert tx.undo == Front(tx.undo) + [Last(tx.undo)];
    NodesPush(Front(tx.undo), Last(tx.undo));
    forall u, i ensures Pinned(s', u, i) <==> Pinned(s, u, i) { }
    forall u, m | Touches(s', u, m) ensures Touches(s, u, m) { }
    forall u, w | Owns(s', u, w) ensures Owns(s, u, w) { }
    forall j, m ensures Wrote(s', j, m) <==> Wrote(s, j, m) { }
    forall k ensures ShownAt(s', k) == ShownAt(s, k) { }
  }

  lemma UndoOthers(s: Sys, wal: bool, t: TxId)
    requires StateInv(s) && Enabled(s, wal, UndoOne(t)) && TxSound(Next(s, wal, UndoOne(t)), t)
    requires var inv := Last(s.txs[t].undo); inv.n !in Nodes(Front(s.txs[t].undo)) ==> inv.before == At(Now(s), inv.n)
    ensures AllSound(Next(s, wal, UndoOne(t))) && RestShown(Next(s, wal, UndoOne(t)))
  {
    hide Sound;
    var tx, s' := s.txs[t], Next(s, wal, UndoOne(t));
    var inv := Last(tx.undo);
    assert tx.undo == Front(tx.undo) + [inv];
    NodesPush(Front(tx.undo), inv);
    assert Touches(s, t, inv.n);
    forall u | u in s'.txs ensures TxSound(s', u) {
      if u != t {
        assert TxSound(s, u);
        if Holder(s, u) {
          forall m | m in s.txs[u].Touched() ensures At(s'.store, m) == At(s.store, m) { assert Touches(s, u, m); }
          SoundAlike(Now(s), Now(s'), s.store, s'.store, s.txs[u].undo, s.txs[u].marks);
        }
      }
    }
    forall m | Untouched(s', m) ensures At(s'.store, m) == At(Now(s'), m) {
      assert !Touches(s', t, m);
      if m != inv.n {
        forall u ensures !Touches(s, u, m) { assert !Touches(s', u, m); }
        assert Untouched(s, m);
      }
    }
  }

  lemma UndoApart(s: Sys, wal: bool, t: TxId)
    requires StateInv(s) && Enabled(s, wal, UndoOne(t))
    requires var inv := Last(s.txs[t].undo); inv.inserted.Some? ==> inv.inserted.value !in Reserved(Front(s.txs[t].undo))
    ensures Apart(Next(s, wal, UndoOne(t))) && ClaimsExact(Next(s, wal, UndoOne(t)))
  {
    hide Sound, Unmarked;
    var tx, s' := s.txs[t], Next(s, wal, UndoOne(t));
    var inv := Last(tx.undo);
    assert tx.undo == Front(tx.undo) + [inv];
    NodesPush(Front(tx.undo), inv);
    forall u, m | Touches(s', u, m) ensures Touches(s, u, m) { }
    forall u, w ensures Owns(s', u, w) <==> Owns(s, u, w) && !(u == t && inv.inserted == Some(w)) { }
    forall w ensures Owned(s', w) <==> Owned(s, w) && inv.inserted != Some(w) {
      if inv.inserted == Some(w) { assert Owns(s, t, w); }
      if u :| Owns(s, u, w) { assert inv.inserted != Some(w) ==> Owns(s', u, w); }
    }
    if inv.inserted.Some? { assert Owns(s, t, inv.inserted.value); }
  }

  // ------------------------------------------------------------------ publishing

  lemma ShownPush(s: Sys, k: nat)
    requires k < |s.slots|
    ensures ShownAt(s, k + 1) == if s.slots[k].Done? then Overlaid(ShownAt(s, k), s.slots[k].c.writes) else ShownAt(s, k)
  {
    var h := s.slots[..k + 1];
    assert h[..k] == s.slots[..k];
  }

  lemma ShownAll(s: Sys)
    ensures ShownAt(s, |s.slots|) == Now(s)
  {
    assert s.slots[..|s.slots|] == s.slots;
  }

  /** Its nodes show the same from its instant on. */
  lemma {:induction false} ShownLater(s: Sys, t: TxId, i: nat, k: nat, n: Node)
    requires LaterNodes(s) && Pinned(s, t, i) && Touches(s, t, n) && i < k <= |s.slots|
    ensures At(ShownAt(s, k), n) == At(Now(s), n)
    decreases |s.slots| - k
  {
    hide Shown, ShownAt, Now;
    if k == |s.slots| {
      ShownAll(s);
    } else {
      ShownLater(s, t, i, k + 1, n);
      ShownPush(s, k);
      assert !Wrote(s, k, n);
    }
  }

  /** From its instant on its nodes show what it wrote, the others what they showed. */
  lemma {:induction false} PublishShows(s: Sys, wal: bool, t: TxId, i: nat, k: nat, n: Node)
    requires LaterNodes(s) && Enabled(s, wal, Publish(t)) && s.txs[t].slot == Some(i) && i < k <= |s.slots| && !s.slots[i].Done?
    ensures At(ShownAt(Next(s, wal, Publish(t)), k), n) == if Touches(s, t, n) then At(s.store, n) else At(ShownAt(s, k), n)
    decreases k
  {
    hide Shown, ShownAt, WritesOf;
    var s' := Next(s, wal, Publish(t));
    ShownPush(s, k - 1);
    ShownPush(s', k - 1);
    if k == i + 1 {
      PublishBefore(s, wal, t, i, i);
      WritesAre(s.store, s.txs[t], n);
    } else {
      PublishShows(s, wal, t, i, k - 1, n);
      assert s'.slots[k - 1] == s.slots[k - 1];
      assert Pinned(s, t, i) && (Touches(s, t, n) ==> !Wrote(s, k - 1, n));
    }
  }

  lemma WritesAre(g: Store, tx: Tx, n: Node)
    ensures n in WritesOf(g, tx) <==> n in tx.Touched()
    ensures n in tx.Touched() ==> WritesOf(g, tx)[n] == At(g, n)
  {
  }

  lemma PublishBefore(s: Sys, wal: bool, t: TxId, i: nat, k: nat)
    requires Enabled(s, wal, Publish(t)) && s.txs[t].slot == Some(i) && k <= i < |s.slots|
    ensures ShownAt(Next(s, wal, Publish(t)), k) == ShownAt(s, k)
  {
    hide Shown;
    assert Next(s, wal, Publish(t)).slots[..k] == s.slots[..k];
  }

  lemma PublishNow(s: Sys, wal: bool, t: TxId)
    requires LaterNodes(s) && Slots(s) && Enabled(s, wal, Publish(t))
    ensures var i := s.txs[t].slot.value; i < |s.slots| && s.slots[i] == Pending(t) && Pinned(s, t, i)
    ensures forall n :: At(Now(Next(s, wal, Publish(t))), n) == if Touches(s, t, n) then At(s.store, n) else At(Now(s), n)
  {
    hide Shown, WritesOf, LaterNodes, LaterFree;
    var s', i := Next(s, wal, Publish(t)), s.txs[t].slot.value;
    assert TxSlot(s, t) && SlotOk(s, i);
    ShownAll(s);
    ShownAll(s');
    forall n ensures At(Now(s'), n) == if Touches(s, t, n) then At(s.store, n) else At(Now(s), n) {
      PublishShows(s, wal, t, i, |s.slots|, n);
    }
  }

  /** A value shown after the publication, at whatever instant, was the publisher's, or shown there before at a
      node it has not written. */
  lemma ShownAfter(s: Sys, wal: bool, t: TxId, k: nat, n: Node)
    requires StateInv(s) && Slots(s) && Enabled(s, wal, Publish(t)) && s.txs[t].slot.value < k <= |s.slots|
    requires n in ShownAt(Next(s, wal, Publish(t)), k)
    ensures var v := ShownAt(Next(s, wal, Publish(t)), k)[n];
      if Touches(s, t, n) then Mine(Now(s), s.txs[t].Touched(), Reserved(s.txs[t].undo), v) && v !in s.txs[t].marks && At(s.store, n) == Some(v)
      else At(ShownAt(s, k), n) == Some(v)
  {
    hide Shown, ShownAt, Now, WritesOf, Slots, LaterNodes, LaterFree;
    PublishNow(s, wal, t);
    PublishShows(s, wal, t, s.txs[t].slot.value, k, n);
    assert At(ShownAt(Next(s, wal, Publish(t)), k), n) == Some(ShownAt(Next(s, wal, Publish(t)), k)[n]);
    assert TxSound(s, t);
    SoundFits(Now(s), s.store, s.txs[t].undo, s.txs[t].marks);
  }

  /** A value of the publisher's own is shown, from its instant on, at no node but its own. */
  lemma MineShownAt(s: Sys, t: TxId, i: nat, k: nat, v: Val, m: Node)
    requires Later(s) && Pinned(s, t, i) && i < k <= |s.slots| && OneHolder(ShownAt(s, k))
    requires Mine(Now(s), s.txs[t].Touched(), Reserved(s.txs[t].undo), v) && At(ShownAt(s, k), m) == Some(v)
    ensures Touches(s, t, m)
  {
    hide Shown, ShownAt, Now;
    assert Holding(ShownAt(s, k), v);
    assert !Owns(s, t, v);
    var n :| n in s.txs[t].Touched() && At(Now(s), n) == Some(v);
    ShownLater(s, t, i, k, n);
  }

  lemma PublishUnique(s: Sys, wal: bool, t: TxId, k: nat)
    requires StateInv(s) && Slots(s) && Enabled(s, wal, Publish(t)) && k <= |s.slots|
    ensures OneHolder(ShownAt(Next(s, wal, Publish(t)), k))
  {
    hide Sound, Mine, Shown, ShownAt, Now, WritesOf, Slots, LaterNodes, LaterFree;
    PublishNow(s, wal, t);
    var i, shown' := s.txs[t].slot.value, ShownAt(Next(s, wal, Publish(t)), k);
    if k <= i {
      PublishBefore(s, wal, t, i, k);
    } else {
      forall n, m | n in shown' && m in shown' && shown'[n] == shown'[m] ensures n == m {
        ShownAfter(s, wal, t, k, n);
        ShownAfter(s, wal, t, k, m);
        if Touches(s, t, n) && Touches(s, t, m) {
          assert TxSound(s, t);
          SoundFits(Now(s), s.store, s.txs[t].undo, s.txs[t].marks);
        } else if Touches(s, t, n) {
          MineShownAt(s, t, i, k, shown'[n], m);
        } else if Touches(s, t, m) {
          MineShownAt(s, t, i, k, shown'[m], n);
        }
      }
    }
  }

  /** What was the publisher's is now shown, or owed. */
  lemma PublishValue(s: Sys, wal: bool, t: TxId, v: Val)
    requires StateInv(s) && Slots(s) && Enabled(s, wal, Publish(t))
    ensures var s' := Next(s, wal, Publish(t));
      && (Holding(Now(s'), v) || Owns(s', t, v) <==> Holding(Now(s), v) || Owns(s, t, v))
      && !(Holding(Now(s'), v) && Owns(s', t, v))
      && (Holding(Now(s'), v) || Owns(s', t, v) ==> forall u :: u != t ==> !Owns(s, u, v))
  {
    hide Sound, Shown, ShownAt, WritesOf, Slots, LaterNodes, LaterFree;
    NowUnique(s);
    PublishNow(s, wal, t);
    ShownAll(s);
    ShownAll(Next(s, wal, Publish(t)));
    var s', tx := Next(s, wal, Publish(t)), s.txs[t];
    assert TxSound(s, t);
    SoundFits(Now(s), s.store, tx.undo, tx.marks);
    if Holding(Now(s'), v) {
      var n :| At(Now(s'), n) == Some(v);
      ShownAfter(s, wal, t, |s.slots|, n);
      if Touches(s, t, n) { assert Mine(Now(s), tx.Touched(), Reserved(tx.undo), v); } else { assert At(Now(s), n) == Some(v); }
    }
    if Mine(Now(s), tx.Touched(), Reserved(tx.undo), v) {
      if v !in tx.marks {
        var n :| n in tx.Touched() && At(s.store, n) == Some(v);
        assert Touches(s, t, n) && At(Now(s'), n) == Some(v);
      }
      assert v in Reserved(tx.undo) ==> Owns(s, t, v);
    } else if Holding(Now(s), v) {
      var n :| At(Now(s), n) == Some(v);
      assert !Touches(s, t, n) && At(Now(s'), n) == Some(v);
    }
  }

  lemma PublishKeeps(s: Sys, wal: bool, t: TxId)
    requires StateInv(s) && Slots(s) && Enabled(s, wal, Publish(t))
    ensures StateInv(Next(s, wal, Publish(t)))
  {
    hide AllSound, Apart, NodesApart, ValuesApart, ClaimsExact, RestShown, LaterNodes, LaterFree, Slots, OneHolder, Ended;
    var s' := Next(s, wal, Publish(t));
    PublishOthers(s, wal, t);
    PublishApart(s, wal, t);
    PublishLater(s, wal, t);
    assert |s'.slots| == |s.slots| by { EndedSame(s.slots, s.txs[t].slot, Done(Commit(t, WritesOf(s.store, s.txs[t])))); }
    forall k | 0 <= k <= |s'.slots| ensures OneHolder(ShownAt(s', k)) { PublishUnique(s, wal, t, k); }
    BothApart(s');
  }

  lemma BothApart(s: Sys)
    requires NodesApart(s) && ValuesApart(s)
    ensures Apart(s)
  {
  }

  lemma EndedSame(slots: seq<Slot>, slot: Option<nat>, how: Slot)
    ensures |Ended(slots, slot, how)| == |slots|
  {
  }

  /** What the others, with earlier instants, have is not the publisher's. */
  lemma PublishLater(s: Sys, wal: bool, t: TxId)
    requires StateInv(s) && Slots(s) && Enabled(s, wal, Publish(t))
    ensures Later(Next(s, wal, Publish(t)))
  {
    hide Sound, Mine, Shown, ShownAt, Now, WritesOf, Slots, Holding;
    PublishNow(s, wal, t);
    var s', i := Next(s, wal, Publish(t)), s.txs[t].slot.value;
    forall u, j ensures Pinned(s', u, j) <==> Pinned(s, u, j) && u != t { }
    forall u, n ensures Touches(s', u, n) <==> Touches(s, u, n) && u != t { }
    forall u, w | u != t ensures Owns(s', u, w) <==> Owns(s, u, w) { }
    forall j, n | Wrote(s', j, n) ensures Wrote(s, j, n) || (j == i && Touches(s, t, n)) { WritesAre(s.store, s.txs[t], n); }
    forall u, j, k, v | Pinned(s', u, j) && Owns(s', u, v) && 0 <= j < k <= |s'.slots| ensures !Holding(ShownAt(s', k), v) {
      PublishReserved(s, wal, t, u, j, k, v);
    }
  }

  lemma IsMine(s: Sys, u: TxId, v: Val)
    requires Holder(s, u) && Owns(s, u, v)
    ensures Mine(Now(s), s.txs[u].Touched(), Reserved(s.txs[u].undo), v)
  {
  }

  lemma PublishReserved(s: Sys, wal: bool, t: TxId, u: TxId, j: int, k: nat, v: Val)
    requires StateInv(s) && Slots(s) && Enabled(s, wal, Publish(t))
    requires u != t && Pinned(s, u, j) && Owns(s, u, v) && 0 <= j < k <= |s.slots|
    ensures !Holding(ShownAt(Next(s, wal, Publish(t)), k), v)
  {
    hide Sound, Mine, Shown, ShownAt, Now, WritesOf, Slots;
    var s', i := Next(s, wal, Publish(t)), s.txs[t].slot.value;
    PublishNow(s, wal, t);
    NowUnique(s);
    assert Mine(Now(s), s.txs[u].Touched(), Reserved(s.txs[u].undo), v) by { IsMine(s, u, v); }
    if k <= i {
      PublishBefore(s, wal, t, i, k);
    } else {
      assert !Holding(ShownAt(s, k), v);
      forall n ensures At(ShownAt(s', k), n) != Some(v) {
        if n in ShownAt(s', k) && ShownAt(s', k)[n] == v {
          ShownAfter(s, wal, t, k, n);
          if Touches(s, t, n) { MineApart(s, t, u, v); }
        }
      }
    }
  }

  lemma PublishOthers(s: Sys, wal: bool, t: TxId)
    requires StateInv(s) && Slots(s) && Enabled(s, wal, Publish(t))
    ensures AllSound(Next(s, wal, Publish(t))) && RestShown(Next(s, wal, Publish(t))) && NodesApart(Next(s, wal, Publish(t)))
  {
    hide Sound, Shown, WritesOf, Slots, LaterNodes, LaterFree;
    var s' := Next(s, wal, Publish(t));
    PublishNow(s, wal, t);
    forall u, m ensures Touches(s', u, m) <==> Touches(s, u, m) && u != t { }
    forall u | u in s'.txs ensures TxSound(s', u) {
      if u != t {
        assert TxSound(s, u);
        if Holder(s, u) {
          forall m | m in s.txs[u].Touched() ensures At(Now(s'), m) == At(Now(s), m) { assert Touches(s, u, m); }
          SoundAlike(Now(s), Now(s'), s.store, s'.store, s.txs[u].undo, s.txs[u].marks);
        }
      }
    }
    forall m | Untouched(s', m) ensures At(s'.store, m) == At(Now(s'), m) {
      if !Touches(s, t, m) {
        forall u ensures !Touches(s, u, m) { assert !Touches(s', u, m); }
        assert Untouched(s, m);
      }
    }
  }

  lemma PublishApart(s: Sys, wal: bool, t: TxId)
    requires StateInv(s) && Slots(s) && Enabled(s, wal, Publish(t))
    ensures ValuesApart(Next(s, wal, Publish(t))) && ClaimsExact(Next(s, wal, Publish(t)))
  {
    hide Sound, Fits, Mine, Shown, Holding, WritesOf, Slots, LaterNodes, LaterFree;
    var s' := Next(s, wal, Publish(t));
    forall u, w | u != t ensures Owns(s', u, w) <==> Owns(s, u, w) { }
    forall u, v | Owns(s', u, v) ensures !Holding(Now(s'), v) && forall x :: Owns(s', x, v) ==> x == u {
      PublishValue(s, wal, t, v);
    }
    forall v ensures v in s'.claimed <==> Holding(Now(s'), v) || Owned(s', v) {
      PublishValue(s, wal, t, v);
      if u :| Owns(s, u, v) && u != t { assert Owns(s', u, v); }
      if u :| Owns(s', u, v) && u != t { assert Owns(s, u, v); }
    }
  }

  /** What is freed is nobody's, and nothing else is freed. */
  lemma FreeKeeps(s: Sys, wal: bool, t: TxId)
    requires StateInv(s) && Enabled(s, wal, Free(t))
    ensures StateInv(Next(s, wal, Free(t)))
  {
    hide Sound, Shown, Holding;
    var s' := Next(s, wal, Free(t));
    forall u, i ensures Pinned(s', u, i) <==> Pinned(s, u, i) { }
    forall j, m ensures Wrote(s', j, m) <==> Wrote(s, j, m) { }
    forall k ensures ShownAt(s', k) == ShownAt(s, k) { }
    forall u, n ensures Touches(s', u, n) <==> Touches(s, u, n) { }
    forall u, v ensures Owns(s', u, v) <==> Owns(s, u, v) && u != t { }
    forall v ensures v in s'.claimed <==> Holding(Now(s'), v) || Owned(s', v) {
      if v in s.txs[t].marks { assert Owns(s, t, v); }
      if u :| Owns(s, u, v) && u != t { assert Owns(s', u, v); }
      if u :| Owns(s', u, v) { assert Owns(s, u, v); }
    }
    forall u | u in s'.txs ensures TxSound(s', u) { assert TxSound(s, u); }
    forall n | Untouched(s', n) ensures At(s'.store, n) == At(Now(s'), n) {
      forall u ensures !Touches(s, u, n) { assert !Touches(s', u, n); }
      assert Untouched(s, n);
    }
  }

  // ------------------------------------------------------------------ every step, every run

  /** The steps in which only the transaction's phase moves. */
  predicate Quiet(op: Op) { !op.Set? && !op.Publish? && !op.Free? && !op.UndoOne? && !op.Skip? }

  lemma {:induction false} ShownUndone(h: seq<Slot>, i: nat, sl: Slot)
    requires i < |h| && !h[i].Done? && !sl.Done?
    ensures Shown(h[i := sl]) == Shown(h)
  {
    var h' := h[i := sl];
    if i < |h| - 1 {
      ShownUndone(h[..|h| - 1], i, sl);
      assert h'[..|h| - 1] == h[..|h| - 1][i := sl];
    } else {
      assert h'[..|h| - 1] == h[..|h| - 1];
    }
  }

  lemma StampUnseen(s: Sys, s': Sys, t: TxId)
    requires s'.slots == s.slots + [Pending(t)]
    ensures Unseen(s, s')
  {
    hide Shown;
    forall k | 0 <= k <= |s.slots| ensures ShownAt(s', k) == ShownAt(s, k) { assert s'.slots[..k] == s.slots[..k]; }
    ShownAll(s);
    ShownPush(s', |s.slots|);
    ShownAll(s');
  }

  lemma GoneUnseen(s: Sys, s': Sys, i: nat, t: TxId)
    requires i < |s.slots| && !s.slots[i].Done? && s'.slots == s.slots[i := Gone(t)]
    ensures Unseen(s, s')
  {
    hide Shown;
    forall k | 0 <= k <= |s.slots| ensures ShownAt(s', k) == ShownAt(s, k) {
      if i < k {
        ShownUndone(s.slots[..k], i, Gone(t));
        assert s'.slots[..k] == s.slots[..k][i := Gone(t)];
      } else {
        assert s'.slots[..k] == s.slots[..k];
      }
    }
    ShownAll(s);
    ShownAll(s');
  }

  lemma SameUnseen(s: Sys, s': Sys)
    requires s'.slots == s.slots
    ensures Unseen(s, s')
  {
    ShownAll(s);
  }

  lemma QuietStepKeeps(s: Sys, wal: bool, op: Op)
    requires StateInv(s) && Slots(s) && Enabled(s, wal, op) && Quiet(op)
    ensures StateInv(Next(s, wal, op))
  {
    hide Sound, Shown, Unseen, StateInv;
    var s', t := Next(s, wal, op), op.t;
    QuietUnseen(s, wal, op);
    if op.Begin? {
      NoWrites(s, s', t);
    } else {
      TxIsSound(s, t);
      if op.Abort? { NothingLeft(s, t); NothingLeft(s', t); }
    }
    QuietKeeps(s, s', t);
  }

  lemma TxIsSound(s: Sys, t: TxId)
    requires StateInv(s) && t in s.txs
    ensures TxSound(s, t)
  {
  }

  lemma QuietUnseen(s: Sys, wal: bool, op: Op)
    requires Slots(s) && Enabled(s, wal, op) && Quiet(op)
    ensures Unseen(s, Next(s, wal, op)) && Now(Next(s, wal, op)) == Now(s)
  {
    hide Shown;
    var s', t := Next(s, wal, op), op.t;
    if op.Stamp? {
      StampUnseen(s, s', t);
    } else if op.Abort? && s.txs[t].slot.Some? {
      assert TxSlot(s, t) && SlotOk(s, s.txs[t].slot.value);
      GoneUnseen(s, s', s.txs[t].slot.value, t);
    } else {
      SameUnseen(s, s');
    }
  }

  lemma NoWrites(s: Sys, s': Sys, t: TxId)
    requires t !in s.txs && t in s'.txs && s'.txs[t].undo == [] && s'.txs[t].marks == {} && s'.txs[t].phase.Open?
    ensures TxSound(s', t) && (forall n :: !Touches(s', t, n)) && (forall v :: !Owns(s', t, v))
  {
    assert Nodes(s'.txs[t].undo) == {} && Reserved(s'.txs[t].undo) == {};
  }

  lemma NothingLeft(s: Sys, t: TxId)
    requires t in s.txs && TxSound(s, t) && s.txs[t].undo == [] && !s.txs[t].phase.Published?
    ensures s.txs[t].marks == {} && (forall n :: !Touches(s, t, n)) && (forall v :: !Owns(s, t, v))
  {
    var tx := s.txs[t];
    assert Nodes(tx.undo) == {} && Reserved(tx.undo) == {};
  }

  lemma StepKeepsState(s: Sys, wal: bool, op: Op)
    requires StateInv(s) && Slots(s) && Enabled(s, wal, op) && !op.Skip?
    ensures StateInv(Next(s, wal, op))
  {
    hide StateInv, Slots;
    match op
    case Set(t, n, v) => SetKeeps(s, wal, t, n, v);
    case Publish(t) => PublishKeeps(s, wal, t);
    case Free(t) => FreeKeeps(s, wal, t);
    case UndoOne(t) => UndoKeeps(s, wal, t);
    case _ => QuietStepKeeps(s, wal, op);
  }

  lemma StepKeepsSlots(s: Sys, wal: bool, op: Op)
    requires Slots(s) && Enabled(s, wal, op)
    ensures Slots(Next(s, wal, op))
  {
    hide SlotOk, TxSlot, Next, Enabled;
    var s' := Next(s, wal, op);
    forall i | 0 <= i < |s'.slots| ensures SlotOk(s', i) { StepSlotOk(s, wal, op, i); }
    forall u | u in s'.txs ensures TxSlot(s', u) { StepTxSlot(s, wal, op, u); }
  }

  /** An instant still to end is pending. */
  lemma OwnSlot(s: Sys, t: TxId)
    requires Slots(s) && t in s.txs
    ensures s.txs[t].slot.Some? ==> s.txs[t].slot.value < |s.slots|
    ensures s.txs[t].slot.Some? && s.txs[t].phase.Holds() ==> s.slots[s.txs[t].slot.value] == Pending(t)
  {
    assert TxSlot(s, t);
    if s.txs[t].slot.Some? { assert SlotOk(s, s.txs[t].slot.value); }
  }

  lemma StepSlotOk(s: Sys, wal: bool, op: Op, i: nat)
    requires Slots(s) && Enabled(s, wal, op) && i < |Next(s, wal, op).slots|
    ensures SlotOk(Next(s, wal, op), i)
  {
    hide Next, SlotOk, TxSlot;
    if i < |s.slots| && !Owner(s.slots[i], op.t) { OtherSlotOk(s, wal, op, i); } else { OwnSlotOk(s, wal, op, i); }
  }

  lemma OtherSlotOk(s: Sys, wal: bool, op: Op, i: nat)
    requires Slots(s) && Enabled(s, wal, op) && i < |s.slots| && !Owner(s.slots[i], op.t)
    ensures i < |Next(s, wal, op).slots| && SlotOk(Next(s, wal, op), i)
  {
    hide Written, Unmarked, WritesOf, TxSlot;
    if !op.Begin? { OwnSlot(s, op.t); }
    assert SlotOk(s, i);
  }

  lemma OwnSlotOk(s: Sys, wal: bool, op: Op, i: nat)
    requires Slots(s) && Enabled(s, wal, op) && i < |Next(s, wal, op).slots| && (i < |s.slots| ==> Owner(s.slots[i], op.t))
    ensures SlotOk(Next(s, wal, op), i)
  {
    hide Written, Unmarked, WritesOf, TxSlot;
    if !op.Begin? { OwnSlot(s, op.t); }
    if i < |s.slots| { assert SlotOk(s, i); }
  }

  lemma StepTxSlot(s: Sys, wal: bool, op: Op, u: TxId)
    requires Slots(s) && Enabled(s, wal, op) && u in Next(s, wal, op).txs
    ensures TxSlot(Next(s, wal, op), u)
  {
    hide Next, SlotOk, TxSlot;
    if u == op.t { OwnTxSlot(s, wal, op); } else { OtherTxSlot(s, wal, op, u); }
  }

  lemma OwnTxSlot(s: Sys, wal: bool, op: Op)
    requires Slots(s) && Enabled(s, wal, op) && op.t in Next(s, wal, op).txs
    ensures TxSlot(Next(s, wal, op), op.t)
  {
    hide Written, Unmarked, WritesOf, SlotOk;
    if !op.Begin? { assert TxSlot(s, op.t); }
  }

  lemma OtherTxSlot(s: Sys, wal: bool, op: Op, u: TxId)
    requires Slots(s) && Enabled(s, wal, op) && u in Next(s, wal, op).txs && u != op.t
    ensures TxSlot(Next(s, wal, op), u)
  {
    hide Written, Unmarked, WritesOf, SlotOk;
    assert TxSlot(s, u);
    if !op.Begin? { OwnSlot(s, op.t); }
  }
}
