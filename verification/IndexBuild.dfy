/** CREATE INDEX against concurrent explicit transactions: record, wait out the deciders, wait for the
    frontier, snapshot and scan, replay and register. */
module IndexBuild {
  import opened IndexEntries

  type Node = nat
  type TxId = nat

  /** Entered: inside the commit-decision bracket, until Exited. */
  datatype Phase = Open | Entered | Decided(kept: bool) | Applied | Published | Exited | Aborted

  /** `slot` is its commit instant; `snapshot`, the transactions it sees. */
  datatype Tx = Tx(phase: Phase, writes: map<Node, seq<Write>>, snapshot: set<TxId>, slot: Option<nat>)
  {
    function On(n: Node): seq<Write> { if n in writes then writes[n] else [] }

    predicate Active() { phase.Open? || phase.Entered? || phase.Decided? || phase.Applied? }

    predicate InBracket() { phase.Entered? || phase.Decided? || phase.Applied? || phase.Published? }

    predicate Settled() { phase.Published? || phase.Exited? || phase.Aborted? }
  }

  datatype Commit = Commit(tx: TxId, writes: map<Node, seq<Write>>)
  {
    function On(n: Node): seq<Write> { if n in writes then writes[n] else [] }
  }

  /** A delivery: its commit's changes, resolved on what was published of each node by then. `missed` is what
      a commit that had dropped its own changes, and was still to publish, had written to the node; `upto`, how
      many commits had been published. */
  datatype Delivery = Delivery(commit: Commit, base: Node -> NodeState, missed: Node -> seq<Write>, upto: nat)
  {
    function On(n: Node): seq<Write> { commit.On(n) }

    predicate Has(n: Node) { On(n) != [] }

    /** The state its changes are resolved against. */
    function Final(n: Node): NodeState { Run(base(n), On(n)) }

    /** What the node is without and with the commit once the one missed is published too. */
    function Before(n: Node): NodeState { Run(base(n), missed(n)) }

    function True(n: Node): NodeState { Run(Before(n), On(n)) }

    function Names(n: Node): set<string> { Touched(base(n), On(n)) }

    /** It was resolved on less than the node is. */
    predicate Stale(n: Node) { base(n) != Before(n) }
  }

  datatype Build =
    | Idle
    | Recording(log: seq<Delivery>)
    | Draining(log: seq<Delivery>)                                  // no commit may enter the bracket
    | Drained(log: seq<Delivery>, awaited: nat)                     // waiting for the frontier to reach this
    | Scanned(log: seq<Delivery>, scan: Node -> NodeState, seen: set<TxId>)
    | Registered(log: seq<Delivery>, scan: Node -> NodeState, seen: set<TxId>, index: Node -> set<string>)
  {
    predicate Logs() { Recording? || Draining? || Drained? || Scanned? }

    function Log(): seq<Delivery> { if Idle? then [] else log }
  }

  /** `slots` holds the commit instants in order, `frontier` how many of them nothing is in flight below;
      `history`, the published commits in order; `locks`, the nodes a delivery holds until it publishes. */
  datatype Sys = Sys(txs: map<TxId, Tx>, slots: seq<TxId>, frontier: nat, history: seq<Commit>, locks: map<Node, Commit>, build: Build)

  const Start := Sys(map[], [], 0, [], map[], Idle)

  /** What each commit wrote to the node, in order. */
  function OnNode(h: seq<Commit>, n: Node): seq<seq<Write>> {
    if h == [] then []
    else
      var rest, c := OnNode(h[..|h| - 1], n), h[|h| - 1];
      if c.On(n) != [] then rest + [c.On(n)] else rest
  }

  function After(line: seq<seq<Write>>): NodeState {
    if line == [] then Absent else Run(After(line[..|line| - 1]), line[|line| - 1])
  }

  function Committed(s: Sys, n: Node): NodeState { After(OnNode(s.history, n)) }

  /** What a snapshot sees: the instants below the frontier. */
  function Visible(s: Sys): set<TxId> { set t | t in s.txs && s.txs[t].slot.Some? && s.txs[t].slot.value < s.frontier }

  function Seen(h: seq<Commit>, visible: set<TxId>): seq<Commit> {
    if h == [] then []
    else
      var rest, c := Seen(h[..|h| - 1], visible), h[|h| - 1];
      if c.tx in visible then rest + [c] else rest
  }

  // ------------------------------------------------------------------ steps

  datatype Op =
    | Begin(t: TxId)
    | WriteTo(t: TxId, n: Node, w: Write)
    | Enter(t: TxId)
    | Stamp(t: TxId)           // the commit instant: before the log's record, or last thing before publishing
    | Decide(t: TxId, kept: bool)
    | Deliver(t: TxId)
    | Publish(t: TxId)
    | Exit(t: TxId)
    | Abort(t: TxId)
    | Advance                  // the frontier passes one more instant
    | BeginBuild
    | AwaitDecisions
    | DecisionsDrained
    | Scan
    | FinishBuild
    | AbandonBuild

  predicate In(s: Sys, t: TxId, p: Phase) { t in s.txs && s.txs[t].phase == p }

  function CommitOf(s: Sys, t: TxId): Commit
    requires t in s.txs
  {
    Commit(t, s.txs[t].writes)
  }

  predicate ClashFree(w: Write, ws: seq<Write>) { forall i :: 0 <= i < |ws| ==> !Clash(w, ws[i]) }

  ghost predicate Enabled(s: Sys, op: Op) {
    match op
    case Begin(t) => t !in s.txs
    case WriteTo(t, n, w) =>
      // The conflict rule, store by store: nobody else has a write pending there, and no commit there is
      // newer than the transaction's snapshot. So what the write reads of the node is as committed.
      && In(s, t, Open)
      && (forall u :: u in s.txs && u != t && s.txs[u].Active() ==> ClashFree(w, s.txs[u].On(n)))
      && (forall c :: c in s.history && !ClashFree(w, c.On(n)) ==> c.tx in s.txs[t].snapshot)
      && TakesEffect(Run(Committed(s, n), s.txs[t].On(n)), w)
      // A node is created under a key no node has held.
      && (w.Create? ==> OnNode(s.history, n) == [] && s.txs[t].On(n) == [])
    case Enter(t) => In(s, t, Open) && !s.build.Draining?
    case Stamp(t) => t in s.txs && (s.txs[t].phase.Entered? || s.txs[t].phase.Decided? || s.txs[t].phase.Applied?) && s.txs[t].slot.None?
    case Decide(t, kept) => In(s, t, Entered) && (s.build.Logs() || s.build.Registered? ==> kept)
    case Deliver(t) => In(s, t, Decided(true)) && forall n :: n in s.locks ==> s.txs[t].On(n) == []
    case Publish(t) => (In(s, t, Applied) || In(s, t, Decided(false))) && s.txs[t].slot.Some?
    case Exit(t) => In(s, t, Published)
    case Abort(t) => In(s, t, Open) || In(s, t, Entered)
    case Advance => s.frontier < |s.slots| && s.slots[s.frontier] in s.txs && s.txs[s.slots[s.frontier]].Settled()
    case BeginBuild => s.build.Idle?
    case AwaitDecisions => s.build.Recording?
    case DecisionsDrained => s.build.Draining? && forall t :: t in s.txs ==> !s.txs[t].InBracket()
    case Scan => s.build.Drained? && s.build.awaited <= s.frontier
    case FinishBuild => s.build.Scanned?
    case AbandonBuild => s.build.Logs()
  }

  /** A commit that dropped its changes and is still to publish has written the node. */
  predicate DropsOn(s: Sys, t: TxId, n: Node) { In(s, t, Decided(false)) && s.txs[t].On(n) != [] }

  ghost function MissedOn(s: Sys, n: Node): seq<Write> {
    if t :| DropsOn(s, t, n) then s.txs[t].On(n) else []
  }

  ghost function DeliveryOf(s: Sys, c: Commit): Delivery {
    Delivery(c, (n: Node) => Committed(s, n), (n: Node) => MissedOn(s, n), |s.history|)
  }

  function ApplyTo(d: Delivery, n: Node, x: set<string>): set<string> {
    if d.Has(n) then Delivered(d.base(n), d.On(n), x) else x
  }

  function Replay(log: seq<Delivery>, n: Node, x: set<string>): set<string> {
    if log == [] then x else ApplyTo(log[|log| - 1], n, Replay(log[..|log| - 1], n, x))
  }

  /** A delivery is recorded, or applied to the registered index; never both, never neither. */
  function AfterDelivery(b: Build, d: Delivery): Build {
    match b
    case Idle => Idle
    case Recording(log) => Recording(log + [d])
    case Draining(log) => Draining(log + [d])
    case Drained(log, awaited) => Drained(log + [d], awaited)
    case Scanned(log, scan, seen) => Scanned(log + [d], scan, seen)
    case Registered(log, scan, seen, index) => Registered(log + [d], scan, seen, (n: Node) => ApplyTo(d, n, index(n)))
  }

  function Moved(s: Sys, t: TxId, p: Phase): Sys
    requires t in s.txs
  {
    s.(txs := s.txs[t := s.txs[t].(phase := p)])
  }

  ghost function Next(s: Sys, op: Op): Sys
    requires Enabled(s, op)
  {
    match op
    case Begin(t) => s.(txs := s.txs[t := Tx(Open, map[], Visible(s), None)])
    case WriteTo(t, n, w) =>
      var tx := s.txs[t];
      s.(txs := s.txs[t := tx.(writes := tx.writes[n := tx.On(n) + [w]])])
    case Enter(t) => Moved(s, t, Entered)
    case Stamp(t) => s.(txs := s.txs[t := s.txs[t].(slot := Some(|s.slots|))], slots := s.slots + [t])
    case Decide(t, kept) => Moved(s, t, Decided(kept))
    case Deliver(t) =>
      var c := CommitOf(s, t);
      Moved(s, t, Applied).(
        locks := map n | n in s.locks.Keys + c.writes.Keys && (n in s.locks || c.On(n) != []) :: if n in s.locks then s.locks[n] else c,
        build := AfterDelivery(s.build, DeliveryOf(s, c)))
    case Publish(t) =>
      Moved(s, t, Published).(history := s.history + [CommitOf(s, t)], locks := map n | n in s.locks && s.locks[n].tx != t :: s.locks[n])
    case Exit(t) => Moved(s, t, Exited)
    case Abort(t) => Moved(s, t, Aborted)
    case Advance => s.(frontier := s.frontier + 1)
    case BeginBuild => s.(build := Recording([]))
    case AwaitDecisions => s.(build := Draining(s.build.log))
    case DecisionsDrained => s.(build := Drained(s.build.log, |s.slots|))
    case Scan =>
      var h, visible := s.history, Visible(s);
      s.(build := Scanned(s.build.log, (n: Node) => After(OnNode(Seen(h, visible), n)), visible))
    case FinishBuild =>
      var log, scan := s.build.log, s.build.scan;
      s.(build := Registered(log, scan, s.build.seen, (n: Node) => Replay(log, n, Entries(scan(n)))))
    case AbandonBuild => s.(build := Idle)
  }

  /** A run of operations; one that is not enabled does nothing. */
  ghost function Exec(ops: seq<Op>): Sys {
    if ops == [] then Start
    else
      var s, op := Exec(ops[..|ops| - 1]), ops[|ops| - 1];
      if Enabled(s, op) then Next(s, op) else s
  }

  // ------------------------------------------------------------------ what every step keeps of the transactions

  predicate Done(s: Sys, t: TxId) { t in s.txs && (s.txs[t].phase.Published? || s.txs[t].phase.Exited?) }

  predicate Holds(s: Sys, n: Node)
    requires n in s.locks
  {
    var c := s.locks[n];
    c.tx in s.txs && s.txs[c.tx].phase == Applied && c == CommitOf(s, c.tx) && c.On(n) != []
  }

  predicate Writing(s: Sys, t: TxId, n: Node) { t in s.txs && s.txs[t].Active() && s.txs[t].On(n) != [] }

  ghost predicate AllDone(s: Sys) { forall i :: 0 <= i < |s.history| ==> Done(s, s.history[i].tx) }

  /** Two active transactions have written a node only in different stores. */
  ghost predicate WritersApart(s: Sys) {
    forall t, u, n :: Writing(s, t, n) && Writing(s, u, n) && t != u ==> Apart(s.txs[t].On(n), s.txs[u].On(n))
  }

  ghost predicate LocksHeld(s: Sys) { forall n :: n in s.locks ==> Holds(s, n) }

  ghost predicate AppliedHolds(s: Sys) {
    forall t, n :: Writing(s, t, n) && s.txs[t].phase.Applied? ==> n in s.locks && s.locks[n].tx == t
  }

  /** What an active transaction has written takes effect on what is committed, whoever commits to the other
      stores meanwhile. */
  ghost predicate WritesValid(s: Sys) { forall t, n :: Writing(s, t, n) ==> Valid(Committed(s, n), s.txs[t].On(n)) }

  ghost predicate Possibles(s: Sys) { forall n :: Possible(Committed(s, n)) }

  ghost predicate TxInv(s: Sys) {
    AllDone(s) && WritersApart(s) && LocksHeld(s) && AppliedHolds(s) && WritesValid(s) && Possibles(s)
  }

  predicate SlotOk(s: Sys, t: TxId)
    requires t in s.txs
  {
    var tx := s.txs[t];
    && (tx.slot.Some? ==> tx.slot.value < |s.slots| && s.slots[tx.slot.value] == t)
    && (tx.phase.Open? ==> tx.slot.None?)
    && (tx.phase.Published? || tx.phase.Exited? ==> tx.slot.Some?)
  }

  /** An instant is one transaction's, and the frontier has passed none still in flight. */
  ghost predicate SlotInv(s: Sys) {
    && s.frontier <= |s.slots|
    && (forall t :: t in s.txs ==> SlotOk(s, t))
    && (forall i :: 0 <= i < s.frontier ==> s.slots[i] in s.txs && s.txs[s.slots[i]].Settled())
  }

  lemma OnNodePush(h: seq<Commit>, c: Commit, n: Node)
    ensures OnNode(h + [c], n) == if c.On(n) != [] then OnNode(h, n) + [c.On(n)] else OnNode(h, n)
  {
    assert (h + [c])[..|h|] == h;
  }

  lemma AfterPush(line: seq<seq<Write>>, ws: seq<Write>)
    ensures After(line + [ws]) == Run(After(line), ws)
  {
    assert (line + [ws])[..|line|] == line;
  }

  /** What a publication makes of the node. */
  lemma CommittedPush(s: Sys, s': Sys, c: Commit, n: Node)
    requires s'.history == s.history + [c]
    ensures Committed(s', n) == Run(Committed(s, n), c.On(n))
  {
    OnNodePush(s.history, c, n);
    AfterPush(OnNode(s.history, n), c.On(n));
  }

  /** Only the transaction t has changed. */
  ghost predicate OnlyTx(s: Sys, s': Sys, t: TxId) {
    && s'.history == s.history && s'.locks == s.locks
    && (forall u :: u != t ==> (u in s'.txs <==> u in s.txs) && (u in s.txs ==> s'.txs[u] == s.txs[u]))
  }

  /** A transaction that neither holds nor takes a lock changes: its writes must still be apart and valid. */
  lemma OneTxKeeps(s: Sys, s': Sys, t: TxId)
    requires TxInv(s) && OnlyTx(s, s', t) && t in s'.txs
    requires t in s.txs ==> !s.txs[t].phase.Applied?
    requires !s'.txs[t].phase.Applied?
    requires Done(s, t) ==> Done(s', t)
    requires forall n :: Writing(s', t, n) ==> Valid(Committed(s, n), s'.txs[t].On(n))
    requires forall n, u :: Writing(s', t, n) && Writing(s, u, n) && u != t ==>
      Apart(s'.txs[t].On(n), s.txs[u].On(n)) && Apart(s.txs[u].On(n), s'.txs[t].On(n))
    ensures TxInv(s')
  {
    hide Apart, Valid, Run;
    assert forall u :: Done(s, u) ==> Done(s', u);
    forall n | n in s'.locks ensures Holds(s', n) { assert Holds(s, n); }
    forall u, n | Writing(s', u, n) && u != t ensures Writing(s, u, n) { }
    forall n ensures Committed(s', n) == Committed(s, n) { }
  }

  lemma WriteValid(x: NodeState, ws: seq<Write>, w: Write)
    requires Valid(x, ws) && TakesEffect(Run(x, ws), w)
    ensures Valid(x, ws + [w])
  {
    RunAppend(x, ws, [w]);
    assert [w][1..] == [];
  }

  lemma ApartPush(a: seq<Write>, w: Write, b: seq<Write>)
    requires Apart(a, b) && ClashFree(w, b)
    ensures Apart(a + [w], b) && Apart(b, a + [w])
  {
  }

  lemma WriteKeeps(s: Sys, t: TxId, n: Node, w: Write)
    requires TxInv(s) && Enabled(s, WriteTo(t, n, w))
    ensures TxInv(Next(s, WriteTo(t, n, w)))
  {
    hide Clash;
    var s' := Next(s, WriteTo(t, n, w));
    forall m | Writing(s', t, m) ensures Valid(Committed(s, m), s'.txs[t].On(m)) {
      if m == n { WriteValid(Committed(s, n), s.txs[t].On(n), w); } else { assert Writing(s, t, m); }
    }
    forall m, u | Writing(s', t, m) && Writing(s, u, m) && u != t
      ensures Apart(s'.txs[t].On(m), s.txs[u].On(m)) && Apart(s.txs[u].On(m), s'.txs[t].On(m))
    {
      if m == n {
        assert Apart(s.txs[t].On(n), s.txs[u].On(n)) by { assert Writing(s, t, n) || s.txs[t].On(n) == []; }
        ApartPush(s.txs[t].On(n), w, s.txs[u].On(n));
      } else {
        assert Writing(s, t, m);
      }
    }
    OneTxKeeps(s, s', t);
  }

  /** A transaction moves on in the bracket, takes its instant, or leaves without having applied. */
  lemma MoveKeeps(s: Sys, s': Sys, t: TxId)
    requires TxInv(s) && t in s.txs && OnlyTx(s, s', t) && t in s'.txs && s'.txs[t].writes == s.txs[t].writes
    requires !s.txs[t].phase.Applied? && !s'.txs[t].phase.Applied?
    requires Done(s, t) ==> Done(s', t)
    requires s'.txs[t].Active() ==> s.txs[t].Active()
    ensures TxInv(s')
  {
    hide Apart, Valid, Run;
    forall m | Writing(s', t, m) ensures Writing(s, t, m) { }
    OneTxKeeps(s, s', t);
  }

  /** Nothing of the transactions changes but an instant. */
  lemma SameKeeps(s: Sys, s': Sys)
    requires TxInv(s) && s'.history == s.history && s'.locks == s.locks && s'.txs.Keys == s.txs.Keys
    requires forall u :: u in s.txs ==> s'.txs[u].phase == s.txs[u].phase && s'.txs[u].writes == s.txs[u].writes
    ensures TxInv(s')
  {
    hide Apart, Valid, Run;
    forall n | n in s'.locks ensures Holds(s', n) { assert Holds(s, n); }
    forall t | Done(s, t) ensures Done(s', t) { }
    forall u, n | Writing(s', u, n) ensures Writing(s, u, n) && s'.txs[u].On(n) == s.txs[u].On(n) { }
    forall n ensures Committed(s', n) == Committed(s, n) { }
  }

  lemma DeliverLocks(s: Sys, t: TxId)
    requires LocksHeld(s) && AppliedHolds(s) && Enabled(s, Deliver(t))
    ensures LocksHeld(Next(s, Deliver(t))) && AppliedHolds(Next(s, Deliver(t)))
  {
    hide AfterDelivery, DeliveryOf;
    var s' := Next(s, Deliver(t));
    assert forall m :: s'.txs[t].On(m) == s.txs[t].On(m) && CommitOf(s', t).On(m) == s.txs[t].On(m);
    forall n | n in s'.locks ensures Holds(s', n) {
      if n in s.locks { assert Holds(s, n); }
    }
    forall u, n | Writing(s', u, n) && s'.txs[u].phase.Applied? ensures n in s'.locks && s'.locks[n].tx == u {
      assert Writing(s, u, n);
      if u == t { assert n in s.txs[t].writes; }
    }
  }

  lemma DeliverKeeps(s: Sys, t: TxId)
    requires TxInv(s) && Enabled(s, Deliver(t))
    ensures TxInv(Next(s, Deliver(t)))
  {
    hide Valid, Run, AfterDelivery, DeliveryOf, LocksHeld, AppliedHolds, Apart;
    var s' := Next(s, Deliver(t));
    DeliverLocks(s, t);
    assert forall u :: Done(s, u) ==> Done(s', u);
    forall u, n | Writing(s', u, n) ensures Writing(s, u, n) && s'.txs[u].On(n) == s.txs[u].On(n) { }
    forall n ensures Committed(s', n) == Committed(s, n) { }
  }

  lemma PublishKeeps(s: Sys, t: TxId)
    requires TxInv(s) && Enabled(s, Publish(t))
    ensures TxInv(Next(s, Publish(t)))
  {
    hide Valid, Run, Apart, Committed, Possible;
    var s', c := Next(s, Publish(t)), CommitOf(s, t);
    assert !Done(s, t);
    assert forall u :: Done(s, u) ==> Done(s', u);
    forall n | n in s'.locks ensures Holds(s', n) { assert Holds(s, n); }
    forall u, n | Writing(s', u, n) ensures Writing(s, u, n) && u != t && s'.txs[u].On(n) == s.txs[u].On(n) { }
    forall u, n | Writing(s', u, n) ensures Valid(Committed(s', n), s'.txs[u].On(n)) { PublishValid(s, t, u, n); }
    forall n ensures Possible(Committed(s', n)) { PublishPossible(s, t, n); }
    forall i | 0 <= i < |s'.history| ensures Done(s', s'.history[i].tx) {
      if i < |s.history| { assert Done(s, s.history[i].tx); }
    }
  }

  lemma PublishValid(s: Sys, t: TxId, u: TxId, n: Node)
    requires TxInv(s) && Enabled(s, Publish(t)) && Writing(s, u, n) && u != t
    ensures Valid(Committed(Next(s, Publish(t)), n), s.txs[u].On(n))
  {
    hide Valid, Run, Clash;
    var c := CommitOf(s, t);
    CommittedPush(s, Next(s, Publish(t)), c, n);
    assert c.On(n) == s.txs[t].On(n);
    if c.On(n) != [] { assert Writing(s, t, n); }
    Commute(Committed(s, n), c.On(n), s.txs[u].On(n));
  }

  lemma PublishPossible(s: Sys, t: TxId, n: Node)
    requires TxInv(s) && Enabled(s, Publish(t))
    ensures Possible(Committed(Next(s, Publish(t)), n))
  {
    var c := CommitOf(s, t);
    CommittedPush(s, Next(s, Publish(t)), c, n);
    if c.On(n) != [] {
      assert Writing(s, t, n) && c.On(n) == s.txs[t].On(n);
      RunPossible(Committed(s, n), c.On(n));
    }
  }

  lemma StepKeepsTx(s: Sys, op: Op)
    requires TxInv(s) && Enabled(s, op)
    ensures TxInv(Next(s, op))
  {
    hide TxInv;
    match op
    case Begin(t) => BeginKeeps(s, t);
    case WriteTo(t, n, w) => WriteKeeps(s, t, n, w);
    case Enter(t) => MoveKeeps(s, Next(s, op), t);
    case Decide(t, kept) => MoveKeeps(s, Next(s, op), t);
    case Deliver(t) => DeliverKeeps(s, t);
    case Publish(t) => PublishKeeps(s, t);
    case Exit(t) => MoveKeeps(s, Next(s, op), t);
    case Abort(t) => MoveKeeps(s, Next(s, op), t);
    case _ => SameKeeps(s, Next(s, op));
  }

  lemma BeginKeeps(s: Sys, t: TxId)
    requires TxInv(s) && Enabled(s, Begin(t))
    ensures TxInv(Next(s, Begin(t)))
  {
    OneTxKeeps(s, Next(s, Begin(t)), t);
  }

  lemma StepKeepsSlots(s: Sys, op: Op)
    requires SlotInv(s) && Enabled(s, op)
    ensures SlotInv(Next(s, op))
  {
    hide SlotOk, Next, Enabled;
    var s' := Next(s, op);
    forall t | t in s'.txs ensures SlotOk(s', t) { StepSlot(s, op, t); }
    StepFrontier(s, op);
  }

  lemma StepSlot(s: Sys, op: Op, t: TxId)
    requires SlotInv(s) && Enabled(s, op) && t in Next(s, op).txs
    ensures SlotOk(Next(s, op), t)
  {
    hide AfterDelivery, DeliveryOf, Replay, Seen, OnNode, After, Committed, Visible, ClashFree, TakesEffect;
    if t in s.txs { assert SlotOk(s, t); }
  }

  lemma StepFrontier(s: Sys, op: Op)
    requires SlotInv(s) && Enabled(s, op)
    ensures var s' := Next(s, op);
      s'.frontier <= |s'.slots| && forall i :: 0 <= i < s'.frontier ==> s'.slots[i] in s'.txs && s'.txs[s'.slots[i]].Settled()
  {
    hide AfterDelivery, DeliveryOf, Replay, Seen, OnNode, After, Committed, SlotOk;
  }

  // ------------------------------------------------------------------ what a snapshot sees of a store

  function SlotOf(s: Sys, t: TxId): int { if t in s.txs && s.txs[t].slot.Some? then s.txs[t].slot.value else -1 }

  ghost predicate SnapOld(s: Sys) {
    forall t, u :: t in s.txs && u in s.txs[t].snapshot ==>
      0 <= SlotOf(s, u) < s.frontier && (s.txs[t].slot.Some? ==> SlotOf(s, u) < SlotOf(s, t))
  }

  /** An active transaction's snapshot has every commit its writes clash with. */
  ghost predicate SnapHas(s: Sys) {
    forall t, i, n :: t in s.txs && s.txs[t].Active() && 0 <= i < |s.history| && !Apart(s.txs[t].On(n), s.history[i].On(n)) ==>
      s.history[i].tx in s.txs[t].snapshot
  }

  ghost predicate InOrder(s: Sys) {
    forall i, j, n :: 0 <= i < j < |s.history| && !Apart(s.history[j].On(n), s.history[i].On(n)) ==>
      SlotOf(s, s.history[i].tx) < SlotOf(s, s.history[j].tx)
  }

  lemma StepSnapOld(s: Sys, op: Op)
    requires SlotInv(s) && SnapOld(s) && Enabled(s, op)
    ensures SnapOld(Next(s, op))
  {
    hide Next, Enabled, SlotOk;
    StepSlots(s, op);
    StepSnapshots(s, op);
  }

  lemma StepSlots(s: Sys, op: Op)
    requires SlotInv(s) && Enabled(s, op)
    ensures var s' := Next(s, op);
      && s.frontier <= s'.frontier && s.frontier <= |s.slots|
      && (forall t :: SlotOf(s, t) != -1 ==> SlotOf(s', t) == SlotOf(s, t))
      && (forall t :: SlotOf(s, t) == -1 && SlotOf(s', t) != -1 ==> SlotOf(s', t) == |s.slots|)
  {
    hide Committed, TakesEffect, ClashFree, Replay, Seen, OnNode, DeliveryOf, AfterDelivery, SlotOk;
  }

  lemma StepSnapshots(s: Sys, op: Op)
    requires Enabled(s, op)
    ensures forall t :: t in Next(s, op).txs ==>
      if t in s.txs then Next(s, op).txs[t].snapshot == s.txs[t].snapshot
      else Next(s, op).txs[t].snapshot == Visible(s) && Next(s, op).txs[t].slot.None?
    ensures forall t :: t in s.txs ==> t in Next(s, op).txs
  {
    hide Committed, TakesEffect, ClashFree, Replay, Seen, OnNode, DeliveryOf, AfterDelivery, Visible;
  }

  lemma StepSnapHas(s: Sys, op: Op)
    requires TxInv(s) && SnapHas(s) && Enabled(s, op)
    ensures SnapHas(Next(s, op))
  {
    hide Committed, TakesEffect, Replay, Seen, DeliveryOf, AfterDelivery, Clash, OnNode, Visible, WritesValid, Possibles;
    var s' := Next(s, op);
    forall t, i, n | t in s'.txs && s'.txs[t].Active() && 0 <= i < |s'.history| && !Apart(s'.txs[t].On(n), s'.history[i].On(n))
      ensures s'.history[i].tx in s'.txs[t].snapshot
    {
      assert s'.txs[t].On(n) != [];
      if op.WriteTo? && op.t == t && op.n == n {
        if Apart(s.txs[t].On(n), s.history[i].On(n)) && ClashFree(op.w, s.history[i].On(n)) {
          ApartPush(s.txs[t].On(n), op.w, s.history[i].On(n));
        }
      } else if op.Publish? && i == |s.history| {
        PublishApart(s, op.t, t, n);
      }
    }
  }

  lemma PublishApart(s: Sys, t: TxId, u: TxId, n: Node)
    requires WritersApart(s) && Enabled(s, Publish(t)) && u in s.txs && s.txs[u].Active() && u != t
    ensures Apart(s.txs[u].On(n), CommitOf(s, t).On(n))
  {
    assert CommitOf(s, t).On(n) == s.txs[t].On(n);
    if s.txs[t].On(n) != [] && s.txs[u].On(n) != [] { assert Writing(s, t, n) && Writing(s, u, n); }
  }

  lemma StepInOrder(s: Sys, op: Op)
    requires SlotInv(s) && AllDone(s) && SnapOld(s) && SnapHas(s) && InOrder(s) && Enabled(s, op)
    ensures InOrder(Next(s, op))
  {
    hide Next, Enabled, SlotOk, Apart, SnapOld;
    StepSlots(s, op);
    StepHistory(s, op);
    var s' := Next(s, op);
    forall i | 0 <= i < |s.history| ensures SlotOf(s, s.history[i].tx) != -1 { assert Done(s, s.history[i].tx) && SlotOk(s, s.history[i].tx); DoneSlot(s, s.history[i].tx); }
    forall i, j, n | 0 <= i < j < |s'.history| && !Apart(s'.history[j].On(n), s'.history[i].On(n))
      ensures SlotOf(s', s'.history[i].tx) < SlotOf(s', s'.history[j].tx)
    {
      if j == |s.history| {
        assert s.history[i].tx in s.txs[op.t].snapshot;
        SnapSlot(s, op.t, s.history[i].tx);
      }
    }
  }

  lemma DoneSlot(s: Sys, t: TxId)
    requires Done(s, t) && SlotOk(s, t)
    ensures SlotOf(s, t) != -1
  {
  }

  lemma SnapSlot(s: Sys, t: TxId, u: TxId)
    requires SnapOld(s) && t in s.txs && u in s.txs[t].snapshot && s.txs[t].slot.Some?
    ensures SlotOf(s, u) < SlotOf(s, t)
  {
  }

  lemma StepHistory(s: Sys, op: Op)
    requires Enabled(s, op)
    ensures var h, h' := s.history, Next(s, op).history;
      if op.Publish? then op.t in s.txs && h' == h + [CommitOf(s, op.t)] && s.txs[op.t].Active() && s.txs[op.t].slot.Some? && forall n :: CommitOf(s, op.t).On(n) == s.txs[op.t].On(n)
      else h' == h
  {
    hide Committed, TakesEffect, ClashFree, Replay, Seen, OnNode, DeliveryOf, AfterDelivery, Visible;
  }

  // ------------------------------------------------------------------ what a log says of a node

  predicate HasRec(log: seq<Delivery>, n: Node) { exists i :: 0 <= i < |log| && log[i].Has(n) }

  /** The deliveries to the node one after another: each resolved either on what the last one left, so still
      without the commit missed, or on all there is. */
  ghost predicate Fits(log: seq<Delivery>, n: Node, known: NodeState, full: NodeState) {
    if log == [] then true
    else
      var d, front := log[|log| - 1], log[..|log| - 1];
      if !d.Has(n) then Fits(front, n, known, full)
      else
        && Possible(d.base(n)) && Valid(d.base(n), d.On(n)) && Possible(d.Before(n)) && Valid(d.Before(n), d.On(n))
        && full == d.True(n) && (known == d.Final(n) || known == full)
        && Fits(front, n, d.base(n), d.Before(n))
  }

  lemma HasFront(log: seq<Delivery>, n: Node)
    requires log != []
    ensures HasRec(log, n) <==> HasRec(log[..|log| - 1], n) || log[|log| - 1].Has(n)
  {
    var front := log[..|log| - 1];
    if i :| 0 <= i < |log| && log[i].Has(n) { assert i < |front| ==> front[i].Has(n); }
    if i :| 0 <= i < |front| && front[i].Has(n) { assert log[i].Has(n); }
    if log[|log| - 1].Has(n) { assert HasRec(log, n); }
  }

  lemma {:induction false} FitsNone(log: seq<Delivery>, n: Node, known: NodeState, full: NodeState)
    requires !HasRec(log, n)
    ensures Fits(log, n, known, full)
  {
    if log != [] {
      HasFront(log, n);
      FitsNone(log[..|log| - 1], n, known, full);
    }
  }

  /** The commit missed publishes: what is known is all there is. */
  lemma {:induction false} FitsAll(log: seq<Delivery>, n: Node, known: NodeState, full: NodeState)
    requires Fits(log, n, known, full)
    ensures Fits(log, n, full, full)
  {
    if log != [] && !log[|log| - 1].Has(n) { FitsAll(log[..|log| - 1], n, known, full); }
  }

  /** The values the recorded deliveries to the node name. */
  function Named(log: seq<Delivery>, n: Node): set<string> {
    if log == [] then {}
    else
      var d := log[|log| - 1];
      Named(log[..|log| - 1], n) + if d.Has(n) then d.Names(n) else {}
  }

  /** The values the deliveries told wrong, and none after them has named. Of a delivery resolved on too
      little those are the entry it leaves that the node does not have, and the one the node has if it or
      one before it took that out; one resolved on all there is rights whatever it names. */
  function Wrong(log: seq<Delivery>, n: Node): set<string> {
    if log == [] then {}
    else
      var d, front := log[|log| - 1], log[..|log| - 1];
      if !d.Has(n) then Wrong(front, n)
      else if !d.Stale(n) then Wrong(front, n) - d.Names(n)
      else
        var told, truth := Entries(d.Final(n)), Entries(d.True(n));
        (told - truth) + (truth - told) * (Named(front, n) + d.Names(n))
  }

  lemma ReplayHead(log: seq<Delivery>, n: Node, x: set<string>)
    requires log != [] && log[|log| - 1].Has(n)
    requires var d := log[|log| - 1]; Possible(d.base(n)) && Valid(d.base(n), d.On(n))
    ensures var d, y := log[|log| - 1], Replay(log[..|log| - 1], n, x);
      && Replay(log, n, x) == (y - d.Names(n)) + Entries(d.Final(n))
      && Entries(d.base(n)) + Entries(d.Final(n)) <= d.Names(n)
  {
    var d := log[|log| - 1];
    DeliveredIs(d.base(n), d.On(n), Replay(log[..|log| - 1], n, x));
  }

  /** While the commit missed is still to publish, what has been named is as the deliveries were resolved. */
  lemma {:induction false} ToldAsKnown(log: seq<Delivery>, n: Node, known: NodeState, full: NodeState, x: set<string>)
    requires Fits(log, n, known, full) && known != full
    ensures Replay(log, n, x) * Named(log, n) <= Entries(known)
    ensures HasRec(log, n) ==> Entries(known) <= Named(log, n) && Entries(known) <= Replay(log, n, x)
  {
    hide Entries, Run, Valid, Possible, Touched;
    if log != [] {
      var d, front := log[|log| - 1], log[..|log| - 1];
      HasFront(log, n);
      if d.Has(n) {
        ReplayHead(log, n, x);
        assert d.base(n) != d.Before(n);
        ToldAsKnown(front, n, d.base(n), d.Before(n), x);
      } else {
        ToldAsKnown(front, n, known, full, x);
      }
    }
  }

  /** Of the values named, a replay has wrong exactly those told wrong and not named since. */
  lemma {:induction false} ReplayConverges(log: seq<Delivery>, n: Node, known: NodeState, full: NodeState, x: set<string>)
    requires Fits(log, n, known, full)
    ensures forall v :: v in Named(log, n) ==> (v in Wrong(log, n) <==> (v in Replay(log, n, x)) != (v in Entries(full)))
    ensures Wrong(log, n) <= Named(log, n)
  {
    hide Entries, Run, Valid, Possible, Touched;
    if log != [] {
      var d, front := log[|log| - 1], log[..|log| - 1];
      if !d.Has(n) {
        ReplayConverges(front, n, known, full, x);
      } else {
        ReplayHead(log, n, x);
        if d.Stale(n) {
          ToldAsKnown(front, n, d.base(n), d.Before(n), x);
        } else {
          ReplayConverges(front, n, d.base(n), d.Before(n), x);
          assert Wrong(log, n) == Wrong(front, n) - d.Names(n);
        }
      }
    }
  }

  predicate LastStale(log: seq<Delivery>, n: Node) {
    log != [] && if log[|log| - 1].Has(n) then log[|log| - 1].Stale(n) else LastStale(log[..|log| - 1], n)
  }

  /** Once one is resolved on all there is, so are the later ones. */
  lemma {:induction false} StaleFirst(log: seq<Delivery>, n: Node, known: NodeState, full: NodeState)
    requires Fits(log, n, known, full) && (LastStale(log, n) || known != full)
    ensures forall i :: 0 <= i < |log| && log[i].Has(n) ==> log[i].Stale(n)
  {
    if log != [] {
      var d, front := log[|log| - 1], log[..|log| - 1];
      if d.Has(n) { StaleFirst(front, n, d.base(n), d.Before(n)); } else { StaleFirst(front, n, known, full); }
      assert forall i :: 0 <= i < |front| ==> front[i] == log[i];
    }
  }

  lemma UnnamedStep(y: set<string>, x: set<string>, named: set<string>, more: set<string>, e: set<string>)
    requires y - named == x - named && e <= more
    ensures (y - more) + e - (named + more) == x - (named + more)
  {
    forall v | v !in named ensures v in y <==> v in x {
      assert v in y <==> v in y - named;
      assert v in x <==> v in x - named;
    }
  }

  /** What nobody named is as the scan left it, and not the node's entry if the last delivery was right. */
  lemma {:induction false} Unnamed(log: seq<Delivery>, n: Node, known: NodeState, full: NodeState, x: set<string>)
    requires Fits(log, n, known, full)
    ensures Replay(log, n, x) - Named(log, n) == x - Named(log, n)
    ensures HasRec(log, n) && !LastStale(log, n) ==> Entries(full) <= Named(log, n)
  {
    hide Entries, Run, Valid, Possible, Touched;
    if log != [] {
      var d, front := log[|log| - 1], log[..|log| - 1];
      HasFront(log, n);
      if d.Has(n) {
        ReplayHead(log, n, x);
        Unnamed(front, n, d.base(n), d.Before(n), x);
        UnnamedStep(Replay(front, n, x), x, Named(front, n), d.Names(n), Entries(d.Final(n)));
      } else {
        Unnamed(front, n, known, full, x);
        assert Named(log, n) == Named(front, n);
      }
    }
  }

  /** Every delivery to the node is one of those the scan saw. */
  predicate SeenAll(log: seq<Delivery>, n: Node, seen: set<TxId>) {
    forall i :: 0 <= i < |log| && log[i].Has(n) ==> log[i].commit.tx in seen
  }

  /** Whether the index comes to be right about the node: no value told wrong is left unnamed, and what the
      scan read has been named, unless it saw all of the recorded commits to the node. */
  predicate Settles(log: seq<Delivery>, n: Node, scanned: NodeState, seen: set<TxId>) {
    Wrong(log, n) == {} && (SeenAll(log, n, seen) || Entries(scanned) <= Named(log, n))
  }

  predicate StaleSeen(log: seq<Delivery>, n: Node, seen: set<TxId>) {
    forall i :: 0 <= i < |log| && log[i].Has(n) && log[i].Stale(n) ==> log[i].commit.tx in seen
  }

  lemma SameIff(z: set<string>, x: set<string>, named: set<string>, wrong: set<string>, truth: set<string>, all: bool)
    requires wrong <= named && forall v :: v in named ==> (v in wrong <==> (v in z) != (v in truth))
    requires z - named == x - named && (if all then x == truth else truth <= named)
    ensures z == truth <==> wrong == {} && (all || x <= named)
  {
    forall v | v !in named ensures v in z <==> v in x {
      assert v in z <==> v in z - named;
      assert v in x <==> v in x - named;
    }
  }

  lemma SettlesIff(log: seq<Delivery>, n: Node, known: NodeState, scanned: NodeState, seen: set<TxId>)
    requires Fits(log, n, known, known) && StaleSeen(log, n, seen) && (SeenAll(log, n, seen) ==> scanned == known)
    ensures Replay(log, n, Entries(scanned)) == Entries(known) <==> Settles(log, n, scanned, seen)
  {
    hide Entries, Run, Valid, Possible, Touched, Fits, Named, Wrong, Replay;
    var x := Entries(scanned);
    ReplayConverges(log, n, known, known, x);
    Unnamed(log, n, known, known, x);
    if !SeenAll(log, n, seen) { LastRight(log, n, known, seen); }
    SameIff(Replay(log, n, x), x, Named(log, n), Wrong(log, n), Entries(known), SeenAll(log, n, seen));
  }

  lemma LastRight(log: seq<Delivery>, n: Node, known: NodeState, seen: set<TxId>)
    requires Fits(log, n, known, known) && StaleSeen(log, n, seen) && !SeenAll(log, n, seen)
    ensures HasRec(log, n) && !LastStale(log, n)
  {
    hide Fits;
    var i :| 0 <= i < |log| && log[i].Has(n) && log[i].commit.tx !in seen;
    if LastStale(log, n) { StaleFirst(log, n, known, known); }
  }

  // ------------------------------------------------------------------ what every step keeps of a node

  /** What is published of the node, with the writes of the one delivering. */
  function Known(s: Sys, n: Node): NodeState {
    if n in s.locks then Run(Committed(s, n), s.locks[n].On(n)) else Committed(s, n)
  }

  ghost predicate OneDropper(s: Sys, n: Node) { forall t, u :: DropsOn(s, t, n) && DropsOn(s, u, n) ==> t == u }

  ghost predicate NoDropper(s: Sys) { forall t :: !In(s, t, Decided(false)) }

  /** The log of a node some delivery was recorded for. */
  ghost predicate Tracks(s: Sys, n: Node, log: seq<Delivery>) {
    HasRec(log, n) ==> OneDropper(s, n) && Fits(log, n, Known(s, n), Run(Known(s, n), MissedOn(s, n)))
  }

  predicate Reached(s: Sys, t: TxId) { t in s.txs && (s.txs[t].phase.Applied? || s.txs[t].phase.Published? || s.txs[t].phase.Exited?) }

  ghost predicate Recorded(log: seq<Delivery>, t: TxId, n: Node) { exists i :: 0 <= i < |log| && log[i].commit.tx == t && log[i].Has(n) }

  predicate Below(s: Sys, t: TxId, k: nat) { t in s.txs && s.txs[t].slot.Some? && s.txs[t].slot.value < k }

  /** After the drain every commit to the node is awaited or recorded, and what was resolved on too little
      is awaited. */
  ghost predicate Accounted(s: Sys, n: Node, log: seq<Delivery>, awaited: nat) {
    && (forall i :: 0 <= i < |s.history| && s.history[i].On(n) != [] ==> Below(s, s.history[i].tx, awaited) || Recorded(log, s.history[i].tx, n))
    && (n in s.locks ==> Recorded(log, s.locks[n].tx, n))
    && (forall i :: 0 <= i < |log| && log[i].Has(n) && log[i].Stale(n) ==> Below(s, log[i].commit.tx, awaited))
  }

  predicate RecordedIn(log: seq<Delivery>, t: TxId, n: Node, lo: int, hi: int) {
    exists j :: 0 <= j < |log| && lo <= j < hi && log[j].commit.tx == t && log[j].Has(n)
  }

  /** Where a delivery that is not awaited stands: resolved on the commits published before it, which are
      awaited or recorded earlier; those published since are its own or recorded later. */
  ghost predicate Stands(s: Sys, n: Node, log: seq<Delivery>, awaited: nat, k: nat)
    requires k < |log|
  {
    && log[k].upto <= |s.history| && log[k].base(n) == After(OnNode(s.history[..log[k].upto], n))
    && (forall i :: 0 <= i < log[k].upto && s.history[i].On(n) != [] ==>
          Below(s, s.history[i].tx, awaited) || RecordedIn(log, s.history[i].tx, n, 0, k))
    && (forall i :: log[k].upto <= i < |s.history| && s.history[i].On(n) != [] ==> RecordedIn(log, s.history[i].tx, n, k, |log|))
  }

  /** And the one delivering is recorded last. */
  ghost predicate Placed(s: Sys, n: Node, log: seq<Delivery>, awaited: nat) {
    && (forall k :: 0 <= k < |log| && log[k].Has(n) && !Below(s, log[k].commit.tx, awaited) ==> Stands(s, n, log, awaited, k))
    && (n in s.locks ==> forall k :: 0 <= k < |log| && log[k].Has(n) ==> RecordedIn(log, s.locks[n].tx, n, k, |log|))
  }

  /** The scan saw the deliveries to the node before the k-th, and neither it nor any later one. */
  predicate SawUpTo(log: seq<Delivery>, n: Node, seen: set<TxId>, k: int) {
    && 0 <= k < |log| && log[k].Has(n)
    && (forall i :: 0 <= i < k && log[i].Has(n) ==> log[i].commit.tx in seen)
    && (forall i :: k <= i < |log| && log[i].Has(n) ==> log[i].commit.tx !in seen)
  }

  ghost predicate ScanInv(s: Sys, n: Node, log: seq<Delivery>, scanned: NodeState, seen: set<TxId>) {
    && StaleSeen(log, n, seen) && (SeenAll(log, n, seen) ==> scanned == Known(s, n))
    && (forall k :: SawUpTo(log, n, seen, k) ==> scanned == log[k].base(n))
  }

  ghost predicate NodeInv(s: Sys, n: Node) {
    Tracks(s, n, s.build.Log()) &&
    match s.build
    case Idle => true
    case Recording(_) => true
    case Draining(_) => true
    case Drained(log, awaited) => Accounted(s, n, log, awaited) && Placed(s, n, log, awaited)
    case Scanned(log, scan, seen) => ScanInv(s, n, log, scan(n), seen)
    case Registered(log, scan, seen, index) => ScanInv(s, n, log, scan(n), seen) && index(n) == Replay(log, n, Entries(scan(n)))
  }

  ghost predicate BuildInv(s: Sys) {
    && (forall i :: 0 <= i < |s.build.Log()| ==> Reached(s, s.build.Log()[i].commit.tx))
    && (s.build.Drained? || s.build.Scanned? || s.build.Registered? ==> NoDropper(s))
    && (s.build.Scanned? || s.build.Registered? ==> forall t :: t in s.build.seen ==> t in s.txs && s.txs[t].Settled())
  }

  lemma NoneMissed(s: Sys, n: Node)
    requires NoDropper(s)
    ensures MissedOn(s, n) == [] && OneDropper(s, n)
  {
  }

  lemma MissedIs(s: Sys, n: Node, t: TxId)
    requires DropsOn(s, t, n) && OneDropper(s, n)
    ensures MissedOn(s, n) == s.txs[t].On(n)
  {
  }

  /** The commits dropped are the same, and so what they have written to the node. */
  ghost predicate SameDrops(s: Sys, s': Sys, n: Node) {
    forall t :: (DropsOn(s', t, n) <==> DropsOn(s, t, n)) && (DropsOn(s, t, n) ==> s'.txs[t].On(n) == s.txs[t].On(n))
  }

  lemma SameMissed(s: Sys, s': Sys, n: Node)
    requires OneDropper(s, n) && SameDrops(s, s', n)
    ensures OneDropper(s', n) && MissedOn(s', n) == MissedOn(s, n)
  {
    if t :| DropsOn(s, t, n) {
      MissedIs(s, n, t);
      assert DropsOn(s', t, n);
      MissedIs(s', n, t);
    }
  }

  /** What the others write to other stores is apart from what one dropped has written. */
  lemma MissedApart(s: Sys, t: TxId, n: Node)
    requires WritersApart(s) && WritesValid(s) && Writing(s, t, n) && !In(s, t, Decided(false))
    ensures OneDropper(s, n) && Apart(MissedOn(s, n), s.txs[t].On(n)) && Apart(s.txs[t].On(n), MissedOn(s, n))
    ensures Valid(Committed(s, n), MissedOn(s, n))
  {
    hide Run;
    forall u, v | DropsOn(s, u, n) && DropsOn(s, v, n) ensures u == v {
      assert Writing(s, u, n) && Writing(s, v, n);
      if u != v { ThreeApart(s.txs[t].On(n), s.txs[u].On(n), s.txs[v].On(n)); }
    }
    if u :| DropsOn(s, u, n) {
      MissedIs(s, n, u);
      assert Writing(s, u, n);
    }
  }

  /** Only two stores can be written apart. */
  lemma ThreeApart(a: seq<Write>, b: seq<Write>, c: seq<Write>)
    requires a != [] && b != [] && c != []
    ensures !(Apart(a, b) && Apart(a, c) && Apart(b, c))
  {
    assert Clash(a[0], b[0]) || Clash(a[0], c[0]) || Clash(b[0], c[0]);
  }

  lemma FitsPush(log: seq<Delivery>, d: Delivery, n: Node, known: NodeState, full: NodeState)
    requires d.Has(n) && (HasRec(log, n) ==> Fits(log, n, d.base(n), d.Before(n)))
    requires Possible(d.base(n)) && Valid(d.base(n), d.On(n)) && Possible(d.Before(n)) && Valid(d.Before(n), d.On(n))
    requires known == d.Final(n) && full == d.True(n)
    ensures Fits(log + [d], n, known, full)
  {
    assert (log + [d])[..|log|] == log;
    if !HasRec(log, n) { FitsNone(log, n, d.base(n), d.Before(n)); }
  }

  lemma FitsSkip(log: seq<Delivery>, d: Delivery, n: Node, known: NodeState, full: NodeState)
    requires !d.Has(n)
    ensures Fits(log + [d], n, known, full) <==> Fits(log, n, known, full)
    ensures HasRec(log + [d], n) <==> HasRec(log, n)
    ensures forall x :: Replay(log + [d], n, x) == Replay(log, n, x)
  {
    assert (log + [d])[..|log|] == log;
    HasFront(log + [d], n);
  }

  lemma DeliverKnown(s: Sys, t: TxId, n: Node)
    requires TxInv(s) && Enabled(s, Deliver(t)) && s.txs[t].On(n) != []
    ensures var s', d := Next(s, Deliver(t)), DeliveryOf(s, CommitOf(s, t));
      && Known(s, n) == d.base(n) == Committed(s, n) && Known(s', n) == d.Final(n)
      && OneDropper(s, n) && SameDrops(s, s', n) && d.missed(n) == MissedOn(s, n) && d.Before(n) == Run(Known(s, n), MissedOn(s, n))
      && Run(Known(s', n), MissedOn(s, n)) == d.True(n)
      && Possible(d.base(n)) && Valid(d.base(n), d.On(n)) && Possible(d.Before(n)) && Valid(d.Before(n), d.On(n))
  {
    hide Valid, Run, Apart, AfterDelivery;
    var c, m, ws := CommitOf(s, t), MissedOn(s, n), s.txs[t].On(n);
    assert n !in s.locks && n in c.writes && c.On(n) == ws && Writing(s, t, n);
    MissedApart(s, t, n);
    Commute(Committed(s, n), m, ws);
    RunPossible(Committed(s, n), m);
    var s' := Next(s, Deliver(t));
    assert s'.locks[n] == c && Committed(s', n) == Committed(s, n);
  }

  lemma DeliverTracks(s: Sys, t: TxId, n: Node)
    requires TxInv(s) && Tracks(s, n, s.build.Log()) && Enabled(s, Deliver(t)) && !s.build.Idle?
    ensures var s', d := Next(s, Deliver(t)), DeliveryOf(s, CommitOf(s, t));
      && s'.build.Log() == s.build.Log() + [d] && Tracks(s', n, s'.build.Log())
      && (s.txs[t].On(n) == [] <==> !d.Has(n)) && d.commit.tx == t
      && (s.txs[t].On(n) == [] ==> Known(s', n) == Known(s, n))
      && (s.txs[t].On(n) != [] ==> d.base(n) == Known(s, n))
  {
    hide TxInv, Valid, Run, Apart, Fits, Known, MissedOn, Committed;
    var d := DeliveryOf(s, CommitOf(s, t));
    assert d.On(n) == s.txs[t].On(n);
    if d.Has(n) { DeliverOn(s, t, n); } else { DeliverElsewhere(s, t, n); }
  }

  lemma DeliverOn(s: Sys, t: TxId, n: Node)
    requires TxInv(s) && Tracks(s, n, s.build.Log()) && Enabled(s, Deliver(t)) && s.txs[t].On(n) != []
    ensures var s', d := Next(s, Deliver(t)), DeliveryOf(s, CommitOf(s, t));
      Tracks(s', n, s.build.Log() + [d]) && d.base(n) == Known(s, n)
  {
    hide TxInv, Valid, Run, Apart, Fits, Known, AfterDelivery, Committed;
    var s', d := Next(s, Deliver(t)), DeliveryOf(s, CommitOf(s, t));
    assert d.On(n) == s.txs[t].On(n);
    DeliverKnown(s, t, n);
    FitsPush(s.build.Log(), d, n, Known(s', n), d.True(n));
    SameMissed(s, s', n);
  }

  lemma DeliverElsewhere(s: Sys, t: TxId, n: Node)
    requires Tracks(s, n, s.build.Log()) && Enabled(s, Deliver(t)) && s.txs[t].On(n) == []
    ensures var s', d := Next(s, Deliver(t)), DeliveryOf(s, CommitOf(s, t));
      Tracks(s', n, s.build.Log() + [d]) && Known(s', n) == Known(s, n)
  {
    hide Valid, Run, Apart, Fits, AfterDelivery, MissedOn;
    var s', d, log := Next(s, Deliver(t)), DeliveryOf(s, CommitOf(s, t)), s.build.Log();
    assert d.On(n) == s.txs[t].On(n);
    FitsSkip(log, d, n, Known(s, n), Run(Known(s, n), MissedOn(s, n)));
    assert Committed(s', n) == Committed(s, n) && Known(s', n) == Known(s, n);
    assert SameDrops(s, s', n);
    if HasRec(log, n) { SameMissed(s, s', n); }
  }

  lemma RecordedPush(log: seq<Delivery>, d: Delivery, t: TxId, n: Node)
    ensures Recorded(log + [d], t, n) <==> Recorded(log, t, n) || (d.commit.tx == t && d.Has(n))
  {
    var more := log + [d];
    if i :| 0 <= i < |log| && log[i].commit.tx == t && log[i].Has(n) { assert more[i].commit.tx == t; }
    if d.commit.tx == t && d.Has(n) { assert more[|log|].commit.tx == t; }
    if i :| 0 <= i < |more| && more[i].commit.tx == t && more[i].Has(n) { assert i < |log| ==> log[i].commit.tx == t; }
  }

  lemma DeliverAccounted(s: Sys, t: TxId, n: Node, log: seq<Delivery>, awaited: nat)
    requires TxInv(s) && Accounted(s, n, log, awaited) && NoDropper(s) && Enabled(s, Deliver(t))
    ensures Accounted(Next(s, Deliver(t)), n, log + [DeliveryOf(s, CommitOf(s, t))], awaited)
  {
    hide AfterDelivery, Valid, Touched;
    var s', d := Next(s, Deliver(t)), DeliveryOf(s, CommitOf(s, t));
    NoneMissed(s, n);
    assert !d.Stale(n);
    forall u ensures Recorded(log + [d], u, n) <==> Recorded(log, u, n) || (u == t && d.Has(n)) { RecordedPush(log, d, u, n); }
    forall u, k: nat ensures Below(s', u, k) <==> Below(s, u, k) { }
  }

  lemma InPush(log: seq<Delivery>, d: Delivery, t: TxId, n: Node, lo: int, hi: int)
    requires hi <= |log|
    ensures RecordedIn(log + [d], t, n, lo, hi) <==> RecordedIn(log, t, n, lo, hi)
    ensures RecordedIn(log, t, n, lo, |log|) ==> RecordedIn(log + [d], t, n, lo, |log| + 1)
    ensures d.commit.tx == t && d.Has(n) && lo <= |log| ==> RecordedIn(log + [d], t, n, lo, |log| + 1)
  {
    var more := log + [d];
    assert more[|log|] == d;
    if j :| 0 <= j < |log| && lo <= j < hi && log[j].commit.tx == t && log[j].Has(n) { assert more[j] == log[j]; }
    if j :| 0 <= j < |more| && lo <= j < hi && more[j].commit.tx == t && more[j].Has(n) { assert more[j] == log[j]; }
    if j :| 0 <= j < |log| && lo <= j < |log| && log[j].commit.tx == t && log[j].Has(n) { assert more[j] == log[j]; }
  }

  lemma AllIn(log: seq<Delivery>, t: TxId, n: Node)
    ensures Recorded(log, t, n) ==> RecordedIn(log, t, n, 0, |log|)
  {
    if i :| 0 <= i < |log| && log[i].commit.tx == t && log[i].Has(n) { assert RecordedIn(log, t, n, 0, |log|); }
  }

  lemma DeliverPlaced(s: Sys, t: TxId, n: Node, log: seq<Delivery>, awaited: nat)
    requires TxInv(s) && Accounted(s, n, log, awaited) && Placed(s, n, log, awaited) && Enabled(s, Deliver(t))
    ensures Placed(Next(s, Deliver(t)), n, log + [DeliveryOf(s, CommitOf(s, t))], awaited)
  {
    hide AfterDelivery, Valid, Touched, After, RecordedIn, MissedOn;
    var s', d := Next(s, Deliver(t)), DeliveryOf(s, CommitOf(s, t));
    var more := log + [d];
    assert d.On(n) == s.txs[t].On(n);
    forall u, lo: int | RecordedIn(log, u, n, lo, |log|) ensures RecordedIn(more, u, n, lo, |more|) { InPush(log, d, u, n, lo, |log|); }
    forall u, k: nat ensures Below(s', u, k) <==> Below(s, u, k) { }
    forall k | 0 <= k < |more| && more[k].Has(n) && !Below(s', more[k].commit.tx, awaited) ensures Stands(s', n, more, awaited, k) {
      if k < |log| { StillStands(s, s', n, log, d, awaited, k); } else { NewStands(s, s', n, log, d, awaited); }
    }
    forall k | n in s'.locks && 0 <= k < |more| && more[k].Has(n) ensures RecordedIn(more, s'.locks[n].tx, n, k, |more|) {
      if d.Has(n) { InPush(log, d, t, n, k, |log|); }
    }
  }

  lemma StillStands(s: Sys, s': Sys, n: Node, log: seq<Delivery>, d: Delivery, awaited: nat, k: nat)
    requires k < |log| && Stands(s, n, log, awaited, k) && s'.history == s.history
    requires forall u :: Below(s, u, awaited) ==> Below(s', u, awaited)
    ensures Stands(s', n, log + [d], awaited, k)
  {
    hide After, OnNode, RecordedIn;
    assert (log + [d])[k] == log[k];
    forall u, hi: int | hi <= |log| ensures RecordedIn(log + [d], u, n, 0, hi) <==> RecordedIn(log, u, n, 0, hi) { InPush(log, d, u, n, 0, hi); }
    forall u | RecordedIn(log, u, n, k, |log|) ensures RecordedIn(log + [d], u, n, k, |log| + 1) { InPush(log, d, u, n, k, |log|); }
  }

  lemma NewStands(s: Sys, s': Sys, n: Node, log: seq<Delivery>, d: Delivery, awaited: nat)
    requires Accounted(s, n, log, awaited) && s'.history == s.history && d.upto == |s.history| && d.base(n) == Committed(s, n)
    requires forall u :: Below(s, u, awaited) ==> Below(s', u, awaited)
    ensures Stands(s', n, log + [d], awaited, |log|)
  {
    hide After, OnNode, RecordedIn;
    assert s.history[..|s.history|] == s.history;
    forall u | Recorded(log, u, n) ensures RecordedIn(log + [d], u, n, 0, |log|) {
      AllIn(log, u, n);
      InPush(log, d, u, n, 0, |log|);
    }
  }

  lemma DeliverScan(s: Sys, t: TxId, n: Node, log: seq<Delivery>, scanned: NodeState, seen: set<TxId>)
    requires TxInv(s) && ScanInv(s, n, log, scanned, seen) && NoDropper(s) && Enabled(s, Deliver(t)) && t !in seen
    requires s.txs[t].On(n) == [] ==> Known(Next(s, Deliver(t)), n) == Known(s, n)
    requires s.txs[t].On(n) != [] ==> DeliveryOf(s, CommitOf(s, t)).base(n) == Known(s, n)
    ensures ScanInv(Next(s, Deliver(t)), n, log + [DeliveryOf(s, CommitOf(s, t))], scanned, seen)
  {
    hide AfterDelivery, Valid, Touched, Known;
    var d := DeliveryOf(s, CommitOf(s, t));
    var more := log + [d];
    NoneMissed(s, n);
    assert !d.Stale(n) && more[|log|] == d && d.On(n) == s.txs[t].On(n);
    assert forall i :: 0 <= i < |log| ==> more[i] == log[i];
    forall k | SawUpTo(more, n, seen, k) ensures scanned == more[k].base(n) {
      if k < |log| { assert SawUpTo(log, n, seen, k); } else { assert SeenAll(log, n, seen); }
    }
  }

  lemma DeliverNode(s: Sys, t: TxId, n: Node)
    requires TxInv(s) && BuildInv(s) && NodeInv(s, n) && Enabled(s, Deliver(t))
    ensures NodeInv(Next(s, Deliver(t)), n)
  {
    hide Valid, Run, Apart, Fits, Accounted, Placed, ScanInv, Tracks, Known;
    if !s.build.Idle? {
      DeliverTracks(s, t, n);
      match s.build
      case Drained(log, awaited) =>
        DeliverAccounted(s, t, n, log, awaited);
        DeliverPlaced(s, t, n, log, awaited);
      case Scanned(log, scan, seen) => DeliverScan(s, t, n, log, scan(n), seen);
      case Registered(log, scan, seen, index) =>
        DeliverScan(s, t, n, log, scan(n), seen);
        var d := DeliveryOf(s, CommitOf(s, t));
        assert (log + [d])[..|log|] == log;
      case _ =>
    } else {
      EmptyTracks(Next(s, Deliver(t)), n);
    }
  }

  lemma EmptyTracks(s: Sys, n: Node)
    ensures Tracks(s, n, [])
  {
  }

  /** A commit that delivered hands its lock to the history; one that dropped its changes is no longer missed. */
  lemma PublishKnown(s: Sys, t: TxId, n: Node)
    requires TxInv(s) && Enabled(s, Publish(t))
    ensures var s' := Next(s, Publish(t));
      && (!DropsOn(s, t, n) ==> Known(s', n) == Known(s, n) && SameDrops(s, s', n))
      && (DropsOn(s, t, n) ==> Known(s', n) == Run(Known(s, n), s.txs[t].On(n)) && (OneDropper(s, n) ==> MissedOn(s', n) == [] && OneDropper(s', n)))
  {
    hide Valid, Run, Apart, Committed;
    var s', c := Next(s, Publish(t)), CommitOf(s, t);
    CommittedPush(s, s', c, n);
    assert c.On(n) == s.txs[t].On(n);
    assert forall u :: DropsOn(s', u, n) <==> DropsOn(s, u, n) && u != t;
    if n in s.locks { assert Holds(s, n) && Writing(s, s.locks[n].tx, n); }
    if c.On(n) == [] {
      RunNone(Committed(s, n));
    } else {
      assert Writing(s, t, n);
      if DropsOn(s, t, n) && n in s.locks {
        MissedApart(s, s.locks[n].tx, n);
        MissedIs(s, n, t);
        Commute(Committed(s, n), s.txs[t].On(n), s.locks[n].On(n));
      }
    }
  }

  lemma RunNone(s: NodeState)
    ensures Run(s, []) == s
  {
  }

  lemma PublishNode(s: Sys, t: TxId, n: Node)
    requires TxInv(s) && BuildInv(s) && NodeInv(s, n) && Enabled(s, Publish(t))
    ensures NodeInv(Next(s, Publish(t)), n)
  {
    hide Valid, Run, Apart, Fits, Accounted, Placed, ScanInv, Known, MissedOn;
    var s', log := Next(s, Publish(t)), s.build.Log();
    PublishKnown(s, t, n);
    if HasRec(log, n) {
      if DropsOn(s, t, n) {
        MissedIs(s, n, t);
        RunNone(Known(s', n));
        FitsAll(log, n, Known(s, n), Known(s', n));
      } else {
        SameMissed(s, s', n);
      }
    }
    match s.build
    case Drained(_, awaited) =>
      PublishAccounted(s, t, n, log, awaited);
      PublishPlaced(s, t, n, log, awaited);
    case Scanned(_, scan, seen) => SameScan(s, s', n, log, scan(n), seen);
    case Registered(_, scan, seen, _) => SameScan(s, s', n, log, scan(n), seen);
    case _ =>
  }

  lemma SameScan(s: Sys, s': Sys, n: Node, log: seq<Delivery>, scanned: NodeState, seen: set<TxId>)
    requires ScanInv(s, n, log, scanned, seen) && Known(s', n) == Known(s, n)
    ensures ScanInv(s', n, log, scanned, seen)
  {
  }

  lemma PublishAccounted(s: Sys, t: TxId, n: Node, log: seq<Delivery>, awaited: nat)
    requires TxInv(s) && NoDropper(s) && Accounted(s, n, log, awaited) && Enabled(s, Publish(t))
    ensures Accounted(Next(s, Publish(t)), n, log, awaited)
  {
    hide Valid, Run, Apart;
    var s', c := Next(s, Publish(t)), CommitOf(s, t);
    forall u, k: nat ensures Below(s', u, k) <==> Below(s, u, k) { }
    assert c.On(n) == s.txs[t].On(n);
    if c.On(n) != [] { assert Writing(s, t, n) && n in s.locks && s.locks[n].tx == t; }
    forall i | 0 <= i < |s'.history| && s'.history[i].On(n) != []
      ensures Below(s', s'.history[i].tx, awaited) || Recorded(log, s'.history[i].tx, n)
    {
      if i < |s.history| { assert s'.history[i] == s.history[i]; }
    }
  }

  lemma PublishPlaced(s: Sys, t: TxId, n: Node, log: seq<Delivery>, awaited: nat)
    requires TxInv(s) && NoDropper(s) && Placed(s, n, log, awaited) && Enabled(s, Publish(t))
    ensures Placed(Next(s, Publish(t)), n, log, awaited)
  {
    hide Valid, Run, Apart, After, OnNode, RecordedIn;
    var s', c := Next(s, Publish(t)), CommitOf(s, t);
    forall u, k: nat ensures Below(s', u, k) <==> Below(s, u, k) { }
    assert c.On(n) == s.txs[t].On(n);
    if c.On(n) != [] { assert Writing(s, t, n) && n in s.locks && s.locks[n].tx == t; }
    forall k | 0 <= k < |log| && log[k].Has(n) && !Below(s', log[k].commit.tx, awaited) ensures Stands(s', n, log, awaited, k) {
      assert Stands(s, n, log, awaited, k);
      assert s'.history[..log[k].upto] == s.history[..log[k].upto];
      assert forall i :: 0 <= i < |s.history| ==> s'.history[i] == s.history[i];
    }
  }

  /** Nothing of the node changes, and no commit is dropped that was not. */
  lemma QuietNode(s: Sys, s': Sys, n: Node)
    requires NodeInv(s, n) && s'.history == s.history && s'.locks == s.locks && s'.build == s.build
    requires s.build.Idle? || SameDrops(s, s', n)
    requires forall u, k: nat :: Below(s, u, k) ==> Below(s', u, k)
    ensures NodeInv(s', n)
  {
    hide Fits, Run, RecordedIn, SawUpTo;
    assert Committed(s', n) == Committed(s, n) && Known(s', n) == Known(s, n);
    if !s.build.Idle? && HasRec(s.build.Log(), n) { SameMissed(s, s', n); }
  }

  lemma LockInBracket(s: Sys, n: Node)
    requires LocksHeld(s)
    ensures n in s.locks ==> var t := s.locks[n].tx; t in s.txs && s.txs[t].InBracket() && !s.txs[t].Settled()
  {
    if n in s.locks { assert Holds(s, n); }
  }

  lemma VisibleSettled(s: Sys, t: TxId)
    requires SlotInv(s) && t in Visible(s)
    ensures s.txs[t].Settled()
  {
    assert SlotOk(s, t);
    assert s.slots[s.txs[t].slot.value] == t;
  }

  lemma DrainedNode(s: Sys, n: Node)
    requires TxInv(s) && SlotInv(s) && BuildInv(s) && NodeInv(s, n) && Enabled(s, DecisionsDrained)
    ensures NodeInv(Next(s, DecisionsDrained), n)
  {
    hide Fits, Run, Valid, Apart;
    var s', log := Next(s, DecisionsDrained), s.build.Log();
    LockInBracket(s, n);
    forall i | 0 <= i < |s.history| ensures Below(s', s.history[i].tx, |s.slots|) { assert Done(s, s.history[i].tx) && SlotOk(s, s.history[i].tx); }
    forall i | 0 <= i < |log| ensures Below(s', log[i].commit.tx, |s.slots|) { assert Reached(s, log[i].commit.tx) && SlotOk(s, log[i].commit.tx); }
    SameTracks(s, s', n);
    LockInBracket(s, n);
  }

  lemma {:induction false} AllSeen(h: seq<Commit>, visible: set<TxId>, n: Node)
    requires forall i :: 0 <= i < |h| && h[i].On(n) != [] ==> h[i].tx in visible
    ensures OnNode(Seen(h, visible), n) == OnNode(h, n)
  {
    if h != [] {
      AllSeen(h[..|h| - 1], visible, n);
      var rest, c := Seen(h[..|h| - 1], visible), h[|h| - 1];
      OnNodePush(rest, c, n);
    }
  }

  /** A step of the build alone. */
  lemma SameTracks(s: Sys, s': Sys, n: Node)
    requires Tracks(s, n, s.build.Log()) && s'.build.Log() == s.build.Log()
    requires s'.txs == s.txs && s'.history == s.history && s'.locks == s.locks
    ensures Tracks(s', n, s'.build.Log()) && Known(s', n) == Known(s, n)
  {
    hide Fits, Run;
    assert Committed(s', n) == Committed(s, n);
    if HasRec(s.build.Log(), n) { SameMissed(s, s', n); }
  }

  lemma ScanNode(s: Sys, n: Node)
    requires TxInv(s) && SlotInv(s) && BuildInv(s) && NodeInv(s, n) && Enabled(s, Scan)
    ensures NodeInv(Next(s, Scan), n)
  {
    hide Tracks, ScanInv, Placed, Accounted, TxInv, SlotInv, BuildInv, Visible, Seen, OnNode, After;
    SameTracks(s, Next(s, Scan), n);
    ScanFinds(s, Next(s, Scan), n);
  }

  lemma ScanFinds(s: Sys, s': Sys, n: Node)
    requires TxInv(s) && SlotInv(s) && s.build.Drained? && s.build.awaited <= s.frontier && Known(s', n) == Known(s, n)
    requires Accounted(s, n, s.build.log, s.build.awaited) && Placed(s, n, s.build.log, s.build.awaited)
    ensures ScanInv(s', n, s.build.log, After(OnNode(Seen(s.history, Visible(s)), n)), Visible(s))
  {
    hide TxInv, SlotInv, Placed, Known, After, OnNode, Seen, SawUpTo;
    var log := s.build.log;
    forall u | Below(s, u, s.build.awaited) ensures u in Visible(s) { }
    if SeenAll(log, n, Visible(s)) { ScanAll(s, n); }
    forall k | SawUpTo(log, n, Visible(s), k) ensures 0 <= k < |log| && After(OnNode(Seen(s.history, Visible(s)), n)) == log[k].base(n) {
      SawIs(log, n, Visible(s), k);
      ScanUpTo(s, n, k);
    }
  }

  lemma SawIs(log: seq<Delivery>, n: Node, seen: set<TxId>, k: int)
    ensures SawUpTo(log, n, seen, k) ==> 0 <= k < |log|
  {
  }

  /** What is seen of the commits to the node is those before the given one. */
  lemma {:induction false} SeenBefore(h: seq<Commit>, visible: set<TxId>, n: Node, k: nat)
    requires k <= |h|
    requires forall i :: 0 <= i < |h| && h[i].On(n) != [] ==> (h[i].tx in visible <==> i < k)
    ensures OnNode(Seen(h, visible), n) == OnNode(h[..k], n)
  {
    if k == |h| {
      assert h[..k] == h;
      AllSeen(h, visible, n);
    } else {
      var front, c := h[..|h| - 1], h[|h| - 1];
      assert front[..k] == h[..k];
      SeenBefore(front, visible, n, k);
      OnNodePush(Seen(front, visible), c, n);
    }
  }

  lemma ScanUpTo(s: Sys, n: Node, k: int)
    requires s.build.Drained? && Placed(s, n, s.build.log, s.build.awaited) && s.build.awaited <= s.frontier
    requires SawUpTo(s.build.log, n, Visible(s), k)
    ensures After(OnNode(Seen(s.history, Visible(s)), n)) == s.build.log[k].base(n)
  {
    hide After, OnNode, Seen;
    var log, visible, h := s.build.log, Visible(s), s.history;
    forall u | Below(s, u, s.build.awaited) ensures u in visible { }
    assert Stands(s, n, log, s.build.awaited, k);
    SeenBefore(h, visible, n, log[k].upto);
  }

  lemma ScanAll(s: Sys, n: Node)
    requires TxInv(s) && SlotInv(s) && s.build.Drained? && Accounted(s, n, s.build.log, s.build.awaited) && s.build.awaited <= s.frontier
    requires SeenAll(s.build.log, n, Visible(s))
    ensures After(OnNode(Seen(s.history, Visible(s)), n)) == Known(s, n)
  {
    hide Fits, Run, Valid, Apart, After;
    var log, visible := s.build.log, Visible(s);
    forall u | Recorded(log, u, n) ensures u in visible && s.txs[u].Settled() { VisibleSettled(s, u); }
    LockInBracket(s, n);
    assert n !in s.locks;
    AllSeen(s.history, visible, n);
  }

  lemma FinishNode(s: Sys, n: Node)
    requires NodeInv(s, n) && Enabled(s, FinishBuild)
    ensures NodeInv(Next(s, FinishBuild), n)
  {
    hide Tracks, Known, SeenAll, StaleSeen, SawUpTo, Replay;
    SameTracks(s, Next(s, FinishBuild), n);
  }

  lemma SwitchNode(s: Sys, op: Op, n: Node)
    requires NodeInv(s, n) && Enabled(s, op) && (op.BeginBuild? || op.AwaitDecisions? || op.AbandonBuild?)
    ensures NodeInv(Next(s, op), n)
  {
    hide Fits, Known, MissedOn;
    if op.AwaitDecisions? { SameTracks(s, Next(s, op), n); }
  }

  lemma StepKeepsNode(s: Sys, op: Op, n: Node)
    requires TxInv(s) && SlotInv(s) && BuildInv(s) && NodeInv(s, n) && Enabled(s, op)
    ensures NodeInv(Next(s, op), n)
  {
    hide NodeInv, TxInv, SlotInv, BuildInv;
    match op
    case Deliver(t) => DeliverNode(s, t, n);
    case Publish(t) => PublishNode(s, t, n);
    case BeginBuild => SwitchNode(s, op, n);
    case AwaitDecisions => SwitchNode(s, op, n);
    case DecisionsDrained => DrainedNode(s, n);
    case Scan => ScanNode(s, n);
    case FinishBuild => FinishNode(s, n);
    case AbandonBuild => SwitchNode(s, op, n);
    case _ => OtherNode(s, op, n);
  }

  lemma OtherNode(s: Sys, op: Op, n: Node)
    requires NodeInv(s, n) && Enabled(s, op)
    requires op.Begin? || op.WriteTo? || op.Enter? || op.Stamp? || op.Decide? || op.Exit? || op.Abort? || op.Advance?
    ensures NodeInv(Next(s, op), n)
  {
    hide NodeInv, MissedOn, Committed, TakesEffect, ClashFree;
    QuietNode(s, Next(s, op), n);
  }

  lemma StepKeepsBuild(s: Sys, op: Op)
    requires SlotInv(s) && BuildInv(s) && Enabled(s, op)
    ensures BuildInv(Next(s, op))
  {
    hide Next, Enabled, Visible;
    StepLog(s, op);
    StepPhases(s, op);
    StepDrops(s, op);
    StepSeen(s, op);
  }

  /** Who has delivered has, who has ended has. */
  lemma StepPhases(s: Sys, op: Op)
    requires Enabled(s, op)
    ensures var s' := Next(s, op);
      && (forall t :: Reached(s, t) ==> Reached(s', t))
      && (forall t :: t in s.txs && s.txs[t].Settled() ==> t in s'.txs && s'.txs[t].Settled())
  {
    hide Committed, TakesEffect, ClashFree, Replay, Seen, OnNode, DeliveryOf, AfterDelivery, Visible;
  }

  /** And no commit is newly dropped once a build records. */
  lemma StepDrops(s: Sys, op: Op)
    requires Enabled(s, op)
    ensures var s' := Next(s, op);
      && (s.build.Logs() || s.build.Registered? ==> forall t :: In(s', t, Decided(false)) ==> In(s, t, Decided(false)))
      && (op.DecisionsDrained? ==> NoDropper(s'))
  {
    hide Committed, TakesEffect, ClashFree, Replay, Seen, OnNode, DeliveryOf, AfterDelivery, Visible;
  }

  lemma StepLog(s: Sys, op: Op)
    requires Enabled(s, op)
    ensures var b, b' := s.build, Next(s, op).build;
      && (forall i :: 0 <= i < |b'.Log()| ==> (i < |b.Log()| && b'.Log()[i] == b.Log()[i]) || (op.Deliver? && b'.Log()[i].commit.tx == op.t))
      && (op.Deliver? ==> Reached(Next(s, op), op.t))
      && ((b'.Drained? || b'.Scanned? || b'.Registered?) && !op.DecisionsDrained? ==> b.Drained? || b.Scanned? || b.Registered?)
  {
    hide Committed, TakesEffect, ClashFree, Replay, Seen, OnNode, MissedOn;
    var log, log' := s.build.Log(), Next(s, op).build.Log();
    if op.Deliver? {
      var d := DeliveryOf(s, CommitOf(s, op.t));
      assert s.build.Idle? || log' == log + [d];
    } else {
      assert log' == log || log' == [];
    }
  }


  lemma StepSeen(s: Sys, op: Op)
    requires SlotInv(s) && Enabled(s, op)
    ensures var b, b' := s.build, Next(s, op).build;
      b'.Scanned? || b'.Registered? ==>
        if op.Scan? then forall t :: t in b'.seen ==> t in s.txs && s.txs[t].Settled() else (b.Scanned? || b.Registered?) && b'.seen == b.seen
  {
    hide Committed, TakesEffect, ClashFree, Replay, Seen, OnNode, MissedOn, SlotInv;
    if op.Scan? { forall t | t in Visible(s) ensures t in s.txs && s.txs[t].Settled() { VisibleSettled(s, t); } }
  }

  lemma StepKeepsOrder(s: Sys, op: Op)
    requires TxInv(s) && SlotInv(s) && SnapOld(s) && SnapHas(s) && InOrder(s) && Enabled(s, op)
    ensures SnapOld(Next(s, op)) && SnapHas(Next(s, op)) && InOrder(Next(s, op))
  {
    hide Next, Enabled, SnapOld, SnapHas, InOrder, SlotInv;
    StepSnapOld(s, op);
    StepSnapHas(s, op);
    StepInOrder(s, op);
  }

  // ------------------------------------------------------------------ whole runs

  ghost predicate Inv(s: Sys) {
    TxInv(s) && SlotInv(s) && SnapOld(s) && SnapHas(s) && InOrder(s) && BuildInv(s) && forall n :: NodeInv(s, n)
  }

  lemma StartInv()
    ensures Inv(Start)
  {
    forall n ensures NodeInv(Start, n) { EmptyTracks(Start, n); }
  }

  lemma {:induction false} RunKeeps(ops: seq<Op>)
    ensures Inv(Exec(ops))
  {
    hide TxInv, SlotInv, SnapOld, SnapHas, InOrder, BuildInv, NodeInv, Enabled, Next;
    if ops == [] {
      StartInv();
    } else {
      RunKeeps(ops[..|ops| - 1]);
      var s, op := Exec(ops[..|ops| - 1]), ops[|ops| - 1];
      if Enabled(s, op) {
        StepKeepsTx(s, op);
        StepKeepsSlots(s, op);
        StepKeepsOrder(s, op);
        StepKeepsBuild(s, op);
        forall n { StepKeepsNode(s, op, n); }
      }
    }
  }

  /** Whatever the interleaving, a snapshot that sees a commit sees every earlier one it clashes with: of each
      store of a node, a prefix of its commits; of two stores not the same one. */
  lemma SeenPrefix(ops: seq<Op>, i: nat, j: nat, n: Node)
    requires var s := Exec(ops); i < j < |s.history| && !Apart(s.history[j].On(n), s.history[i].On(n)) && s.history[j].tx in Visible(s)
    ensures var s := Exec(ops); s.history[i].tx in Visible(s)
  {
    hide Exec, BuildInv, NodeInv, SnapOld, SnapHas;
    RunKeeps(ops);
    var s := Exec(ops);
    assert Done(s, s.history[i].tx) && SlotOk(s, s.history[i].tx);
  }

  lemma IndexIs(s: Sys, n: Node)
    requires Inv(s) && s.build.Registered?
    ensures s.build.index(n) == Entries(Known(s, n)) <==> Settles(s.build.log, n, s.build.scan(n), s.build.seen)
  {
    hide TxInv, SlotInv, Fits, Entries, Run, Settles, Known, Replay, MissedOn;
    var log := s.build.log;
    assert NodeInv(s, n);
    NoneMissed(s, n);
    RunNone(Known(s, n));
    if !HasRec(log, n) { FitsNone(log, n, Known(s, n), Known(s, n)); }
    SettlesIff(log, n, Known(s, n), s.build.scan(n), s.build.seen);
  }

  /** The scan saw the first deliveries to the node, in the order they were made, or all, or none. */
  predicate Orderly(log: seq<Delivery>, n: Node, seen: set<TxId>) {
    forall i, j :: 0 <= i < j < |log| && log[i].Has(n) && log[j].Has(n) && log[j].commit.tx in seen ==> log[i].commit.tx in seen
  }

  lemma {:induction false} NamesAreNamed(log: seq<Delivery>, n: Node, k: nat)
    requires k < |log| && log[k].Has(n)
    ensures log[k].Names(n) <= Named(log, n)
  {
    if k < |log| - 1 { NamesAreNamed(log[..|log| - 1], n, k); }
  }

  lemma {:induction false} BaseValid(log: seq<Delivery>, n: Node, known: NodeState, full: NodeState, k: nat)
    requires Fits(log, n, known, full) && k < |log| && log[k].Has(n)
    ensures Possible(log[k].base(n)) && Valid(log[k].base(n), log[k].On(n))
  {
    var d, front := log[|log| - 1], log[..|log| - 1];
    if k < |log| - 1 {
      if d.Has(n) { BaseValid(front, n, d.base(n), d.Before(n), k); } else { BaseValid(front, n, known, full, k); }
    }
  }

  lemma {:induction false} FirstUnseen(log: seq<Delivery>, n: Node, seen: set<TxId>) returns (k: nat)
    requires !SeenAll(log, n, seen) && Orderly(log, n, seen)
    ensures SawUpTo(log, n, seen, k)
  {
    k := 0;
    while !(log[k].Has(n) && log[k].commit.tx !in seen)
      invariant 0 <= k < |log| && forall i :: 0 <= i < k && log[i].Has(n) ==> log[i].commit.tx in seen
      decreases |log| - k
    {
      k := k + 1;
    }
  }

  /** What an orderly scan read is always named. */
  lemma OrderlyScan(s: Sys, n: Node)
    requires Inv(s) && s.build.Registered? && Orderly(s.build.log, n, s.build.seen)
    ensures Settles(s.build.log, n, s.build.scan(n), s.build.seen) <==> Wrong(s.build.log, n) == {}
  {
    hide TxInv, SlotInv, Run, Valid, Entries, Touched, Wrong, Known, MissedOn;
    var log, seen := s.build.log, s.build.seen;
    assert NodeInv(s, n);
    if !SeenAll(log, n, seen) {
      var k := FirstUnseen(log, n, seen);
      assert HasRec(log, n);
      BaseValid(log, n, Known(s, n), Run(Known(s, n), MissedOn(s, n)), k);
      DeliveredIs(log[k].base(n), log[k].On(n), {});
      NamesAreNamed(log, n, k);
    }
  }

  lemma {:induction false} NothingWrong(log: seq<Delivery>, n: Node)
    requires forall i :: 0 <= i < |log| && log[i].Has(n) ==> log[i].missed(n) == []
    ensures Wrong(log, n) == {}
  {
    if log != [] {
      var d := log[|log| - 1];
      if d.Has(n) { RunNone(d.base(n)); }
      NothingWrong(log[..|log| - 1], n);
    }
  }

  /** So in particular: whenever no delivery to the node was resolved while a commit to it that had dropped
      its changes was still to publish, and the scan saw the deliveries in order. */
  lemma OrderlyIsExact(ops: seq<Op>, n: Node)
    requires var s := Exec(ops); s.build.Registered? && Orderly(s.build.log, n, s.build.seen)
    requires var log := Exec(ops).build.Log(); forall i :: 0 <= i < |log| && log[i].Has(n) ==> log[i].missed(n) == []
    ensures var s := Exec(ops); s.build.index(n) == Entries(Known(s, n))
  {
    hide Inv, Settles, Exec;
    RunKeeps(ops);
    IndexIs(Exec(ops), n);
    OrderlyScan(Exec(ops), n);
    assert Exec(ops).build.Log() == Exec(ops).build.log;
    NothingWrong(Exec(ops).build.Log(), n);
  }

  /** Whatever the interleaving, a registered index holds, for a node nobody is delivering, exactly the
      entries of its committed state if and only if its deliveries settle it: no value is left wrong that
      was told while a commit to the node's other store had dropped its changes and was still to publish,
      and what the scan read is named by a delivery unless it saw them all. */
  lemma IndexIsCommitted(ops: seq<Op>, n: Node)
    requires var s := Exec(ops); s.build.Registered? && n !in s.locks
    ensures var s := Exec(ops);
      s.build.index(n) == Entries(Committed(s, n)) <==> Settles(s.build.log, n, s.build.scan(n), s.build.seen)
  {
    hide Inv, Settles, Exec;
    RunKeeps(ops);
    IndexIs(Exec(ops), n);
  }

  /** While a delivery holds the node, the index already holds what its commit will publish, if and only if so. */
  lemma IndexIsAboutToBe(ops: seq<Op>, n: Node)
    requires var s := Exec(ops); s.build.Registered? && n in s.locks
    ensures var s := Exec(ops);
      && In(s, s.locks[n].tx, Applied)
      && (s.build.index(n) == Entries(Run(Committed(s, n), s.txs[s.locks[n].tx].On(n))) <==>
          Settles(s.build.log, n, s.build.scan(n), s.build.seen))
  {
    hide Settles, Exec, SlotInv, BuildInv, NodeInv, Run;
    RunKeeps(ops);
    var s := Exec(ops);
    IndexIs(s, n);
    assert Holds(s, n);
  }
}
