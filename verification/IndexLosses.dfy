/** Two runs of an index build that leave the index wrong about a node. */
module IndexLosses {
  import opened IndexEntries
  import opened IndexBuild

  lemma Do(ops: seq<Op>, op: Op) returns (more: seq<Op>)
    requires Enabled(Exec(ops), op)
    ensures more == ops + [op] && Exec(more) == Next(Exec(ops), op)
  {
    more := ops + [op];
    assert more[..|ops|] == ops;
  }

  function Wrote(s: Sys, t: TxId, ws: seq<Write>): Sys
    requires t in s.txs
  {
    s.(txs := s.txs[t := s.txs[t].(writes := map[7 := ws])])
  }

  /** Whether nothing stands against the writes to the node 7. */
  ghost predicate MayWrite(s: Sys, t: TxId, ws: seq<Write>) {
    && In(s, t, Open) && s.txs[t].writes == map[]
    && (forall u :: u in s.txs && u != t && s.txs[u].Active() ==> Apart(ws, s.txs[u].On(7)))
    && (forall c :: c in s.history ==> c.tx in s.txs[t].snapshot)
    && Valid(Committed(s, 7), ws) && forall i :: 0 <= i < |ws| && ws[i].Create? ==> i == 0 && OnNode(s.history, 7) == []
  }

  lemma {:induction false} Writes(ops: seq<Op>, t: TxId, ws: seq<Write>) returns (more: seq<Op>)
    requires MayWrite(Exec(ops), t, ws) && ws != []
    ensures Exec(more) == Wrote(Exec(ops), t, ws)
    decreases |ws|
  {
    hide Exec, Apart, Valid, Committed, OnNode;
    var s, front, w := Exec(ops), ws[..|ws| - 1], ws[|ws| - 1];
    assert ws == front + [w];
    WriteLast(s, t, front, w);
    var s' := if front == [] then s else Wrote(s, t, front);
    more := ops;
    if front != [] { more := Writes(ops, t, front); }
    more := Do(more, WriteTo(t, 7, w));
    assert s'.txs[t].writes[7 := s'.txs[t].On(7) + [w]] == map[7 := ws];
  }

  lemma WriteLast(s: Sys, t: TxId, front: seq<Write>, w: Write)
    requires MayWrite(s, t, front + [w])
    ensures MayWrite(s, t, front)
    ensures Enabled(if front == [] then s else Wrote(s, t, front), WriteTo(t, 7, w))
  {
    hide Clash, OnNode, After;
    var ws, s' := front + [w], if front == [] then s else Wrote(s, t, front);
    RunAppend(Committed(s, 7), front, [w]);
    assert s'.txs[t].On(7) == front;
    assert ws[|front|] == w && forall i :: 0 <= i < |front| ==> ws[i] == front[i];
    forall u | u in s.txs && u != t && s.txs[u].Active() ensures Apart(front, s.txs[u].On(7)) && ClashFree(w, s.txs[u].On(7)) {
      assert Apart(ws, s.txs[u].On(7));
    }
  }

  /** Transaction 0 has made the writes and published them; its instant is visible. */
  function First(ws: seq<Write>): Sys {
    Sys(map[0 := Tx(Exited, map[7 := ws], {}, Some(0))], [0], 1, [Commit(0, map[7 := ws])], map[], Idle)
  }

  function Alone(p: Phase, ws: seq<Write>, slot: Option<nat>): Sys {
    Sys(map[0 := Tx(p, map[7 := ws], {}, slot)], if slot.Some? then [0] else [], 0, [], map[], Idle)
  }

  lemma Opened(ws: seq<Write>) returns (ops: seq<Op>)
    requires ws != [] && Valid(Absent, ws) && forall i :: 0 <= i < |ws| && ws[i].Create? ==> i == 0
    ensures Exec(ops) == Alone(Open, ws, None)
  {
    hide Exec, Valid, Run;
    ExecNone();
    ops := Do([], Begin(0));
    var s := Exec(ops);
    assert Visible(Start) == {};
    assert s == Sys(map[0 := Tx(Open, map[], {}, None)], [], 0, [], map[], Idle);
    assert OnNode(s.history, 7) == [] && Committed(s, 7) == Absent;
    ops := Writes(ops, 0, ws);
    assert Exec(ops).txs == Alone(Open, ws, None).txs;
  }

  lemma Began(ws: seq<Write>) returns (ops: seq<Op>)
    requires ws != [] && Valid(Absent, ws) && forall i :: 0 <= i < |ws| && ws[i].Create? ==> i == 0
    ensures Exec(ops) == First(ws)
  {
    hide Exec, Valid, Run;
    ops := Opened(ws);
    ops := Do(ops, Enter(0));
    ops := Do(ops, Stamp(0));
    assert Exec(ops) == Alone(Entered, ws, Some(0));
    ops := Do(ops, Decide(0, false));
    ops := PublishedAlone(ops, ws);
  }

  lemma PublishedAlone(ops: seq<Op>, ws: seq<Write>) returns (more: seq<Op>)
    requires Exec(ops) == Alone(Decided(false), ws, Some(0))
    ensures Exec(more) == First(ws)
  {
    hide Exec, Valid, Run;
    more := Do(ops, Publish(0));
    assert Exec(more).txs == map[0 := Tx(Published, map[7 := ws], {}, Some(0))] && Exec(more).history == First(ws).history;
    more := Do(more, Exit(0));
    more := Do(more, Advance);
    assert Exec(more).txs == First(ws).txs;
  }

  lemma ExecNone()
    ensures Exec([]) == Start
  {
  }

  lemma FirstIs(s: Sys, ws: seq<Write>)
    requires s.history == First(ws).history && ws != []
    ensures OnNode(s.history, 7) == [ws] && Committed(s, 7) == Run(Absent, ws)
  {
    var c := First(ws).history[0];
    assert s.history == [] + [c];
    OnNodePush([], c, 7);
    AfterPush([], ws);
    assert [] + [ws] == [ws];
  }

  // ------------------------------------------------------------------ two transactions more

  function Writer(p: Phase, ws: seq<Write>, slot: Option<nat>): Tx { Tx(p, map[7 := ws], {0}, slot) }

  function Three(ws: seq<Write>, one: Tx, two: Tx): map<TxId, Tx> { map[0 := First(ws).txs[0], 1 := one, 2 := two] }

  predicate Starts(ws: seq<Write>) { ws != [] && Valid(Absent, ws) && forall i :: 0 <= i < |ws| && ws[i].Create? ==> i == 0 }

  /** Both see the first commit, and write its node apart. */
  lemma BothOpen(ws: seq<Write>, a: seq<Write>, b: seq<Write>) returns (ops: seq<Op>)
    requires Starts(ws) && a != [] && b != [] && Apart(a, b) && Apart(b, a)
    requires Valid(Run(Absent, ws), a) && Valid(Run(Absent, ws), b)
    ensures Exec(ops) == First(ws).(txs := Three(ws, Writer(Open, a, None), Writer(Open, b, None)))
  {
    hide Exec, Valid, Run;
    ops := Began(ws);
    assert Visible(First(ws)) == {0};
    ops := Do(ops, Begin(1));
    assert Visible(Exec(ops)) == {0};
    ops := Do(ops, Begin(2));
    var s := Exec(ops);
    assert s.txs == Three(ws, Tx(Open, map[], {0}, None), Tx(Open, map[], {0}, None));
    FirstIs(s, ws);
    NoCreate(a, b);
    ops := Writes(ops, 1, a);
    s := Wrote(s, 1, a);
    assert s.txs == Three(ws, Writer(Open, a, None), Tx(Open, map[], {0}, None));
    FirstIs(s, ws);
    ops := Writes(ops, 2, b);
    assert Wrote(s, 2, b).txs == Three(ws, Writer(Open, a, None), Writer(Open, b, None));
  }

  lemma NoCreate(a: seq<Write>, b: seq<Write>)
    requires a != [] && b != [] && Apart(a, b)
    ensures (forall i :: 0 <= i < |a| ==> !a[i].Create?) && (forall i :: 0 <= i < |b| ==> !b[i].Create?)
  {
    forall i | 0 <= i < |a| ensures !a[i].Create? { assert !Clash(a[i], b[0]); }
    forall i | 0 <= i < |b| ensures !b[i].Create? { assert !Clash(a[0], b[i]); }
  }

  function C(t: TxId, ws: seq<Write>): Commit { Commit(t, map[7 := ws]) }

  function State(ws: seq<Write>, one: Tx, two: Tx, slots: seq<TxId>, frontier: nat, history: seq<Commit>, build: Build): Sys {
    Sys(Three(ws, one, two), slots, frontier, history, map[], build)
  }

  // ------------------------------------------------------------------ an entry lost

  const BareA := [Create, SetProp(Str("a"))]
  const AwayAndBack := [SetProp(Str("b")), SetProp(Str("a"))]

  lemma BareRuns()
    ensures Starts(BareA) && Run(Absent, BareA) == NodeState(true, false, Some(Str("a")))
    ensures var s := NodeState(true, false, Some(Str("a")));
      && Valid(s, AwayAndBack) && Run(s, AwayAndBack) == s && Touched(s, AwayAndBack) == {"a", "b"}
      && Valid(s, [AddLabel]) && Run(s, [AddLabel]) == NodeState(true, true, Some(Str("a")))
  {
    assert BareA[1..] == [SetProp(Str("a"))] && BareA[1..][1..] == [];
    assert AwayAndBack[1..] == [SetProp(Str("a"))] && AwayAndBack[1..][1..] == [];
    assert [AddLabel][1..] == [];
  }

  /** Transaction 1 has decided to drop its label, no index concerning it; then the build records, and 2 decides
      to deliver what it did to the property. */
  lemma LabelDropped() returns (ops: seq<Op>)
    ensures Exec(ops) == State(BareA, Writer(Decided(false), [AddLabel], Some(1)), Writer(Decided(true), AwayAndBack, Some(2)),
                               [0, 1, 2], 1, [C(0, BareA)], Recording([]))
  {
    hide Exec, Valid, Run, Touched;
    BareRuns();
    ops := BothOpen(BareA, [AddLabel], AwayAndBack);
    ops := Do(ops, Enter(1));
    ops := Do(ops, Stamp(1));
    ops := Do(ops, Decide(1, false));
    assert Exec(ops) == State(BareA, Writer(Decided(false), [AddLabel], Some(1)), Writer(Open, AwayAndBack, None), [0, 1], 1, [C(0, BareA)], Idle);
    ops := Do(ops, BeginBuild);
    ops := Do(ops, Enter(2));
    ops := Do(ops, Stamp(2));
    ops := Do(ops, Decide(2, true));
    assert Exec(ops).txs == Three(BareA, Writer(Decided(false), [AddLabel], Some(1)), Writer(Decided(true), AwayAndBack, Some(2)));
  }

  /** 2 delivers, on an unlabelled node, and publishes; only then does 1. */
  lemma BothPublished() returns (ops: seq<Op>, d: Delivery)
    ensures d.commit == C(2, AwayAndBack) && d.base(7) == NodeState(true, false, Some(Str("a")))
    ensures Exec(ops) == State(BareA, Writer(Exited, [AddLabel], Some(1)), Writer(Exited, AwayAndBack, Some(2)),
                               [0, 1, 2], 1, [C(0, BareA), C(2, AwayAndBack), C(1, [AddLabel])], Recording([d]))
  {
    hide Exec, Valid, Run, Touched, Committed, OnNode, MissedOn;
    ops := LabelDropped();
    var s := Exec(ops);
    d := DeliveryOf(s, C(2, AwayAndBack));
    BareRuns();
    FirstIs(s, BareA);
    ops := Do(ops, Deliver(2));
    assert Exec(ops).locks == map[7 := C(2, AwayAndBack)] && Exec(ops).build == Recording([d]);
    ops := Do(ops, Publish(2));
    assert Exec(ops) == State(BareA, Writer(Decided(false), [AddLabel], Some(1)), Writer(Published, AwayAndBack, Some(2)),
                              [0, 1, 2], 1, [C(0, BareA), C(2, AwayAndBack)], Recording([d]));
    ops := DropPublished(ops, d);
  }

  lemma DropPublished(ops': seq<Op>, d: Delivery) returns (ops: seq<Op>)
    requires Exec(ops') == State(BareA, Writer(Decided(false), [AddLabel], Some(1)), Writer(Published, AwayAndBack, Some(2)),
                                 [0, 1, 2], 1, [C(0, BareA), C(2, AwayAndBack)], Recording([d]))
    ensures Exec(ops) == State(BareA, Writer(Exited, [AddLabel], Some(1)), Writer(Exited, AwayAndBack, Some(2)),
                               [0, 1, 2], 1, [C(0, BareA), C(2, AwayAndBack), C(1, [AddLabel])], Recording([d]))
  {
    hide Exec, Valid, Run, Touched, Committed, OnNode, MissedOn;
    ops := Do(ops', Exit(2));
    ops := Do(ops, Publish(1));
    ops := Do(ops, Exit(1));
    assert Exec(ops).txs == Three(BareA, Writer(Exited, [AddLabel], Some(1)), Writer(Exited, AwayAndBack, Some(2)));
  }

  lemma CommittedThree(s: Sys, ws: seq<Write>, t: TxId, a: seq<Write>, u: TxId, b: seq<Write>)
    requires s.history == [C(0, ws), C(t, a), C(u, b)] && ws != []
    ensures Committed(s, 7) == Run(Run(Run(Absent, ws), a), b)
  {
    hide Run;
    var s1, s2 := s.(history := [C(0, ws)]), s.(history := [C(0, ws), C(t, a)]);
    assert s.history == s2.history + [C(u, b)] && s2.history == s1.history + [C(t, a)];
    FirstIs(s1, ws);
    CommittedPush(s1, s2, C(t, a), 7);
    CommittedPush(s2, s, C(u, b), 7);
  }

  lemma SameHistory(s: Sys, s': Sys)
    requires s'.history == s.history
    ensures Committed(s', 7) == Committed(s, 7)
  {
  }

  lemma ReplayOne(d: Delivery, log: seq<Delivery>, x: set<string>)
    ensures Replay(log + [d], 7, x) == ApplyTo(d, 7, Replay(log, 7, x)) && Replay([], 7, x) == x
  {
    assert (log + [d])[..|log|] == log;
  }

  const LostHistory := [C(0, BareA), C(2, AwayAndBack), C(1, [AddLabel])]

  lemma LostValues(s: Sys, d: Delivery, visible: set<TxId>)
    requires s.history == LostHistory && visible == {0, 1, 2}
    requires d.commit == C(2, AwayAndBack) && d.base(7) == NodeState(true, false, Some(Str("a")))
    ensures Committed(s, 7) == NodeState(true, true, Some(Str("a")))
    ensures After(OnNode(Seen(s.history, visible), 7)) == Committed(s, 7)
    ensures Replay([d], 7, Entries(Committed(s, 7))) == {}
  {
    hide Run, Valid, Touched, Delivered;
    BareRuns();
    CommittedThree(s, BareA, 2, AwayAndBack, 1, [AddLabel]);
    AllSeen(s.history, visible, 7);
    DeliveredIs(d.base(7), AwayAndBack, {"a"});
    ReplayOne(d, [], {"a"});
    assert [] + [d] == [d];
  }

  /** The scan reads the entry, the replay takes it out, and nothing puts it back: the node is committed with
      the label and the value, and the registered index does not hold it. */
  lemma LostEntry() returns (ops: seq<Op>)
    ensures var s := Exec(ops);
      && s.build.Registered? && s.locks == map[] && s.build.index(7) == {} && Entries(Committed(s, 7)) == {"a"}
  {
    hide Exec, Valid, Run, Touched, Committed, OnNode, Seen, After, Replay;
    var d: Delivery;
    ops, d := BothPublished();
    ops := Do(ops, AwaitDecisions);
    ops := Do(ops, DecisionsDrained);
    ops := Do(ops, Advance);
    ops := Do(ops, Advance);
    var s := Exec(ops);
    assert s == State(BareA, Writer(Exited, [AddLabel], Some(1)), Writer(Exited, AwayAndBack, Some(2)), [0, 1, 2], 3, LostHistory, Drained([d], 3));
    ops := LostAtEnd(ops, d);
  }

  lemma LostAtEnd(ops: seq<Op>, d: Delivery) returns (more: seq<Op>)
    requires Exec(ops) == State(BareA, Writer(Exited, [AddLabel], Some(1)), Writer(Exited, AwayAndBack, Some(2)), [0, 1, 2], 3, LostHistory, Drained([d], 3))
    requires d.commit == C(2, AwayAndBack) && d.base(7) == NodeState(true, false, Some(Str("a")))
    ensures var s := Exec(more);
      && s.build.Registered? && s.locks == map[] && s.build.index(7) == {} && Entries(Committed(s, 7)) == {"a"}
  {
    hide Exec, Valid, Run, Touched, Committed, OnNode, Seen, After, Replay;
    var s := Exec(ops);
    assert Visible(s) == {0, 1, 2};
    LostValues(s, d, Visible(s));
    more := Do(ops, Scan);
    more := Do(more, FinishBuild);
    SameHistory(s, Exec(more));
  }

  // ------------------------------------------------------------------ an entry left over

  const LabelledA := [Create, SetProp(Str("a")), AddLabel]
  const ToV := [SetProp(Str("v"))]

  lemma LabelledRuns()
    ensures Starts(LabelledA) && Run(Absent, LabelledA) == NodeState(true, true, Some(Str("a")))
    ensures var s := NodeState(true, true, Some(Str("a")));
      && Valid(s, ToV) && Run(s, ToV) == NodeState(true, true, Some(Str("v")))
      && Valid(s, [RemoveLabel]) && Run(s, [RemoveLabel]) == NodeState(true, false, Some(Str("a"))) && Touched(s, [RemoveLabel]) == {"a"}
    ensures var s := NodeState(true, false, Some(Str("a")));
      Valid(s, ToV) && Run(s, ToV) == NodeState(true, false, Some(Str("v"))) && Touched(s, ToV) == {"a"}
  {
    assert LabelledA[1..] == [SetProp(Str("a")), AddLabel] && LabelledA[1..][1..] == [AddLabel] && LabelledA[1..][1..][1..] == [];
    assert ToV[1..] == [] && [RemoveLabel][1..] == [];
  }

  const StrayHistory := [C(0, LabelledA), C(2, [RemoveLabel]), C(1, ToV)]

  /** The bracket has drained. 1 takes its instant, 2 the next one; 2 delivers and publishes first. */
  lemma LaterFirst() returns (ops: seq<Op>, d: Delivery)
    ensures d.commit == C(2, [RemoveLabel]) && d.base(7) == NodeState(true, true, Some(Str("a")))
    ensures Exec(ops) == State(LabelledA, Writer(Decided(true), ToV, Some(1)), Writer(Exited, [RemoveLabel], Some(2)), [0, 1, 2], 1,
                               [C(0, LabelledA), C(2, [RemoveLabel])], Drained([d], 1))
  {
    hide Exec, Valid, Run, Touched, Committed, OnNode, MissedOn;
    ops := BothStamped();
    var s := Exec(ops);
    d := DeliveryOf(s, C(2, [RemoveLabel]));
    LabelledRuns();
    FirstIs(s, LabelledA);
    ops := Do(ops, Deliver(2));
    assert Exec(ops).locks == map[7 := C(2, [RemoveLabel])] && Exec(ops).build == Drained([d], 1);
    ops := Do(ops, Publish(2));
    ops := Do(ops, Exit(2));
    assert Exec(ops).txs == Three(LabelledA, Writer(Decided(true), ToV, Some(1)), Writer(Exited, [RemoveLabel], Some(2)));
  }

  lemma BothStamped() returns (ops: seq<Op>)
    ensures Exec(ops) == State(LabelledA, Writer(Decided(true), ToV, Some(1)), Writer(Decided(true), [RemoveLabel], Some(2)), [0, 1, 2], 1,
                               [C(0, LabelledA)], Drained([], 1))
  {
    hide Exec, Valid, Run, Touched, Committed, OnNode, MissedOn;
    LabelledRuns();
    ops := BothOpen(LabelledA, ToV, [RemoveLabel]);
    ops := Do(ops, BeginBuild);
    ops := Do(ops, AwaitDecisions);
    ops := Do(ops, DecisionsDrained);
    ops := StampedInTurn(ops);
  }

  lemma StampedInTurn(ops': seq<Op>) returns (ops: seq<Op>)
    requires Exec(ops') == State(LabelledA, Writer(Open, ToV, None), Writer(Open, [RemoveLabel], None), [0], 1, [C(0, LabelledA)], Drained([], 1))
    ensures Exec(ops) == State(LabelledA, Writer(Decided(true), ToV, Some(1)), Writer(Decided(true), [RemoveLabel], Some(2)), [0, 1, 2], 1,
                               [C(0, LabelledA)], Drained([], 1))
  {
    hide Exec, Valid, Run, Touched, Committed, OnNode, MissedOn;
    ops := Do(ops', Enter(1));
    ops := Do(ops, Stamp(1));
    ops := Do(ops, Enter(2));
    ops := Do(ops, Stamp(2));
    ops := Do(ops, Decide(1, true));
    ops := Do(ops, Decide(2, true));
    assert Exec(ops).txs == Three(LabelledA, Writer(Decided(true), ToV, Some(1)), Writer(Decided(true), [RemoveLabel], Some(2)));
  }

  lemma StrayValues(s: Sys, d: Delivery, e: Delivery)
    requires s.history == StrayHistory
    requires d.commit == C(2, [RemoveLabel]) && d.base(7) == NodeState(true, true, Some(Str("a")))
    requires e.commit == C(1, ToV) && e.base(7) == NodeState(true, false, Some(Str("a")))
    ensures Committed(s, 7) == NodeState(true, false, Some(Str("v")))
    ensures After(OnNode(Seen(s.history, {0, 1}), 7)) == NodeState(true, true, Some(Str("v")))
    ensures Replay([d, e], 7, Entries(NodeState(true, true, Some(Str("v"))))) == {"v"}
  {
    hide Run, Valid, Touched, Delivered, Seen;
    LabelledRuns();
    CommittedThree(s, LabelledA, 2, [RemoveLabel], 1, ToV);
    StraySeen(s);
    DeliveredIs(d.base(7), [RemoveLabel], {"v"});
    DeliveredIs(e.base(7), ToV, {"v"});
    assert ApplyTo(d, 7, {"v"}) == {"v"} && ApplyTo(e, 7, {"v"}) == {"v"};
    ReplayOne(d, [], {"v"});
    ReplayOne(e, [d], {"v"});
    assert [] + [d] == [d] && [d] + [e] == [d, e];
  }

  lemma StraySeen(s: Sys)
    requires s.history == StrayHistory
    ensures After(OnNode(Seen(s.history, {0, 1}), 7)) == Run(Run(Absent, LabelledA), ToV)
  {
    hide Run;
    var h := s.history;
    assert h[..2] == [C(0, LabelledA), C(2, [RemoveLabel])] && h[..2][..1] == [C(0, LabelledA)] && h[..2][..1][..0] == [];
    assert Seen([], {0, 1}) == [] && Seen(h[..2][..1], {0, 1}) == [C(0, LabelledA)] && Seen(h[..2], {0, 1}) == [C(0, LabelledA)];
    assert Seen(h, {0, 1}) == [C(0, LabelledA), C(1, ToV)];
    var s1 := s.(history := [C(0, LabelledA)]);
    var s2 := s.(history := [C(0, LabelledA), C(1, ToV)]);
    assert s2.history == s1.history + [C(1, ToV)];
    FirstIs(s1, LabelledA);
    CommittedPush(s1, s2, C(1, ToV), 7);
  }

  /** 1 delivers on an unlabelled node and publishes; the frontier passes its instant, and the scan is taken. */
  lemma EarlierLast() returns (ops: seq<Op>, d: Delivery, e: Delivery)
    ensures d.commit == C(2, [RemoveLabel]) && d.base(7) == NodeState(true, true, Some(Str("a")))
    ensures e.commit == C(1, ToV) && e.base(7) == NodeState(true, false, Some(Str("a")))
    ensures Exec(ops) == State(LabelledA, Writer(Exited, ToV, Some(1)), Writer(Exited, [RemoveLabel], Some(2)), [0, 1, 2], 2,
                               StrayHistory, Drained([d, e], 1))
  {
    hide Exec, Valid, Run, Touched, Committed, OnNode, MissedOn;
    ops, d := LaterFirst();
    var s := Exec(ops);
    e := DeliveryOf(s, C(1, ToV));
    LabelledRuns();
    var s1 := s.(history := [C(0, LabelledA)]);
    FirstIs(s1, LabelledA);
    assert s.history == s1.history + [C(2, [RemoveLabel])];
    CommittedPush(s1, s, C(2, [RemoveLabel]), 7);
    ops := Do(ops, Deliver(1));
    assert [d] + [e] == [d, e];
    assert Exec(ops).locks == map[7 := C(1, ToV)] && Exec(ops).build == Drained([d, e], 1);
    ops := EarlierPublished(ops, [d, e]);
  }

  lemma EarlierPublished(ops': seq<Op>, log: seq<Delivery>) returns (ops: seq<Op>)
    requires Exec(ops') == Sys(Three(LabelledA, Writer(Applied, ToV, Some(1)), Writer(Exited, [RemoveLabel], Some(2))), [0, 1, 2], 1,
                               [C(0, LabelledA), C(2, [RemoveLabel])], map[7 := C(1, ToV)], Drained(log, 1))
    ensures Exec(ops) == State(LabelledA, Writer(Exited, ToV, Some(1)), Writer(Exited, [RemoveLabel], Some(2)), [0, 1, 2], 2,
                               StrayHistory, Drained(log, 1))
  {
    hide Exec, Valid, Run, Touched, Committed, OnNode, MissedOn;
    ops := Do(ops', Publish(1));
    ops := Do(ops, Exit(1));
    ops := Do(ops, Advance);
    assert Exec(ops).txs == Three(LabelledA, Writer(Exited, ToV, Some(1)), Writer(Exited, [RemoveLabel], Some(2)));
  }

  /** The scan sees the value and not that the label is gone; no delivery names the value: the node is committed
      without the label, and the registered index holds it all the same. */
  lemma StrayEntry() returns (ops: seq<Op>)
    ensures var s := Exec(ops);
      && s.build.Registered? && s.locks == map[] && s.build.index(7) == {"v"} && Entries(Committed(s, 7)) == {}
  {
    hide Exec, Valid, Run, Touched, Committed, OnNode, Seen, After, Replay;
    var d: Delivery, e: Delivery;
    ops, d, e := EarlierLast();
    var s := Exec(ops);
    assert Visible(s) == {0, 1};
    StrayValues(s, d, e);
    ops := Do(ops, Scan);
    ops := Do(ops, FinishBuild);
    SameHistory(s, Exec(ops));
  }
}
