/** The statement journal behind live traversals, as a value: what each hook records, what a run
    is served from, and the proof that for every sequence of Inits and writes the run served at
    any begun Init is the one the whole-graph build would have given at that Init. */
module LiveJournal {
  import opened LiveRuns

  type Key = string

  datatype Option<T> = None | Some(value: T)

  // ------------------------------------------------------------------ the graph

  /** The topology as the statement's write view reads it. Interning never forgets a key, and
      every id is below `next`. */
  datatype Topo = Topo(ids: map<Key, NodeId>, next: NodeId, live: set<NodeId>, out: map<NodeId, Entry>)
  {
    ghost predicate Valid() {
      && (forall n :: n in ids.Values ==> n < next)
      && live <= ids.Values
      && out.Keys <= ids.Values
    }

    function EntryOf(n: NodeId): Entry { if n in out then out[n] else NoEntry }

    function Intern(k: Key): Topo {
      if k in ids then this else this.(ids := ids[k := next], next := next + 1)
    }

    function Revive(k: Key): Topo {
      var t := Intern(k);
      t.(live := t.live + {t.ids[k]})
    }

    function WithEntry(k: Key, e: Entry): Topo {
      if k in ids then this.(out := out[ids[k] := e]) else this
    }

    function Kill(k: Key): Topo { if k in ids then this.(live := live - {ids[k]}) else this }

    function Connect(src: Key, dst: Key, handle: nat, types: seq<TypeCode>): Topo {
      var t := Revive(src).Revive(dst);
      var e := t.EntryOf(t.ids[src]);
      t.WithEntry(src, Entry(e.slots + [Slot(t.ids[dst], handle, types)], e.handleCol || handle != 0))
    }
  }

  /** What one step of a statement does. A write carries whether the storage applied it: a refused
      write changes nothing but is journaled all the same. `Write` is any change to a source's
      outgoing entry or its types; `Init` begins a live traversal. */
  datatype Op =
    | Init
    | AddNode(key: Key, applied: bool)
    | AddEdge(src: Key, dst: Key, handle: nat, types: seq<TypeCode>, applied: bool)
    | Write(src: Key, entry: Entry, applied: bool)
    | RemoveNode(key: Key, applied: bool)

  function Effect(t: Topo, op: Op): Topo {
    match op
    case Init => t
    case AddNode(k, applied) => if applied then t.Revive(k) else t
    case AddEdge(s, d, h, ts, applied) => if applied then t.Connect(s, d, h, ts) else t
    case Write(s, e, applied) => if applied then t.WithEntry(s, e) else t
    case RemoveNode(k, applied) => if applied then t.Kill(k) else t
  }

  // ------------------------------------------------------------------ the journal

  datatype Capture = Capture(w: nat, run: Run)
  datatype Event = Event(w: nat, wasLive: bool)
  datatype Pre = Pre(armed: bool, wasLive: bool)

  datatype Log = Log(armed: bool, seqNo: nat, latest: nat,
                     caps: map<NodeId, seq<Capture>>, lives: map<NodeId, seq<Event>>)
  {
    /** Nothing is recorded under a number not yet given out. */
    ghost predicate Numbered() {
      && (forall id, c :: c in CapsOf(id) ==> c.w <= seqNo)
      && (forall id, e :: e in EventsOf(id) ==> e.w <= seqNo)
    }

    function CapsOf(n: NodeId): seq<Capture> { if n in caps then caps[n] else [] }
    function EventsOf(n: NodeId): seq<Event> { if n in lives then lives[n] else [] }

    function Begin(): Log { this.(latest := seqNo, armed := true) }

    function Tick(): Log { this.(seqNo := seqNo + 1) }

    function BeforeAdjWrite(t: Topo, k: Key): Log {
      if !armed then this
      else if k !in t.ids then Tick()
      else
        var id := t.ids[k];
        var cs := CapsOf(id);
        if cs != [] && cs[|cs| - 1].w > latest then Tick()
        else Tick().(caps := caps[id := cs + [Capture(seqNo + 1, Resolve(t.EntryOf(id), true))]])
    }

    function NodePre(t: Topo, k: Key): Pre {
      if !armed then Pre(false, false) else Pre(true, k in t.ids && t.ids[k] in t.live)
    }

    function NodePost(t: Topo, k: Key, pre: Pre): Log {
      if !pre.armed then this
      else if k !in t.ids then Tick()
      else Tick().NoteLiveness(t.ids[k], seqNo + 1, pre.wasLive)
    }

    function BeforeNodeRemove(t: Topo, k: Key): Log {
      if !armed then this
      else if k !in t.ids then Tick()
      else Tick().NoteLiveness(t.ids[k], seqNo + 1, t.ids[k] in t.live)
    }

    function NoteLiveness(id: NodeId, w: nat, wasLive: bool): Log {
      var evs := EventsOf(id);
      if evs != [] && evs[|evs| - 1].w > latest then this
      else this.(lives := lives[id := evs + [Event(w, wasLive)]])
    }

    /** Liveness of `id` at the Init that began at `q`, given the present topology. */
    function LiveAt(t: Topo, id: NodeId, q: nat): bool {
      match FirstEvent(EventsOf(id), q)
      case Some(wasLive) => wasLive
      case None => id in t.live
    }

    function RawRunAt(t: Topo, id: NodeId, q: nat, typed: bool): Run {
      match FirstCapture(CapsOf(id), q)
      case Some(run) => run
      case None => Resolve(t.EntryOf(id), typed)
    }
  }

  /** The liveness recorded by the first event after instant q. */
  function FirstEvent(evs: seq<Event>, q: nat): Option<bool> {
    if evs == [] then None
    else if FirstEvent(evs[..|evs| - 1], q).Some? then FirstEvent(evs[..|evs| - 1], q)
    else if evs[|evs| - 1].w > q then Some(evs[|evs| - 1].wasLive)
    else None
  }

  /** The run held by the first capture after instant q. */
  function FirstCapture(cs: seq<Capture>, q: nat): Option<Run> {
    if cs == [] then None
    else if FirstCapture(cs[..|cs| - 1], q).Some? then FirstCapture(cs[..|cs| - 1], q)
    else if cs[|cs| - 1].w > q then Some(cs[|cs| - 1].run)
    else None
  }

  // ------------------------------------------------------------------ a statement

  /** A statement under way: its journal and the topology it writes. */
  datatype Stmt = Stmt(log: Log, topo: Topo)

  function Start(t: Topo): Stmt { Stmt(Log(false, 0, 0, map[], map[]), t) }

  /** One operator of the mutator adapter: the hooks around the write, in the adapter's order. */
  function Step(s: Stmt, op: Op): Stmt {
    var t' := Effect(s.topo, op);
    match op
    case Init => Stmt(s.log.Begin(), t')
    case AddNode(k, _) => Stmt(s.log.NodePost(t', k, s.log.NodePre(s.topo, k)), t')
    case AddEdge(src, dst, _, _, _) =>
      var preSrc := s.log.NodePre(s.topo, src);
      var preDst := s.log.NodePre(s.topo, dst);
      Stmt(s.log.BeforeAdjWrite(s.topo, src).NodePost(t', dst, preDst).NodePost(t', src, preSrc), t')
    case Write(src, _, _) => Stmt(s.log.BeforeAdjWrite(s.topo, src), t')
    case RemoveNode(k, _) => Stmt(s.log.BeforeNodeRemove(s.topo, k), t')
  }

  function Exec(s: Stmt, ops: seq<Op>): Stmt {
    if ops == [] then s else Step(Exec(s, ops[..|ops| - 1]), ops[|ops| - 1])
  }

  /** The nodes among a run's destinations, or the source, that were live at instant q. */
  function LiveSetAt(log: Log, t: Topo, ids: seq<NodeId>, q: nat): set<NodeId> {
    set i | 0 <= i < |ids| && log.LiveAt(t, ids[i], q) :: ids[i]
  }

  function ServedRaw(s: Stmt, id: NodeId, q: nat, typed: bool): Run {
    if s.log.seqNo == q then Resolve(s.topo.EntryOf(id), typed) else s.log.RawRunAt(s.topo, id, q, typed)
  }

  function ServedLiveSet(s: Stmt, raw: Run, q: nat): set<NodeId> {
    if s.log.seqNo == q then s.topo.live else LiveSetAt(s.log, s.topo, raw.dsts, q)
  }

  /** The run served for `id` at the Init that began at `q`: from the present while nothing has been
      written since, from the journal otherwise. */
  function Serve(s: Stmt, id: NodeId, q: nat, typed: bool): Run {
    var raw := ServedRaw(s, id, q, typed);
    var srcLive := if s.log.seqNo == q then id in s.topo.live else s.log.LiveAt(s.topo, id, q);
    if srcLive then Compact(raw, ServedLiveSet(s, raw, q)) else EmptyRun
  }

  // ------------------------------------------------------------------ the journal invariant

  /** inits remembers, for every instant an Init began at, the topology of that Init. */
  ghost predicate Inv(s: Stmt, inits: map<nat, Topo>) {
    && s.topo.Valid()
    && (s.log.armed <==> inits != map[])
    && (s.log.armed ==> s.log.latest in inits)
    && (forall q :: q in inits ==> q <= s.log.latest)
    && s.log.latest <= s.log.seqNo
    && (forall q :: q in inits ==> inits[q].Valid() && inits[q].ids.Values <= s.topo.ids.Values)
    && (s.log.seqNo in inits ==> inits[s.log.seqNo] == s.topo)
    && s.log.Numbered()
    && (forall q, id :: q in inits ==> LivenessKept(s, inits[q], id, q))
    && (forall q, id :: q in inits && id in inits[q].live ==> RunKept(s, inits[q], id, q))
  }

  ghost predicate LivenessKept(s: Stmt, at: Topo, id: NodeId, q: nat) {
    s.log.LiveAt(s.topo, id, q) == (id in at.live)
  }

  ghost predicate RunKept(s: Stmt, at: Topo, id: NodeId, q: nat) {
    match FirstCapture(s.log.CapsOf(id), q)
    case Some(run) => run == Resolve(at.EntryOf(id), true)
    case None => s.topo.EntryOf(id) == at.EntryOf(id)
  }

  lemma {:induction false} NoCaptureYet(cs: seq<Capture>, q: nat)
    requires forall c :: c in cs ==> c.w <= q
    ensures FirstCapture(cs, q) == None
  {
    if cs != [] {
      NoCaptureYet(cs[..|cs| - 1], q);
      assert cs[|cs| - 1] in cs;
    }
  }

  lemma {:induction false} NoEventYet(evs: seq<Event>, q: nat)
    requires forall e :: e in evs ==> e.w <= q
    ensures FirstEvent(evs, q) == None
  {
    if evs != [] {
      NoEventYet(evs[..|evs| - 1], q);
      assert evs[|evs| - 1] in evs;
    }
  }

  lemma AppendCapture(cs: seq<Capture>, c: Capture, q: nat)
    ensures FirstCapture(cs + [c], q)
         == if FirstCapture(cs, q).Some? then FirstCapture(cs, q) else if c.w > q then Some(c.run) else None
  {
    assert (cs + [c])[..|cs|] == cs;
  }

  lemma AppendEvent(evs: seq<Event>, e: Event, q: nat)
    ensures FirstEvent(evs + [e], q)
         == if FirstEvent(evs, q).Some? then FirstEvent(evs, q) else if e.w > q then Some(e.wasLive) else None
  {
    assert (evs + [e])[..|evs|] == evs;
  }

  /** The capture rule: once the hook has run, every begun Init is served `id`'s entry from a
      capture, so the write that follows may change the entry to anything. */
  lemma AfterAdjHook(s: Stmt, at: Topo, k: Key, q: nat, id: NodeId)
    requires s.log.armed && q <= s.log.latest <= s.log.seqNo
    requires RunKept(s, at, id, q)
    ensures var l := s.log.BeforeAdjWrite(s.topo, k);
            match FirstCapture(l.CapsOf(id), q)
            case Some(run) => run == Resolve(at.EntryOf(id), true)
            case None => s.topo.EntryOf(id) == at.EntryOf(id) && (k !in s.topo.ids || s.topo.ids[k] != id)
  {
    var cs := s.log.CapsOf(id);
    if k !in s.topo.ids || s.topo.ids[k] != id {
      assert s.log.BeforeAdjWrite(s.topo, k).CapsOf(id) == cs;
    } else {
      AppendCapture(cs, Capture(s.log.seqNo + 1, Resolve(s.topo.EntryOf(id), true)), q);
    }
  }

  /** A post hook records the liveness its pre hook read, for every instant no event covers yet. */
  lemma PostNotes(l: Log, t': Topo, k: Key, pre: Pre, q: nat, id: NodeId)
    requires pre.armed && q <= l.latest <= l.seqNo
    ensures var l', known := l.NodePost(t', k, pre), FirstEvent(l.EventsOf(id), q);
            && l'.caps == l.caps && l'.latest == l.latest && l'.seqNo == l.seqNo + 1 && l'.armed == l.armed
            && FirstEvent(l'.EventsOf(id), q)
               == if known.Some? then known
                  else if k in t'.ids && t'.ids[k] == id then Some(pre.wasLive) else None
  {
    AppendEvent(l.EventsOf(id), Event(l.seqNo + 1, pre.wasLive), q);
  }

  lemma ReviveFacts(t: Topo, k: Key)
    requires t.Valid()
    ensures var t' := t.Revive(k);
            && t'.Valid() && t.ids.Values <= t'.ids.Values && k in t'.ids
            && t'.out == t.out && t'.live == t.live + {t'.ids[k]} && t.next <= t'.next
            && (forall j :: j in t.ids ==> j in t'.ids && t'.ids[j] == t.ids[j])
            && (forall j :: j in t'.ids && j !in t.ids ==> t'.ids[j] !in t.ids.Values)
            && (forall j :: j in t'.ids ==> j in t.ids || j == k)
  {
    var t' := t.Intern(k);
    assert t'.ids[k] in t'.ids.Values;
    if k !in t.ids {
      forall n | n in t.ids.Values ensures n in t'.ids.Values {
        var j :| j in t.ids && t.ids[j] == n;
        assert t'.ids[j] == n;
      }
      forall n | n in t'.ids.Values ensures n < t'.next {
        var j :| j in t'.ids && t'.ids[j] == n;
        if j != k { assert n in t.ids.Values; }
      }
      assert t.next !in t.ids.Values;
    }
  }

  /** Interning, liveness and entries across one write: only the keys it names change, a key it
      interns was not live before, and only its source's entry changes. */
  lemma EffectFacts(t: Topo, op: Op)
    requires t.Valid()
    ensures var t' := Effect(t, op);
            && t'.Valid() && t.ids.Values <= t'.ids.Values
            && (forall j :: j in t.ids ==> j in t'.ids && t'.ids[j] == t.ids[j])
            && (forall j :: j in t'.ids && j !in t.ids ==> t'.ids[j] !in t.ids.Values)
            && (forall id :: (id in t'.live) != (id in t.live) ==> Names(op, t', id))
            && (forall id :: id in t.ids.Values && t'.EntryOf(id) != t.EntryOf(id) ==>
                  (op.Write? || op.AddEdge?) && op.src in t.ids && t.ids[op.src] == id)
  {
    match op
    case Init =>
    case AddNode(k, applied) => if applied { ReviveFacts(t, k); }
    case AddEdge(src, dst, _, _, applied) =>
      if applied {
        ReviveFacts(t, src);
        ReviveFacts(t.Revive(src), dst);
        assert t.Revive(src).Revive(dst).ids[src] in t.Revive(src).Revive(dst).ids.Values;
      }
    case Write(src, _, _) => if src in t.ids { assert t.ids[src] in t.ids.Values; }
    case RemoveNode(_, _) =>
  }

  predicate Keyed(t: Topo, k: Key, id: NodeId) { k in t.ids && t.ids[k] == id }

  /** Whether `id` is a node whose liveness the write may change. */
  predicate Names(op: Op, t: Topo, id: NodeId) {
    match op
    case Init => false
    case AddNode(n, _) => Keyed(t, n, id)
    case AddEdge(src, dst, _, _, _) => Keyed(t, src, id) || Keyed(t, dst, id)
    case Write(_, _, _) => false
    case RemoveNode(n, _) => Keyed(t, n, id)
  }

  lemma PreReads(l: Log, t: Topo, t': Topo, k: Key)
    requires t.Valid() && l.armed && k in t'.ids
    requires k in t.ids ==> t'.ids[k] == t.ids[k]
    requires k !in t.ids ==> t'.ids[k] !in t.ids.Values
    ensures l.NodePre(t, k) == Pre(true, t'.ids[k] in t.live)
  {
  }

  /** An operator that reads liveness before its write and posts it afterwards keeps what every
      begun Init is answered about every node. */
  lemma PostedLiveness(l: Log, l1: Log, t: Topo, t': Topo, k: Key, q: nat, id: NodeId)
    requires t.Valid() && l.armed && l1.armed && q <= l1.latest <= l1.seqNo
    requires k in t'.ids && k in t.ids ==> t'.ids[k] == t.ids[k]
    requires k in t'.ids && k !in t.ids ==> t'.ids[k] !in t.ids.Values
    ensures var l', known := l1.NodePost(t', k, l.NodePre(t, k)), FirstEvent(l1.EventsOf(id), q);
            && l'.caps == l1.caps && l'.latest == l1.latest && l'.seqNo == l1.seqNo + 1 && l'.armed
            && FirstEvent(l'.EventsOf(id), q)
               == if known.Some? then known
                  else if k in t'.ids && t'.ids[k] == id then Some(id in t.live) else None
  {
    PostNotes(l1, t', k, l.NodePre(t, k), q, id);
    if k in t'.ids { PreReads(l, t, t', k); }
  }

  lemma EdgeKeepsLiveness(s: Stmt, op: Op, at: Topo, q: nat, id: NodeId)
    requires s.topo.Valid() && s.log.armed && q <= s.log.latest <= s.log.seqNo && op.AddEdge?
    requires LivenessKept(s, at, id, q)
    ensures LivenessKept(Step(s, op), at, id, q)
  {
    var l, t, t' := s.log, s.topo, Effect(s.topo, op);
    EffectFacts(t, op);
    var l1 := l.BeforeAdjWrite(t, op.src);
    HookClock(l, t, op.src);
    var l2 := l1.NodePost(t', op.dst, l.NodePre(t, op.dst));
    PostedLiveness(l, l1, t, t', op.dst, q, id);
    PostedLiveness(l, l2, t, t', op.src, q, id);
  }

  /** Every write keeps what every begun Init is answered about every node's liveness. */
  lemma StepKeepsLiveness(s: Stmt, op: Op, at: Topo, q: nat, id: NodeId)
    requires s.topo.Valid() && s.log.armed && q <= s.log.latest <= s.log.seqNo && !op.Init?
    requires LivenessKept(s, at, id, q)
    ensures LivenessKept(Step(s, op), at, id, q)
  {
    if op.AddEdge? {
      EdgeKeepsLiveness(s, op, at, q, id);
    } else {
      var l, t, t' := s.log, s.topo, Effect(s.topo, op);
      EffectFacts(t, op);
      if op.AddNode? { PostedLiveness(l, l, t, t', op.key, q, id); }
      if op.RemoveNode? { PostNotes(l, t, op.key, l.NodePre(t, op.key), q, id); }
    }
  }

  /** Every write keeps the run every begun Init is served for a node that was live at it. */
  lemma StepKeepsRun(s: Stmt, op: Op, at: Topo, q: nat, id: NodeId)
    requires s.topo.Valid() && s.log.armed && q <= s.log.latest <= s.log.seqNo && !op.Init?
    requires id in s.topo.ids.Values
    requires RunKept(s, at, id, q)
    ensures RunKept(Step(s, op), at, id, q)
  {
    var l, t, t' := s.log, s.topo, Effect(s.topo, op);
    EffectFacts(t, op);
    if op.AddEdge? {
      var l1 := l.BeforeAdjWrite(t, op.src);
      AfterAdjHook(s, at, op.src, q, id);
      PostNotes(l1, t', op.dst, l.NodePre(t, op.dst), q, id);
      PostNotes(l1.NodePost(t', op.dst, l.NodePre(t, op.dst)), t', op.src, l.NodePre(t, op.src), q, id);
      assert Step(s, op).log.caps == l1.caps;
    } else if op.Write? {
      AfterAdjHook(s, at, op.src, q, id);
    } else {
      assert Step(s, op).log.caps == l.caps;
    }
  }

  function AfterInit(s: Stmt, op: Op, inits: map<nat, Topo>): map<nat, Topo> {
    if op.Init? then inits[s.log.seqNo := s.topo] else inits
  }

  lemma PostNumbered(l: Log, t: Topo, k: Key, pre: Pre)
    requires l.Numbered()
    ensures l.NodePost(t, k, pre).Numbered()
  {
    var l' := l.NodePost(t, k, pre);
    forall id, e | e in l'.EventsOf(id) ensures e.w <= l'.seqNo {
      assert e in l.EventsOf(id) || e == Event(l.seqNo + 1, pre.wasLive);
    }
    forall id, c | c in l'.CapsOf(id) ensures c.w <= l'.seqNo { assert c in l.CapsOf(id); }
  }

  lemma HookNumbered(l: Log, t: Topo, k: Key)
    requires l.Numbered()
    ensures l.BeforeAdjWrite(t, k).Numbered()
  {
    var l' := l.BeforeAdjWrite(t, k);
    forall id, c | c in l'.CapsOf(id) ensures c.w <= l'.seqNo {
      assert c in l.CapsOf(id) || c.w == l.seqNo + 1;
    }
    forall id, e | e in l'.EventsOf(id) ensures e.w <= l'.seqNo { assert e in l.EventsOf(id); }
  }

  lemma StepNumbered(s: Stmt, op: Op)
    requires s.log.Numbered()
    ensures Step(s, op).log.Numbered()
  {
    var l, t, t' := s.log, s.topo, Effect(s.topo, op);
    match op
    case Init =>
      assert forall id :: l.Begin().CapsOf(id) == l.CapsOf(id) && l.Begin().EventsOf(id) == l.EventsOf(id);
    case AddNode(k, _) => PostNumbered(l, t', k, l.NodePre(t, k));
    case AddEdge(src, dst, _, _, _) =>
      var l1 := l.BeforeAdjWrite(t, src);
      HookNumbered(l, t, src);
      PostNumbered(l1, t', dst, l.NodePre(t, dst));
      PostNumbered(l1.NodePost(t', dst, l.NodePre(t, dst)), t', src, l.NodePre(t, src));
    case Write(src, _, _) => HookNumbered(l, t, src);
    case RemoveNode(k, _) => PostNumbered(l, t, k, l.NodePre(t, k));
  }

  lemma PostClock(l: Log, t: Topo, k: Key, pre: Pre)
    ensures var l' := l.NodePost(t, k, pre);
            && l'.caps == l.caps && l'.latest == l.latest && l'.armed == l.armed
            && l'.seqNo == l.seqNo + (if pre.armed then 1 else 0)
  {
  }

  lemma HookClock(l: Log, t: Topo, k: Key)
    ensures var l' := l.BeforeAdjWrite(t, k);
            && l'.lives == l.lives && l'.latest == l.latest && l'.armed == l.armed
            && l'.seqNo == l.seqNo + (if l.armed then 1 else 0)
  {
  }

  /** Once a live Init has begun, every write advances the journal's clock. */
  lemma StepClock(s: Stmt, op: Op)
    ensures var l := Step(s, op).log;
            && l.latest == (if op.Init? then s.log.seqNo else s.log.latest)
            && l.armed == (s.log.armed || op.Init?)
            && (if s.log.armed && !op.Init? then l.seqNo > s.log.seqNo else l.seqNo == s.log.seqNo)
  {
    var l, t' := s.log, Effect(s.topo, op);
    match op
    case Init =>
    case AddNode(k, _) => PostClock(l, t', k, l.NodePre(s.topo, k));
    case AddEdge(src, dst, _, _, _) =>
      HookClock(l, s.topo, src);
      var l1 := l.BeforeAdjWrite(s.topo, src);
      PostClock(l1, t', dst, l.NodePre(s.topo, dst));
      PostClock(l1.NodePost(t', dst, l.NodePre(s.topo, dst)), t', src, l.NodePre(s.topo, src));
    case Write(src, _, _) => HookClock(l, s.topo, src);
    case RemoveNode(k, _) => PostClock(l, s.topo, k, l.NodePre(s.topo, k));
  }

  /** Every operator keeps the journal invariant, an Init adding its own instant. */
  lemma StepKeepsInv(s: Stmt, inits: map<nat, Topo>, op: Op)
    requires Inv(s, inits)
    ensures Inv(Step(s, op), AfterInit(s, op, inits))
  {
    EffectFacts(s.topo, op);
    StepNumbered(s, op);
    StepClock(s, op);
    var s', inits' := Step(s, op), AfterInit(s, op, inits);
    forall q, id | q in inits' ensures LivenessKept(s', inits'[q], id, q) {
      if op.Init? {
        NoEventYet(s.log.EventsOf(id), s.log.seqNo);
        if q in inits { assert LivenessKept(s, inits[q], id, q); }
      } else {
        assert LivenessKept(s, inits[q], id, q);
        StepKeepsLiveness(s, op, inits[q], q, id);
      }
    }
    forall q, id | q in inits' && id in inits'[q].live ensures RunKept(s', inits'[q], id, q) {
      if op.Init? {
        NoCaptureYet(s.log.CapsOf(id), s.log.seqNo);
        if q in inits { assert RunKept(s, inits[q], id, q); }
      } else {
        assert RunKept(s, inits[q], id, q);
        StepKeepsRun(s, op, inits[q], q, id);
      }
    }
  }

  // ------------------------------------------------------------------ time travel

  /** The instants of every Init of a run, with the topology each one saw. */
  function Instants(t0: Topo, ops: seq<Op>): map<nat, Topo> {
    if ops == [] then map[]
    else AfterInit(Exec(Start(t0), ops[..|ops| - 1]), ops[|ops| - 1], Instants(t0, ops[..|ops| - 1]))
  }

  lemma {:induction false} RunKeepsInv(t0: Topo, ops: seq<Op>)
    requires t0.Valid()
    ensures Inv(Exec(Start(t0), ops), Instants(t0, ops))
  {
    if ops != [] {
      RunKeepsInv(t0, ops[..|ops| - 1]);
      StepKeepsInv(Exec(Start(t0), ops[..|ops| - 1]), Instants(t0, ops[..|ops| - 1]), ops[|ops| - 1]);
    }
  }

  /** The journal's numbers only grow, and every operator after an Init moves them past it or
      leaves the topology alone; so an instant names one topology for the rest of the run. */
  lemma {:induction false} InstantKeepsTopo(t0: Topo, ops: seq<Op>, i: nat)
    requires t0.Valid() && i < |ops| && ops[i].Init?
    ensures var at := Exec(Start(t0), ops[..i]);
            var ins := Instants(t0, ops);
            at.log.seqNo in ins && ins[at.log.seqNo] == at.topo
  {
    var front, last := ops[..|ops| - 1], ops[|ops| - 1];
    var at := Exec(Start(t0), ops[..i]);
    if i == |ops| - 1 {
      assert ops[..i] == front;
    } else {
      assert front[..i] == ops[..i];
      InstantKeepsTopo(t0, front, i);
      RunKeepsInv(t0, front);
    }
  }

  /** A run resolved for node `id`'s entry at an Init, filtered by any set that agrees with that
      Init's liveness on the run's destinations, is what the build gave. */
  lemma FilteredRun(e: Entry, live: set<NodeId>, at: set<NodeId>, typed: bool)
    requires forall i :: 0 <= i < |Resolve(e, typed).dsts| ==>
               (Resolve(e, typed).dsts[i] in live <==> Resolve(e, typed).dsts[i] in at)
    ensures Compact(Resolve(e, typed), live) == Built(e, true, at, typed)
  {
    KeptAgrees(Resolve(e, typed).dsts, live, at);
    CompactAgrees(Resolve(e, typed), live, at);
    ResolveThenFilter(e, typed, at);
  }

  lemma CompactAgrees(r: Run, a: set<NodeId>, b: set<NodeId>)
    requires Kept(r.dsts, a) == Kept(r.dsts, b)
    ensures Compact(r, a) == Compact(r, b)
  {
    var x, y := Compact(r, a), Compact(r, b);
    assert x.dsts == y.dsts && x.handles == y.handles && x.codes == y.codes && x.extra == y.extra;
  }

  lemma UntypedArcs(e: Entry, at: set<NodeId>)
    ensures SameArcs(Built(e, true, at, true), Built(e, true, at, false))
  {
    ResolveThenFilter(e, true, at);
    TypedCaptureSameArcs(e, at);
  }

  lemma ServedLive(s: Stmt, at: Topo, id: NodeId, q: nat, typed: bool)
    requires s.log.seqNo != q && id in at.live
    requires RunKept(s, at, id, q)
    requires forall n :: LivenessKept(s, at, n, q)
    ensures var b := Built(at.EntryOf(id), true, at.live, typed);
            SameArcs(Serve(s, id, q, typed), b) && (typed ==> Serve(s, id, q, typed) == b)
  {
    var e := at.EntryOf(id);
    var raw := s.log.RawRunAt(s.topo, id, q, typed);
    var how := if raw == Resolve(e, typed) then typed else true;
    assert raw == Resolve(e, how);
    var live := LiveSetAt(s.log, s.topo, raw.dsts, q);
    forall i | 0 <= i < |raw.dsts| ensures raw.dsts[i] in live <==> raw.dsts[i] in at.live {
      assert LivenessKept(s, at, raw.dsts[i], q);
    }
    FilteredRun(e, live, at.live, how);
    UntypedArcs(e, at.live);
    assert LivenessKept(s, at, id, q);
    assert Serve(s, id, q, typed) == Compact(raw, live);
  }

  lemma ServedRun(s: Stmt, inits: map<nat, Topo>, id: NodeId, q: nat, typed: bool)
    requires Inv(s, inits) && q in inits
    ensures var b := Built(inits[q].EntryOf(id), id in inits[q].live, inits[q].live, typed);
            SameArcs(Serve(s, id, q, typed), b) && (typed ==> Serve(s, id, q, typed) == b)
  {
    var at := inits[q];
    assert LivenessKept(s, at, id, q);
    if s.log.seqNo == q {
      ResolveThenFilter(s.topo.EntryOf(id), typed, s.topo.live);
    } else if id in at.live {
      forall n ensures LivenessKept(s, at, n, q) { assert LivenessKept(s, inits[q], n, q); }
      assert RunKept(s, inits[q], id, q);
      ServedLive(s, at, id, q, typed);
    }
  }

  lemma {:induction false} KeptAgrees(dsts: seq<NodeId>, a: set<NodeId>, b: set<NodeId>)
    requires forall i :: 0 <= i < |dsts| ==> (dsts[i] in a <==> dsts[i] in b)
    ensures Kept(dsts, a) == Kept(dsts, b)
  {
    if dsts != [] { KeptAgrees(dsts[..|dsts| - 1], a, b); }
  }

  /** What a traversal is owed for node `id` at an Init that saw the topology `at`: nothing if the
      node was not live then, and otherwise one position for each slot of its entry whose
      destination was live. */
  ghost predicate Owed(r: Columns, at: Topo, id: NodeId, typed: bool) {
    if id in at.live then exists from :: Shows(r, at.EntryOf(id), at.live, typed, from) else r == EmptyRun
  }

  lemma BuiltIsOwed(r: Run, at: Topo, id: NodeId, typed: bool)
    requires var b := Built(at.EntryOf(id), id in at.live, at.live, typed);
             SameArcs(r, b) && (typed ==> r == b)
    ensures Owed(r, at, id, typed)
  {
    hide Built, Shows;
    if id in at.live {
      var from := BuiltShows(at.EntryOf(id), at.live, typed);
      if !typed { SameArcsShow(r, Built(at.EntryOf(id), true, at.live, false), at.EntryOf(id), at.live, from); }
      assert Shows(r, at.EntryOf(id), at.live, typed, from);
    } else {
      DeadIsEmpty(r, at, id, typed);
    }
  }

  lemma DeadIsEmpty(r: Run, at: Topo, id: NodeId, typed: bool)
    requires id !in at.live && SameArcs(r, Built(at.EntryOf(id), false, at.live, typed))
    ensures r == EmptyRun
  {
    assert |r.codes| == 0 && r.extra == map[];
  }

  /** Statement-level time travel. For every run of Inits and writes in any order, every Init i of
      it, and every node: the run served at the end for that Init is the run the whole-graph build
      would have given at the moment the Init began. A typed traversal gets every column equal; an
      untyped one, which reads no code, gets every arc equal. Either way it is what the entry of
      that moment owes, slot by slot. */
  lemma TimeTravel(t0: Topo, ops: seq<Op>, i: nat, id: NodeId, typed: bool)
    requires t0.Valid() && i < |ops| && ops[i].Init?
    ensures var at := Exec(Start(t0), ops[..i]);
            var built := Built(at.topo.EntryOf(id), id in at.topo.live, at.topo.live, typed);
            var served := Serve(Exec(Start(t0), ops), id, at.log.seqNo, typed);
            SameArcs(served, built) && (typed ==> served == built) && Owed(served, at.topo, id, typed)
  {
    RunKeepsInv(t0, ops);
    InstantKeepsTopo(t0, ops, i);
    var at := Exec(Start(t0), ops[..i]);
    ServedRun(Exec(Start(t0), ops), Instants(t0, ops), id, at.log.seqNo, typed);
    BuiltIsOwed(Serve(Exec(Start(t0), ops), id, at.log.seqNo, typed), at.topo, id, typed);
  }

  function InitCount(ops: seq<Op>): nat {
    if ops == [] then 0 else InitCount(ops[..|ops| - 1]) + (if ops[|ops| - 1].Init? then 1 else 0)
  }

  /** No capture of `id` is newer than the latest Init. */
  predicate Stale(l: Log, id: NodeId) {
    l.CapsOf(id) == [] || l.CapsOf(id)[|l.CapsOf(id)| - 1].w <= l.latest
  }

  /** A hook captures a node only when its captures are stale, and then they are not. */
  lemma HookCaptures(l: Log, t: Topo, k: Key, id: NodeId)
    requires l.latest <= l.seqNo
    ensures var l' := l.BeforeAdjWrite(t, k);
            l'.CapsOf(id) == l.CapsOf(id)
            || (l.armed && Stale(l, id) && !Stale(l', id) && |l'.CapsOf(id)| == |l.CapsOf(id)| + 1)
  {
  }

  lemma StepCaps(s: Stmt, op: Op)
    requires !op.Init?
    ensures var l' := Step(s, op).log;
            && l'.latest == s.log.latest && l'.armed == s.log.armed
            && l'.caps == if op.AddEdge? || op.Write? then s.log.BeforeAdjWrite(s.topo, op.src).caps else s.log.caps
  {
    var l, t' := s.log, Effect(s.topo, op);
    match op
    case AddNode(k, _) => PostClock(l, t', k, l.NodePre(s.topo, k));
    case AddEdge(src, dst, _, _, _) =>
      var l1 := l.BeforeAdjWrite(s.topo, src);
      PostClock(l1, t', dst, l.NodePre(s.topo, dst));
      PostClock(l1.NodePost(t', dst, l.NodePre(s.topo, dst)), t', src, l.NodePre(s.topo, src));
    case Write(_, _, _) =>
    case RemoveNode(k, _) => PostClock(l, s.topo, k, l.NodePre(s.topo, k));
  }

  lemma StepCaptures(s: Stmt, op: Op, id: NodeId)
    requires s.log.latest <= s.log.seqNo && !op.Init?
    ensures var l, l' := s.log, Step(s, op).log;
            && l'.latest == l.latest && l'.armed == l.armed
            && (l'.CapsOf(id) == l.CapsOf(id)
                || (l.armed && Stale(l, id) && !Stale(l', id) && |l'.CapsOf(id)| == |l.CapsOf(id)| + 1))
  {
    StepCaps(s, op);
    if op.AddEdge? || op.Write? { HookCaptures(s.log, s.topo, op.src, id); }
  }

  /** However much is written, a node is captured at most once per Init. */
  lemma {:induction false} OneCapturePerInit(t0: Topo, ops: seq<Op>, id: NodeId)
    requires t0.Valid()
    ensures var l := Exec(Start(t0), ops).log;
            && |l.CapsOf(id)| <= InitCount(ops)
            && (l.armed && Stale(l, id) ==> |l.CapsOf(id)| < InitCount(ops))
  {
    if ops != [] {
      var front, op := ops[..|ops| - 1], ops[|ops| - 1];
      OneCapturePerInit(t0, front, id);
      RunKeepsInv(t0, front);
      if !op.Init? { StepCaptures(Exec(Start(t0), front), op, id); }
    }
  }
}
