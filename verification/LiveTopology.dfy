/** The statement's live-topology log as the object the engine keeps: hooks called around every
    write, and runs served into buffers that operators own and reuse. Each method is tied to the
    journal of module LiveJournal; the last section assembles a whole adjacency at an instant. */
module LiveTopology {
  import opened LiveRuns
  import opened LiveJournal

  /** The write view: the topology with the transaction's own writes. */
  class Graph {
    var topo: Topo

    constructor (t: Topo)
      ensures topo == t
    {
      topo := t;
    }
  }

  /** The column buffers of one serving operator, overwritten by each serve. */
  class RunBuffer {
    var dsts: seq<NodeId>
    var handles: seq<nat>
    var codes: seq<TypeCode>
    var extra: map<nat, seq<TypeCode>>
    var handleCol: bool

    ghost function Held(): Columns
      reads this
    {
      Columns(dsts, handles, codes, extra, handleCol)
    }

    constructor ()
      ensures Held() == EmptyRun
    {
      dsts, handles, codes, extra, handleCol := [], [], [], map[], false;
    }

    /** Moves the slot at position i down to position k, in every column. */
    method Move(k: nat, i: nat)
      requires k <= i < |dsts| == |codes| && (handleCol ==> i < |handles|)
      modifies this
      ensures Held() == MoveTo(old(Held()), k, i)
    {
      dsts := dsts[k := dsts[i]];
      if handleCol { handles := handles[k := handles[i]]; }
      codes := codes[k := codes[i]];
    }

    /** Cuts every column to its first k positions. */
    method Trim(k: nat)
      requires k <= |dsts| == |codes| && (handleCol ==> k <= |handles|)
      modifies this
      ensures Held() == Columns(old(dsts)[..k], if old(handleCol) then old(handles)[..k] else [],
                                old(codes)[..k], old(extra), old(handleCol))
    {
      dsts, codes := dsts[..k], codes[..k];
      if handleCol { handles := handles[..k]; } else { handles := []; }
    }

    method Load(r: Run)
      modifies this
      ensures Held() == r
    {
      dsts, handles, codes, extra, handleCol := r.dsts, r.handles, r.codes, r.extra, r.handleCol;
    }
  }

  class LiveTopoLog {
    const g: Graph
    var armed: bool
    var seqNo: nat
    var latest: nat
    var caps: map<NodeId, seq<Capture>>
    var lives: map<NodeId, seq<Event>>

    // The run most recently served, still in the serving operator's own buffers.
    var last: RunBuffer?
    var lastId: NodeId
    var lastSeq: nat
    var lastValid: bool

    // The topology of every Init begun so far, by instant.
    ghost var inits: map<nat, Topo>

    ghost function Journal(): Log
      reads this
    {
      Log(armed, seqNo, latest, caps, lives)
    }

    /** What the remembered run is good for: at the journal number it was served under, its buffers
        hold exactly what resolving its node would give. */
    ghost predicate LastMatches(q: nat)
      reads this, g, last
    {
      lastValid && lastSeq == q ==> last != null && last.Held() == Resolve(g.topo.EntryOf(lastId), true)
    }

    ghost predicate LastSound()
      reads this, g, last
    {
      (lastValid ==> armed && lastSeq <= seqNo) && LastMatches(seqNo)
    }

    ghost predicate Valid()
      reads this, g, last
    {
      LastSound() && Inv(Stmt(Journal(), g.topo), inits)
    }

    constructor (graph: Graph)
      requires graph.topo.Valid()
      ensures Valid() && g == graph && inits == map[] && Journal() == Start(graph.topo).log
    {
      g := graph;
      armed, seqNo, latest, caps, lives := false, 0, 0, map[], map[];
      last, lastId, lastSeq, lastValid := null, 0, 0, false;
      inits := map[];
    }

    /** Begins a live Init and returns the instant it reads at. */
    method Begin() returns (q: nat)
      requires Valid()
      modifies this
      ensures Valid() && q == seqNo && Journal() == old(Journal()).Begin()
      ensures inits == old(inits)[q := g.topo]
    {
      StepKeepsInv(Stmt(Journal(), g.topo), inits, Op.Init);
      q := seqNo;
      latest := q;
      armed := true;
      inits := inits[q := g.topo];
    }

    // ---------------------------------------------------------------- hooks

    /** Journals a write about to change the outgoing entry of the node keyed k. Called before
        the write. */
    method BeforeAdjWrite(k: Key)
      requires LastSound()
      modifies this`seqNo, this`caps
      ensures Journal() == old(Journal()).BeforeAdjWrite(g.topo, k)
    {
      hide Resolve;
      if !armed { return; }
      var w := seqNo + 1;
      seqNo := w;
      if k !in g.topo.ids { return; }
      var id := g.topo.ids[k];
      var cs := if id in caps then caps[id] else [];
      if |cs| > 0 && cs[|cs| - 1].w > latest { return; }
      var run := RunToCapture(id, w);
      caps := caps[id := cs + [Capture(w, run)]];
    }

    /** The run to capture for write w: copied from the operator that was just served it when
        nothing was journaled in between, resolved again otherwise. */
    method RunToCapture(id: NodeId, w: nat) returns (run: Run)
      requires w > 0 && LastMatches(w - 1)
      ensures run == Resolve(g.topo.EntryOf(id), true)
    {
      if lastValid && lastId == id && lastSeq == w - 1 {
        assert last.Held().Aligned();
        run := Columns(last.dsts, last.handles, last.codes, last.extra, last.handleCol);
      } else {
        run := Resolve(g.topo.EntryOf(id), true);
      }
    }

    /** Reads the liveness of the node keyed k before a write that may change it. */
    method NodePre(k: Key) returns (pre: Pre)
      ensures pre == Journal().NodePre(g.topo, k)
    {
      if !armed { return Pre(false, false); }
      pre := Pre(true, k in g.topo.ids && g.topo.ids[k] in g.topo.live);
    }

    /** Journals the liveness `pre` read, once the write has happened. */
    method NodePost(k: Key, pre: Pre)
      modifies this`seqNo, this`lives
      ensures Journal() == old(Journal()).NodePost(g.topo, k, pre)
    {
      if !pre.armed { return; }
      var w := seqNo + 1;
      seqNo := w;
      if k !in g.topo.ids { return; }
      NoteLiveness(g.topo.ids[k], w, pre.wasLive);
    }

    /** Journals the liveness of the node keyed k before a write that may remove it. */
    method BeforeNodeRemove(k: Key)
      modifies this`seqNo, this`lives
      ensures Journal() == old(Journal()).BeforeNodeRemove(g.topo, k)
    {
      if !armed { return; }
      var w := seqNo + 1;
      seqNo := w;
      if k !in g.topo.ids { return; }
      NoteLiveness(g.topo.ids[k], w, g.topo.ids[k] in g.topo.live);
    }

    method NoteLiveness(id: NodeId, w: nat, wasLive: bool)
      modifies this`lives
      ensures Journal() == old(Journal()).NoteLiveness(id, w, wasLive)
    {
      var evs := if id in lives then lives[id] else [];
      if |evs| > 0 && evs[|evs| - 1].w > latest { return; }
      lives := lives[id := evs + [Event(w, wasLive)]];
    }

    // ---------------------------------------------------------------- serving

    method LiveAt(id: NodeId, q: nat) returns (live: bool)
      ensures live == Journal().LiveAt(g.topo, id, q)
    {
      var evs := if id in lives then lives[id] else [];
      for i := 0 to |evs|
        invariant FirstEvent(evs[..i], q) == None
      {
        AppendEvent(evs[..i], evs[i], q);
        assert evs[..i + 1] == evs[..i] + [evs[i]];
        if evs[i].w > q {
          FirstEventStands(evs, i, q);
          return evs[i].wasLive;
        }
      }
      assert evs[..|evs|] == evs;
      live := id in g.topo.live;
    }

    method CaptureAt(id: NodeId, q: nat) returns (c: Option<Run>)
      ensures c == FirstCapture(Journal().CapsOf(id), q)
    {
      var cs := if id in caps then caps[id] else [];
      for i := 0 to |cs|
        invariant FirstCapture(cs[..i], q) == None
      {
        AppendCapture(cs[..i], cs[i], q);
        assert cs[..i + 1] == cs[..i] + [cs[i]];
        if cs[i].w > q {
          FirstCaptureStands(cs, i, q);
          return Some(cs[i].run);
        }
      }
      assert cs[..|cs|] == cs;
      c := None;
    }

    /** Serves `id`'s run at the Init that began at q into out. The run is the one the whole-graph
        build gave at that Init. */
    method RunAt(id: NodeId, q: nat, out: RunBuffer, typed: bool)
      requires Valid() && q in inits
      modifies out, this`last, this`lastId, this`lastSeq, this`lastValid
      ensures Valid() && inits == old(inits) && Journal() == old(Journal())
      ensures out.Held() == Serve(Stmt(Journal(), g.topo), id, q, typed)
      ensures out.Held().Aligned() && Faithful(out.Held(), inits[q], id, typed)
      ensures Owed(out.Held(), inits[q], id, typed)
    {
      ServedRun(Stmt(Journal(), g.topo), inits, id, q, typed);
      BuiltIsOwed(Serve(Stmt(Journal(), g.topo), id, q, typed), inits[q], id, typed);
      ServeInto(id, q, out, typed);
    }

    /** The serve itself, compacting out's columns in place. */
    method ServeInto(id: NodeId, q: nat, out: RunBuffer, typed: bool)
      requires armed
      modifies out, this`last, this`lastId, this`lastSeq, this`lastValid
      ensures out.Held() == Serve(Stmt(Journal(), g.topo), id, q, typed)
      ensures LastSound()
      ensures lastValid <==> seqNo == q && typed && id in g.topo.live && |out.dsts| == |g.topo.EntryOf(id).slots|
      ensures lastValid ==> last == out && lastId == id && lastSeq == seqNo
    {
      hide Compact, ServedLiveSet, LiveOver, Log.LiveAt, Resolve;
      // out's buffers are about to be overwritten, and they may be what last aliases.
      lastValid := false;
      var fast := seqNo == q;
      ghost var raw: Run;
      var captured: bool;
      raw, captured := LoadRaw(id, q, fast, out, typed);
      assert fast ==> |raw.dsts| == |g.topo.EntryOf(id).slots| by { ResolvedSize(g.topo.EntryOf(id), typed); }
      var srcLive := WasLive(id, q, fast);
      if !srcLive {
        out.Load(EmptyRun);
        return;
      }
      ghost var live := ServedLiveSet(Stmt(Journal(), g.topo), raw, q);
      LiveSetOver(Stmt(Journal(), g.topo), raw, q);
      var unfiltered := CompactInPlace(q, fast, out, raw, live);
      if fast && !captured && typed && unfiltered {
        last, lastId, lastSeq, lastValid := out, id, seqNo, true;
      }
    }

    /** Loads the run before filtering: from the first capture after the instant, or resolved. */
    method LoadRaw(id: NodeId, q: nat, fast: bool, out: RunBuffer, typed: bool)
      returns (ghost raw: Run, captured: bool)
      requires fast == (seqNo == q)
      modifies out
      ensures out.Held() == raw == ServedRaw(Stmt(Journal(), g.topo), id, q, typed)
      ensures fast ==> !captured
    {
      var src: Option<Run> := None;
      if !fast { src := CaptureAt(id, q); }
      captured := src.Some?;
      var run := if src.Some? then src.value else Resolve(g.topo.EntryOf(id), typed);
      raw := run;
      out.Load(run);
    }

    /** Whether node d was live at the instant a run is being served for. */
    method WasLive(d: NodeId, q: nat, fast: bool) returns (live: bool)
      ensures live == LiveWhen(Journal(), g.topo, d, q, fast)
    {
      if fast { live := d in g.topo.live; } else { live := LiveAt(d, q); }
    }

    /** Keeps only the arcs whose destination was live, moving every column under the same
        permutation and re-keying the multi-type map. */
    method CompactInPlace(q: nat, fast: bool, out: RunBuffer, ghost raw: Run, ghost live: set<NodeId>)
      returns (unfiltered: bool)
      requires out.Held() == raw
      requires LiveOver(raw.dsts, live, Journal(), g.topo, q, fast)
      modifies out
      ensures out.Held() == Compact(raw, live)
      ensures unfiltered ==> out.Held() == raw
      ensures unfiltered <==> |out.dsts| == |raw.dsts|
    {
      hide Compact, LiveOver, LiveWhen, PartDone;
      NoneDone(raw, live);
      ghost var l, t := Journal(), g.topo;
      var n := |out.dsts|;
      var k, i := 0, 0;
      var extra: map<nat, seq<TypeCode>> := map[];
      while i < n
        invariant n == |raw.dsts| && i <= n
        invariant PartDone(raw, live, out.Held(), extra, k, i)
      {
        Unmoved(raw, live, out.Held(), extra, k, i);
        var keep := WasLive(out.dsts[i], q, fast);
        LiveOne(raw.dsts, live, l, t, q, fast, i);
        if keep {
          extra := KeepSlot(out, k, i, extra, raw, live);
          k := k + 1;
        } else {
          SkipOne(raw, live, out.Held(), extra, k, i);
        }
        i := i + 1;
      }
      assert raw.dsts[..n] == raw.dsts;
      unfiltered := FinishCompaction(out, k, extra, raw, live);
    }

    /** Keeps the live slot at position i: moves it to position k and re-keys its further codes. */
    static method KeepSlot(out: RunBuffer, k: nat, i: nat, extra: map<nat, seq<TypeCode>>,
                           ghost raw: Run, ghost live: set<NodeId>)
      returns (extra': map<nat, seq<TypeCode>>)
      requires i < |raw.dsts| && raw.dsts[i] in live
      requires PartDone(raw, live, out.Held(), extra, k, i)
      modifies out
      ensures PartDone(raw, live, out.Held(), extra', k + 1, i + 1)
    {
      MoveOne(raw, live, out.Held(), extra, k, i);
      extra' := if i in out.extra then extra[k := out.extra[i]] else extra;
      out.Move(k, i);
    }

    /** Cuts the columns to the k kept slots and installs the re-keyed map if any slot was dropped. */
    static method FinishCompaction(out: RunBuffer, k: nat, extra: map<nat, seq<TypeCode>>,
                                   ghost raw: Run, ghost live: set<NodeId>)
      returns (unfiltered: bool)
      requires raw.dsts[..|raw.dsts|] == raw.dsts
      requires PartDone(raw, live, out.Held(), extra, k, |raw.dsts|)
      modifies out
      ensures out.Held() == Compact(raw, live)
      ensures unfiltered ==> out.Held() == raw
      ensures unfiltered <==> |out.dsts| == |raw.dsts|
    {
      unfiltered := k == |out.dsts|;
      if unfiltered { AllKept(raw, live); }
      Trimmed(raw, out.Held(), live);
      out.Trim(k);
      if !unfiltered { out.extra := extra; }
    }
  }

  /** The keys are interned, each new one under an id of its own that no key had; no other key is, and no id moves. */
  ghost predicate Interned(t: Topo, t': Topo, keys: set<Key>) {
    && t'.ids.Keys == t.ids.Keys + keys
    && (forall k :: k in t.ids ==> t'.ids[k] == t.ids[k])
    && (forall k :: k in keys && k !in t.ids ==> t'.ids[k] !in t.ids.Values)
    && (forall k, j :: k in keys && j in keys && k != j && k !in t.ids ==> t'.ids[k] != t'.ids[j])
  }

  /** Both ends are live, and src's entry has one slot more, at its end. */
  ghost predicate Connected(t: Topo, t': Topo, src: Key, dst: Key, handle: nat, types: seq<TypeCode>)
    requires src in t'.ids && dst in t'.ids
  {
    && t'.live == t.live + {t'.ids[src], t'.ids[dst]}
    && var e := t.EntryOf(t'.ids[src]);
      t'.out == t.out[t'.ids[src] :=
        Entry(e.slots + [Slot(dst := t'.ids[dst], handle := handle, types := types)], e.handleCol || handle > 0)]
  }

  lemma ConnectIs(s: Stmt, inits: map<nat, Topo>, src: Key, dst: Key, handle: nat, types: seq<TypeCode>)
    requires Inv(s, inits)
    ensures var t, t' := s.topo, s.topo.Connect(src, dst, handle, types);
      Interned(t, t', {src, dst}) && src in t'.ids && dst in t'.ids && Connected(t, t', src, dst, handle, types)
  {
    var t := s.topo;
    ReviveFacts(t, src);
    ReviveFacts(t.Revive(src), dst);
  }

  /** The mutator adapter of one statement: every operator of it that changes the topology, with
      its hooks around the write. `admitted` is the storage's answer: a refused write changes
      nothing. */
  class MutatorAdapter {
    const log: LiveTopoLog
    const g: Graph

    ghost function State(): Stmt
      reads log, g
    {
      Stmt(log.Journal(), g.topo)
    }

    ghost predicate Valid()
      reads this, log, log.g, log.last
    {
      log.g == g && log.Valid()
    }

    constructor (log: LiveTopoLog)
      requires log.Valid()
      ensures Valid() && this.log == log
    {
      this.log, this.g := log, log.g;
    }

    method AddNode(k: Key, admitted: bool)
      requires Valid()
      modifies log`seqNo, log`lives, g
      ensures Valid() && log.inits == old(log.inits)
      ensures State() == Step(old(State()), Op.AddNode(k, admitted))
      ensures !admitted ==> g.topo == old(g.topo)
      ensures admitted ==> Interned(old(g.topo), g.topo, {k})
      ensures admitted ==> g.topo.live == old(g.topo).live + {g.topo.ids[k]} && g.topo.out == old(g.topo).out
    {
      StepKeepsInv(State(), log.inits, Op.AddNode(k, admitted));
      StepClock(State(), Op.AddNode(k, admitted));
      var pre := log.NodePre(k);
      if admitted { g.topo := g.topo.Revive(k); }
      log.NodePost(k, pre);
    }

    method AddEdge(src: Key, dst: Key, handle: nat, types: seq<TypeCode>, admitted: bool)
      requires Valid()
      modifies log`seqNo, log`lives, log`caps, g
      ensures Valid() && log.inits == old(log.inits)
      ensures State() == Step(old(State()), Op.AddEdge(src, dst, handle, types, admitted))
      ensures !admitted ==> g.topo == old(g.topo)
      ensures admitted ==> Interned(old(g.topo), g.topo, {src, dst}) && src in g.topo.ids && dst in g.topo.ids
      ensures admitted ==> Connected(old(g.topo), g.topo, src, dst, handle, types)
    {
      hide Interned, Connected, Topo.Connect, Inv, Log.BeforeAdjWrite, Log.NodePost, Log.NodePre;
      if admitted { ConnectIs(State(), log.inits, src, dst, handle, types); }
      StepKeepsInv(State(), log.inits, Op.AddEdge(src, dst, handle, types, admitted));
      StepClock(State(), Op.AddEdge(src, dst, handle, types, admitted));
      var preSrc := log.NodePre(src);
      var preDst := log.NodePre(dst);
      log.BeforeAdjWrite(src);
      if admitted { g.topo := g.topo.Connect(src, dst, handle, types); }
      log.NodePost(dst, preDst);
      log.NodePost(src, preSrc);
    }

    /** Any write to the outgoing entry of the node keyed src: an edge or every edge removed, or the
        types of its edges changed. */
    method WriteEntry(src: Key, entry: Entry, admitted: bool)
      requires Valid()
      modifies log`seqNo, log`caps, g
      ensures Valid() && log.inits == old(log.inits)
      ensures State() == Step(old(State()), Op.Write(src, entry, admitted))
      ensures g.topo == if admitted && src in old(g.topo).ids then old(g.topo).(out := old(g.topo).out[old(g.topo).ids[src] := entry])
                        else old(g.topo)
    {
      StepKeepsInv(State(), log.inits, Op.Write(src, entry, admitted));
      StepClock(State(), Op.Write(src, entry, admitted));
      log.BeforeAdjWrite(src);
      if admitted { g.topo := g.topo.WithEntry(src, entry); }
    }

    method RemoveNode(k: Key, admitted: bool)
      requires Valid()
      modifies log`seqNo, log`lives, g
      ensures Valid() && log.inits == old(log.inits)
      ensures State() == Step(old(State()), Op.RemoveNode(k, admitted))
      ensures g.topo == if admitted && k in old(g.topo).ids then old(g.topo).(live := old(g.topo).live - {old(g.topo).ids[k]})
                        else old(g.topo)
    {
      StepKeepsInv(State(), log.inits, Op.RemoveNode(k, admitted));
      StepClock(State(), Op.RemoveNode(k, admitted));
      log.BeforeNodeRemove(k);
      if admitted { g.topo := g.topo.Kill(k); }
    }
  }

  // ------------------------------------------------------------------ the whole adjacency at an instant

  /** A forward adjacency over every node id: node id's arcs are the positions from vertices[id] up
      to vertices[id + 1]. */
  datatype ForwardCSR = ForwardCSR(vertices: seq<nat>, edges: seq<NodeId>, handles: seq<nat>,
                                   codes: seq<TypeCode>, extra: map<nat, seq<TypeCode>>)
  {
    /** The slice at id is the run r, column by column; a source without a handle column reads 0. */
    ghost predicate SliceIs(id: nat, r: Run) {
      && id + 1 < |vertices| && |edges| == |handles| == |codes|
      && vertices[id] + |r.dsts| == vertices[id + 1] <= |edges|
      && edges[vertices[id]..vertices[id + 1]] == r.dsts
      && handles[vertices[id]..vertices[id + 1]] == PaddedHandles(r)
      && codes[vertices[id]..vertices[id + 1]] == r.codes
      && forall i :: 0 <= i < |r.dsts| ==> ExtraIs(vertices[id], i, r)
    }

    predicate ExtraIs(base: nat, i: nat, r: Run) {
      (base + i in extra <==> i in r.extra) && (i in r.extra ==> base + i in extra && extra[base + i] == r.extra[i])
    }

    /** Exactly the given runs, one after another, and nothing else. */
    ghost predicate Holds(runs: seq<Run>) {
      && |vertices| == |runs| + 1 && vertices[0] == 0 && vertices[|runs|] == |edges|
      && |edges| == |handles| == |codes|
      && (forall p :: p in extra ==> p < |edges|)
      && (forall id :: 0 <= id < |runs| ==> SliceIs(id, runs[id]))
    }
  }

  /** The handle column as an adjacency holds it: a source without one reads 0 everywhere. */
  function PaddedHandles(r: Run): (hs: seq<nat>)
    ensures |hs| == |r.dsts|
    ensures forall i :: 0 <= i < |hs| ==> hs[i] == if r.handleCol then r.handles[i] else 0
  {
    if r.handleCol then r.handles else seq(|r.dsts|, i requires 0 <= i < |r.dsts| => 0)
  }

  /** The adjacency with one more source's run appended. */
  function AppendRun(c: ForwardCSR, r: Run, extra: map<nat, seq<TypeCode>>): ForwardCSR {
    ForwardCSR(c.vertices + [|c.edges| + |r.dsts|], c.edges + r.dsts, c.handles + PaddedHandles(r),
               c.codes + r.codes, extra)
  }

  ghost predicate Merged(c: ForwardCSR, r: Run, extra: map<nat, seq<TypeCode>>) {
    && (forall p :: p in c.extra ==> p in extra && extra[p] == c.extra[p])
    && (forall i :: i in r.extra ==> |c.edges| + i in extra && extra[|c.edges| + i] == r.extra[i])
    && (forall p :: p in extra ==> p in c.extra || (p >= |c.edges| && p - |c.edges| in r.extra))
  }

  lemma AppendKeepsSlice(c: ForwardCSR, runs: seq<Run>, r: Run, extra: map<nat, seq<TypeCode>>, id: nat)
    requires c.Holds(runs) && Merged(c, r, extra) && id < |runs|
    ensures AppendRun(c, r, extra).SliceIs(id, runs[id])
  {
    var c' := AppendRun(c, r, extra);
    assert c.SliceIs(id, runs[id]);
    var lo, hi := c.vertices[id], c.vertices[id + 1];
    assert c'.vertices[id] == lo && c'.vertices[id + 1] == hi;
    assert c'.edges[lo..hi] == c.edges[lo..hi];
    assert c'.handles[lo..hi] == c.handles[lo..hi];
    assert c'.codes[lo..hi] == c.codes[lo..hi];
    forall i | 0 <= i < |runs[id].dsts| ensures c'.ExtraIs(lo, i, runs[id]) {
      assert c.ExtraIs(lo, i, runs[id]);
    }
  }

  lemma AppendAddsSlice(c: ForwardCSR, runs: seq<Run>, r: Run, extra: map<nat, seq<TypeCode>>)
    requires c.Holds(runs) && Merged(c, r, extra)
    ensures AppendRun(c, r, extra).SliceIs(|runs|, r)
  {
    var c' := AppendRun(c, r, extra);
    var lo, hi := |c.edges|, |c.edges| + |r.dsts|;
    assert c'.edges[lo..hi] == r.dsts;
    assert c'.handles[lo..hi] == PaddedHandles(r);
    assert c'.codes[lo..hi] == r.codes;
    forall i | 0 <= i < |r.dsts| ensures c'.ExtraIs(lo, i, r) { }
  }

  lemma AppendHolds(c: ForwardCSR, runs: seq<Run>, r: Run, extra: map<nat, seq<TypeCode>>)
    requires c.Holds(runs) && Merged(c, r, extra)
    ensures AppendRun(c, r, extra).Holds(runs + [r])
  {
    forall id | 0 <= id < |runs| + 1 ensures AppendRun(c, r, extra).SliceIs(id, (runs + [r])[id]) {
      if id < |runs| { AppendKeepsSlice(c, runs, r, extra, id); } else { AppendAddsSlice(c, runs, r, extra); }
    }
  }

  /** The forward adjacency a live traversal reads through. */
  class LiveOutSource {
    const log: LiveTopoLog
    const typed: bool

    constructor (log: LiveTopoLog, typed: bool)
      ensures this.log == log && this.typed == typed
    {
      this.log, this.typed := log, typed;
    }

    /** Assembles the whole forward adjacency at the Init that began at q, from per-node runs: for
        every id its slice is the run the whole-graph build gave it at that Init. The handle column
        is present exactly when some source's run carries one. */
    method AssembleAt(q: nat) returns (c: ForwardCSR, handleCol: bool, ghost runs: seq<Run>)
      requires log.Valid() && q in log.inits
      modifies log`last, log`lastId, log`lastSeq, log`lastValid
      ensures log.Valid() && log.inits == old(log.inits)
      ensures |runs| == log.g.topo.next && c.Holds(runs) && FaithfulRuns(runs, log.inits[q], typed)
      ensures handleCol == AnyHandles(runs)
    {
      var run := new RunBuffer();
      c, handleCol, runs := ForwardCSR([0], [], [], [], map[]), false, [];
      var n := log.g.topo.next;
      for id := 0 to n
        invariant fresh(run) && log.Valid() && log.inits == old(log.inits)
        invariant |runs| == id && c.Holds(runs) && FaithfulRuns(runs, log.inits[q], typed)
        invariant handleCol == AnyHandles(runs)
      {
        c, handleCol, runs := AppendServed(c, handleCol, runs, id, q, run);
      }
    }

    /** Serves one source and appends its run to the columns assembled so far. */
    method AppendServed(c: ForwardCSR, handleCol: bool, ghost runs: seq<Run>, id: NodeId, q: nat, run: RunBuffer)
      returns (c': ForwardCSR, handleCol': bool, ghost runs': seq<Run>)
      requires log.Valid() && q in log.inits
      requires |runs| == id && c.Holds(runs) && FaithfulRuns(runs, log.inits[q], typed) && handleCol == AnyHandles(runs)
      modifies run, log`last, log`lastId, log`lastSeq, log`lastValid
      ensures log.Valid() && log.inits == old(log.inits)
      ensures |runs'| == id + 1 && c'.Holds(runs') && FaithfulRuns(runs', log.inits[q], typed)
      ensures handleCol' == AnyHandles(runs')
    {
      log.RunAt(id, q, run, typed);
      var r: Run := Columns(run.dsts, run.handles, run.codes, run.extra, run.handleCol);
      FaithfulAppend(runs, r, log.inits[q], typed);
      runs' := runs + [r];
      c', handleCol' := Append(c, handleCol, runs, r);
    }

    static method Append(c: ForwardCSR, handleCol: bool, ghost runs: seq<Run>, r: Run)
      returns (c': ForwardCSR, handleCol': bool)
      requires c.Holds(runs) && handleCol == AnyHandles(runs)
      ensures c'.Holds(runs + [r]) && handleCol' == AnyHandles(runs + [r])
    {
      var extra := MergeExtra(c, r);
      AppendHolds(c, runs, r, extra);
      AnyHandlesAppend(runs, r);
      c', handleCol' := AppendRun(c, r, extra), handleCol || r.handleCol;
    }

    /** Re-keys the run's multi-type map to the position its arcs are about to take. */
    static method MergeExtra(c: ForwardCSR, run: Run) returns (extra: map<nat, seq<TypeCode>>)
      requires forall p :: p in c.extra ==> p < |c.edges|
      ensures Merged(c, run, extra)
    {
      extra := c.extra;
      var keys := run.extra.Keys;
      while keys != {}
        invariant keys <= run.extra.Keys
        invariant forall p :: p in c.extra ==> p in extra && extra[p] == c.extra[p]
        invariant forall i :: i in run.extra && i !in keys ==> |c.edges| + i in extra && extra[|c.edges| + i] == run.extra[i]
        invariant forall p :: p in extra ==> p in c.extra || (p >= |c.edges| && p - |c.edges| in run.extra)
        decreases keys
      {
        var i :| i in keys;
        extra := extra[|c.edges| + i := run.extra[i]];
        keys := keys - {i};
      }
    }
  }

  /** runs[id] is the run the whole-graph build gives node id, every column when the traversal is
      typed, every arc when it is not; and it is what the node's entry owes, slot by slot. */
  ghost predicate FaithfulRuns(runs: seq<Run>, at: Topo, typed: bool) {
    forall id :: 0 <= id < |runs| ==> Faithful(runs[id], at, id, typed)
  }

  ghost predicate Faithful(r: Columns, at: Topo, id: NodeId, typed: bool) {
    SameArcs(r, BuiltAt(at, id, typed)) && (typed ==> r == BuiltAt(at, id, true)) && Owed(r, at, id, typed)
  }

  lemma FaithfulAppend(runs: seq<Run>, r: Run, at: Topo, typed: bool)
    requires FaithfulRuns(runs, at, typed) && Faithful(r, at, |runs|, typed)
    ensures FaithfulRuns(runs + [r], at, typed)
  {
  }

  predicate AnyHandles(runs: seq<Run>) { exists id :: 0 <= id < |runs| && runs[id].handleCol }

  lemma AnyHandlesAppend(runs: seq<Run>, r: Run)
    ensures AnyHandles(runs + [r]) == (AnyHandles(runs) || r.handleCol)
  {
    if AnyHandles(runs) {
      var id :| 0 <= id < |runs| && runs[id].handleCol;
      assert (runs + [r])[id].handleCol;
    }
    if r.handleCol { assert (runs + [r])[|runs|].handleCol; }
  }

  /** The run the whole-graph build gives node id of a topology. */
  function BuiltAt(t: Topo, id: NodeId, typed: bool): Run {
    Built(t.EntryOf(id), id in t.live, t.live, typed)
  }

  lemma ResolvedSize(e: Entry, typed: bool)
    ensures |Resolve(e, typed).dsts| == |e.slots|
  {
  }

  lemma LiveSetOver(s: Stmt, raw: Run, q: nat)
    ensures LiveOver(raw.dsts, ServedLiveSet(s, raw, q), s.log, s.topo, q, s.log.seqNo == q)
  {
  }

  predicate LiveWhen(l: Log, t: Topo, d: NodeId, q: nat, fast: bool) {
    if fast then d in t.live else l.LiveAt(t, d, q)
  }

  /** `live` holds exactly those of the destinations that were live at the instant. */
  ghost predicate LiveOver(dsts: seq<NodeId>, live: set<NodeId>, l: Log, t: Topo, q: nat, fast: bool) {
    forall i :: 0 <= i < |dsts| ==> (dsts[i] in live <==> LiveWhen(l, t, dsts[i], q, fast))
  }

  lemma LiveOne(dsts: seq<NodeId>, live: set<NodeId>, l: Log, t: Topo, q: nat, fast: bool, i: nat)
    requires LiveOver(dsts, live, l, t, q, fast) && i < |dsts|
    ensures dsts[i] in live <==> LiveWhen(l, t, dsts[i], q, fast)
  {
  }

  // ------------------------------------------------------------------ compaction in place

  /** One column part-way: its first |kept| positions hold the kept elements, its positions from i
      on are still as they were. */
  ghost predicate Shifted(raw: seq<nat>, cur: seq<nat>, kept: seq<nat>, i: nat) {
    && |cur| == |raw|
    && |kept| <= i <= |raw|
    && (forall j :: 0 <= j < |kept| ==> kept[j] < i && cur[j] == raw[kept[j]])
    && (forall j :: i <= j < |raw| ==> cur[j] == raw[j])
  }

  lemma ShiftOne(raw: seq<nat>, cur: seq<nat>, kept: seq<nat>, i: nat)
    requires Shifted(raw, cur, kept, i) && i < |raw|
    ensures Shifted(raw, cur[|kept| := cur[i]], kept + [i], i + 1)
  {
  }

  /** All the columns part-way, under the same permutation. */
  ghost predicate Moved(raw: Columns, cur: Columns, kept: seq<nat>, i: nat) {
    && cur.handleCol == raw.handleCol && cur.extra == raw.extra
    && Shifted(raw.dsts, cur.dsts, kept, i)
    && Shifted(raw.codes, cur.codes, kept, i)
    && (if raw.handleCol then Shifted(raw.handles, cur.handles, kept, i) else cur.handles == raw.handles)
  }

  function MoveTo(cur: Columns, k: nat, i: nat): Columns
    requires k <= i < |cur.dsts| == |cur.codes| && (cur.handleCol ==> i < |cur.handles|)
  {
    Columns(cur.dsts[k := cur.dsts[i]],
            if cur.handleCol then cur.handles[k := cur.handles[i]] else cur.handles,
            cur.codes[k := cur.codes[i]], cur.extra, cur.handleCol)
  }

  /** Compaction part-way: positions below i are dealt with, k of them kept. */
  ghost predicate PartDone(raw: Run, live: set<NodeId>, cur: Columns, extra: map<nat, seq<TypeCode>>, k: nat, i: nat)
  {
    && i <= |raw.dsts|
    && k == |Kept(raw.dsts[..i], live)|
    && Moved(raw, cur, Kept(raw.dsts[..i], live), i)
    && extra == Rekeyed(raw.extra, Kept(raw.dsts[..i], live))
  }

  lemma NoneDone(raw: Run, live: set<NodeId>)
    ensures PartDone(raw, live, raw, map[], 0, 0)
  {
    assert raw.dsts[..0] == [];
  }

  lemma Unmoved(raw: Run, live: set<NodeId>, cur: Columns, extra: map<nat, seq<TypeCode>>, k: nat, i: nat)
    requires PartDone(raw, live, cur, extra, k, i) && i < |raw.dsts|
    ensures |cur.dsts| == |raw.dsts| && cur.dsts[i] == raw.dsts[i]
  {
  }

  lemma MoveOne(raw: Run, live: set<NodeId>, cur: Columns, extra: map<nat, seq<TypeCode>>, k: nat, i: nat)
    requires PartDone(raw, live, cur, extra, k, i) && i < |raw.dsts| && raw.dsts[i] in live
    ensures k <= i < |cur.dsts| == |cur.codes| && (cur.handleCol ==> i < |cur.handles|)
    ensures PartDone(raw, live, MoveTo(cur, k, i),
                     if i in raw.extra then extra[k := raw.extra[i]] else extra, k + 1, i + 1)
  {
    var kept := Kept(raw.dsts[..i], live);
    KeptNext(raw.dsts, live, i);
    ShiftOne(raw.dsts, cur.dsts, kept, i);
    ShiftOne(raw.codes, cur.codes, kept, i);
    if raw.handleCol { ShiftOne(raw.handles, cur.handles, kept, i); }
    assert (kept + [i])[..|kept|] == kept;
  }

  lemma SkipOne(raw: Run, live: set<NodeId>, cur: Columns, extra: map<nat, seq<TypeCode>>, k: nat, i: nat)
    requires PartDone(raw, live, cur, extra, k, i) && i < |raw.dsts| && raw.dsts[i] !in live
    ensures PartDone(raw, live, cur, extra, k, i + 1)
  {
    KeptNext(raw.dsts, live, i);
  }

  lemma KeptNext(dsts: seq<NodeId>, live: set<NodeId>, i: nat)
    requires i < |dsts|
    ensures Kept(dsts[..i + 1], live) == if dsts[i] in live then Kept(dsts[..i], live) + [i] else Kept(dsts[..i], live)
  {
    assert dsts[..i + 1][..i] == dsts[..i];
  }

  lemma Trimmed(raw: Run, cur: Columns, live: set<NodeId>)
    requires Moved(raw, cur, Kept(raw.dsts, live), |raw.dsts|)
    ensures var k := |Kept(raw.dsts, live)|;
            Compact(raw, live) == Columns(cur.dsts[..k], if raw.handleCol then cur.handles[..k] else [],
                                          cur.codes[..k], Rekeyed(raw.extra, Kept(raw.dsts, live)), raw.handleCol)
  {
    var kept := Kept(raw.dsts, live);
    ShiftedPrefix(raw.dsts, cur.dsts, kept);
    ShiftedPrefix(raw.codes, cur.codes, kept);
    if raw.handleCol { ShiftedPrefix(raw.handles, cur.handles, kept); }
  }

  lemma ShiftedPrefix(raw: seq<nat>, cur: seq<nat>, kept: seq<nat>)
    requires Shifted(raw, cur, kept, |raw|)
    ensures cur[..|kept|] == seq(|kept|, k requires 0 <= k < |kept| => raw[kept[k]])
  {
  }

  lemma {:induction false} FirstEventStands(evs: seq<Event>, i: nat, q: nat)
    requires i < |evs| && FirstEvent(evs[..i + 1], q).Some?
    ensures FirstEvent(evs, q) == FirstEvent(evs[..i + 1], q)
  {
    if i + 1 < |evs| {
      assert evs[..|evs| - 1][..i + 1] == evs[..i + 1];
      FirstEventStands(evs[..|evs| - 1], i, q);
    } else {
      assert evs[..i + 1] == evs;
    }
  }

  lemma {:induction false} FirstCaptureStands(cs: seq<Capture>, i: nat, q: nat)
    requires i < |cs| && FirstCapture(cs[..i + 1], q).Some?
    ensures FirstCapture(cs, q) == FirstCapture(cs[..i + 1], q)
  {
    if i + 1 < |cs| {
      assert cs[..|cs| - 1][..i + 1] == cs[..i + 1];
      FirstCaptureStands(cs[..|cs| - 1], i, q);
    } else {
      assert cs[..i + 1] == cs;
    }
  }

  lemma {:induction false} KeptAll(dsts: seq<NodeId>, live: set<NodeId>)
    requires |Kept(dsts, live)| == |dsts|
    ensures forall j :: 0 <= j < |dsts| ==> Kept(dsts, live)[j] == j
  {
    if dsts != [] { KeptAll(dsts[..|dsts| - 1], live); }
  }

  /** Compaction that drops nothing is the identity. */
  lemma AllKept(r: Run, live: set<NodeId>)
    requires |Kept(r.dsts, live)| == |r.dsts|
    ensures Compact(r, live) == r
  {
    KeptAll(r.dsts, live);
    var c := Compact(r, live);
    forall k: nat | k < |r.dsts| ensures k in c.extra <==> k in r.extra ensures k in c.extra ==> c.extra[k] == r.extra[k] {
      RekeyedAt(r.extra, Kept(r.dsts, live), k);
    }
    assert c.dsts == r.dsts && c.handles == r.handles && c.codes == r.codes && c.extra == r.extra;
  }
}
