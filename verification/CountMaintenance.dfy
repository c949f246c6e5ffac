/** Maintains the relationship count store: every write enqueues deltas and dirty marks, and a commit
    applies them. */
module CountMaintenance {
  import opened CountCells

  class CountStore {
    var cells: map<Cell, int>
    var dirt: Dirt
    const budget: int   // how many out-edges a relabel recounts; 0 or less means any number

    constructor (budget: int)
      ensures cells == map[] && dirt == Dirt({}, {}, {}, {}) && this.budget == budget
    {
      this.budget := budget;
      cells, dirt := map[], Dirt({}, {}, {}, {});
    }

    /** Adds to one cell; a cell at zero is dropped, and a negative one is kept. */
    method Apply(d: Delta)
      modifies this`cells
      ensures forall c :: Value(cells, c) == Value(old(cells), c) + if d.cell == c then d.step else 0
      ensures forall c :: c in cells && c !in old(cells) ==> cells[c] != 0
    {
      if d.step == 0 { return; }
      var v := Value(cells, d.cell) + d.step;
      if v == 0 {
        cells := cells - {d.cell};
      } else {
        cells := cells[d.cell := v];
      }
    }

    method MarkDirty(m: Mark)
      modifies this`dirt
      ensures dirt == old(dirt).With(m)
    {
      dirt := dirt.With(m);
    }

    method RecomputeReset()
      modifies this
      ensures cells == map[] && dirt == Dirt({}, {}, {}, {})
    {
      cells, dirt := map[], Dirt({}, {}, {}, {});
    }
  }

  class CountBuffer {
    var deltas: seq<Delta>
    var marks: seq<Mark>

    constructor ()
      ensures deltas == [] && marks == []
    {
      deltas, marks := [], [];
    }

    method EnqueueDelta(d: Delta)
      modifies this`deltas
      ensures deltas == old(deltas) + [d]
      ensures forall c :: Sum(deltas, c) == Sum(old(deltas), c) + if d.cell == c then d.step else 0
    {
      SumPush(deltas, d);
      deltas := deltas + [d];
    }

    method MarkDirty(m: Mark)
      modifies this`marks
      ensures marks == old(marks) + [m]
    {
      marks := marks + [m];
    }

    /** The deltas of one relationship: each cell that counts it, once. */
    method EnqueueEdgeDeltas(rt: Id, srcLabels: seq<Id>, dstLabels: seq<Id>, sign: int)
      requires NoRepeats(srcLabels) && NoRepeats(dstLabels)
      modifies this`deltas
      ensures forall c :: Sum(deltas, c) == Sum(old(deltas), c) + Gain(HitBy(rt, srcLabels, dstLabels, c), sign)
    {
      EnqueueDelta(Delta(E(rt), sign));
      EnqueueEnds(rt, srcLabels, Out, sign);
      EnqueueEnds(rt, dstLabels, In, sign);
      for i := 0 to |srcLabels|
        invariant forall c: Cell :: !c.T? ==> Sum(deltas, c) == Sum(old(deltas), c) + Gain(HitBy(rt, srcLabels, dstLabels, c), sign)
        invariant forall c: Cell :: c.T? ==> Sum(deltas, c) == Sum(old(deltas), c) + Gain(HitBy(rt, srcLabels[..i], dstLabels, c), sign)
      {
        EnqueueTriples(rt, srcLabels[i], dstLabels, sign);
      }
    }

    method EnqueueEnds(rt: Id, labels: seq<Id>, dir: Dir, sign: int)
      requires NoRepeats(labels)
      modifies this`deltas
      ensures forall c :: Sum(deltas, c) == Sum(old(deltas), c) + Gain(c.D? && c.dir == dir && c.rt == rt && c.lab in labels, sign)
    {
      for i := 0 to |labels|
        invariant forall c :: Sum(deltas, c) == Sum(old(deltas), c) + Gain(c.D? && c.dir == dir && c.rt == rt && c.lab in labels[..i], sign)
      {
        EnqueueDelta(Delta(D(labels[i], rt, dir), sign));
      }
    }

    method EnqueueTriples(rt: Id, a: Id, dstLabels: seq<Id>, sign: int)
      requires NoRepeats(dstLabels)
      modifies this`deltas
      ensures forall c :: Sum(deltas, c) == Sum(old(deltas), c) + Gain(c.T? && HitBy(rt, [a], dstLabels, c), sign)
    {
      for j := 0 to |dstLabels|
        invariant forall c :: Sum(deltas, c) == Sum(old(deltas), c) + Gain(c.T? && HitBy(rt, [a], dstLabels[..j], c), sign)
      {
        EnqueueDelta(Delta(T(a, rt, dstLabels[j]), sign));
      }
    }

    /** The deltas of every relationship in the slots, for every cell. */
    method EnqueueSlots(g: Graph, n: Node, slots: seq<Handle>, sign: int)
      requires g.Valid() && forall h :: h in slots ==> h in g.edges && g.edges[h].src == n
      modifies this`deltas
      ensures forall c :: Sum(deltas, c) == Sum(old(deltas), c) + sign * Tally(g, slots, None, c)
    {
      assert NoRepeats(g.Labels(n));
      for i := 0 to |slots|
        invariant forall c :: Sum(deltas, c) == Sum(old(deltas), c) + sign * Tally(g, slots[..i], None, c)
      {
        TallyNext(g, slots, i, None, sign);
        var e := g.edges[slots[i]];
        if e.rt.Some? { EnqueueEdgeDeltas(e.rt.value, g.Labels(n), g.Labels(e.dst), sign); }
      }
      assert slots[..|slots|] == slots;
    }

    /** The deltas of the label x of the slots' source, for the cells scoped to it. */
    method EnqueueRelabelled(g: Graph, n: Node, x: Id, slots: seq<Handle>, sign: int)
      requires g.Valid() && x in g.Labels(n) && forall h :: h in slots ==> h in g.edges && g.edges[h].src == n
      modifies this`deltas
      ensures forall c :: Sum(deltas, c) == Sum(old(deltas), c) + sign * Tally(g, slots, Some(x), c)
    {
      for i := 0 to |slots|
        invariant forall c :: Sum(deltas, c) == Sum(old(deltas), c) + sign * Tally(g, slots[..i], Some(x), c)
      {
        TallyNext(g, slots, i, Some(x), sign);
        var e := g.edges[slots[i]];
        if e.rt.Some? {
          assert NoRepeats(g.Labels(e.dst));
          EnqueueDelta(Delta(D(x, e.rt.value, Out), sign));
          EnqueueTriples(e.rt.value, x, g.Labels(e.dst), sign);
        }
      }
      assert slots[..|slots|] == slots;
    }

    /** Applies the deltas, then the marks, and empties the buffer. */
    method Commit(cs: CountStore)
      modifies this, cs`cells, cs`dirt
      ensures deltas == [] && marks == []
      ensures forall c :: Value(cs.cells, c) == Value(old(cs.cells), c) + Sum(old(deltas), c)
      ensures cs.dirt == old(cs.dirt).Absorb(old(marks))
    {
      for i := 0 to |deltas|
        invariant deltas == old(deltas) && marks == old(marks) && cs.dirt == old(cs.dirt)
        invariant forall c :: Value(cs.cells, c) == Value(old(cs.cells), c) + Sum(deltas[..i], c)
      {
        assert deltas[..i + 1] == deltas[..i] + [deltas[i]];
        SumPush(deltas[..i], deltas[i]);
        cs.Apply(deltas[i]);
      }
      assert deltas[..|deltas|] == deltas;
      label applied:
      for i := 0 to |marks|
        invariant deltas == old(deltas) && marks == old(marks) && cs.cells == old@applied(cs.cells)
        invariant cs.dirt == old(cs.dirt).Absorb(marks[..i])
      {
        assert marks[..i + 1] == marks[..i] + [marks[i]];
        AbsorbPush(old(cs.dirt), marks[..i], marks[i]);
        cs.MarkDirty(marks[i]);
      }
      assert marks[..|marks|] == marks;
      deltas, marks := [], [];
    }

    method Rollback()
      modifies this
      ensures deltas == [] && marks == []
    {
      deltas, marks := [], [];
    }
  }

  /** Rebuilds the store from the graph: no cell is dirty afterwards, and each equals a recount of the
      live relationships, whatever the store held. `walk` lists the nodes, each once. */
  method RecomputeCountStore(cs: CountStore, g: Graph, walk: seq<Node>)
    requires g.Valid() && NoRepeats(walk) && forall h :: h in g.edges ==> g.edges[h].src in walk
    modifies cs
    ensures cs.dirt == Dirt({}, {}, {}, {}) && forall c :: Value(cs.cells, c) == g.Recount(c)
  {
    cs.RecomputeReset();
    var buf := new CountBuffer();
    for i := 0 to |walk|
      invariant fresh(buf) && buf.deltas == [] && buf.marks == [] && cs.dirt == Dirt({}, {}, {}, {})
      invariant forall c :: Value(cs.cells, c) == |From(g, walk[..i], c)|
    {
      var src := walk[i];
      forall c { FromNext(g, walk, i, c); }
      if src in g.dead { continue; }
      EnqueueLive(buf, g, src);
      buf.Commit(cs);
    }
    forall c ensures |From(g, walk, c)| == g.Recount(c) { assert From(g, walk, c) == g.Counted(c); }
    assert walk[..|walk|] == walk;
  }

  /** The live relationships of one source, to live destinations only. */
  method EnqueueLive(buf: CountBuffer, g: Graph, src: Node)
    requires g.Valid() && src !in g.dead && buf.deltas == []
    modifies buf`deltas
    ensures forall c :: Sum(buf.deltas, c) == |From(g, [src], c)|
  {
    var slots := g.Slots(src);
    assert NoRepeats(g.Labels(src));
    for i := 0 to |slots|
      invariant forall c :: Sum(buf.deltas, c) == |Listed(g, slots[..i], c)|
    {
      forall c { ListedNext(g, slots, i, c); }
      assert slots[i] in slots;
      var e := g.edges[slots[i]];
      if e.dst in g.dead || e.rt.None? { continue; }
      assert NoRepeats(g.Labels(e.dst));
      buf.EnqueueEdgeDeltas(e.rt.value, g.Labels(src), g.Labels(e.dst), 1);
    }
    assert slots[..|slots|] == slots;
    forall c ensures Listed(g, slots, c) == From(g, [src], c) {
      assert forall h :: h in slots <==> h in g.edges && g.edges[h].src == src;
    }
  }

  function From(g: Graph, srcs: seq<Node>, c: Cell): set<Handle> { set h | h in g.Counted(c) && g.edges[h].src in srcs }

  function Listed(g: Graph, hs: seq<Handle>, c: Cell): set<Handle> { set h | h in g.Counted(c) && h in hs }

  lemma FromNext(g: Graph, walk: seq<Node>, i: nat, c: Cell)
    requires NoRepeats(walk) && i < |walk|
    ensures |From(g, walk[..i + 1], c)| == |From(g, walk[..i], c)| + |From(g, [walk[i]], c)|
    ensures walk[i] in g.dead ==> From(g, [walk[i]], c) == {}
  {
    assert walk[..i + 1] == walk[..i] + [walk[i]];
    hide Graph.Counted;
    Parts(From(g, walk[..i + 1], c), From(g, walk[..i], c), From(g, [walk[i]], c));
  }

  lemma ListedNext(g: Graph, hs: seq<Handle>, i: nat, c: Cell)
    requires NoRepeats(hs) && i < |hs|
    ensures |Listed(g, hs[..i + 1], c)| == |Listed(g, hs[..i], c)| + if hs[i] in g.Counted(c) then 1 else 0
  {
    assert hs[..i + 1] == hs[..i] + [hs[i]];
    hide Graph.Counted;
    OneMore(Listed(g, hs[..i + 1], c), Listed(g, hs[..i], c), hs[i], hs[i] in g.Counted(c));
  }

  /** The write path of one transaction. The graph is written at once; the counts follow at commit. */
  class CountedMutator {
    var graph: Graph
    var nodes: set<Node>
    var newborn: set<Node>        // created by this transaction and still without a relationship
    const store: CountStore
    const buf: CountBuffer
    ghost var base: Graph       // the committed graph the transaction started from

    constructor (store: CountStore, graph: Graph, nodes: set<Node>)
      requires Sound(graph, nodes, {}) && Exact(store.cells, store.dirt, [], [], graph)
      ensures Valid() && this.store == store && this.graph == graph && base == graph && this.nodes == nodes && newborn == {}
    {
      this.store, this.graph, this.nodes, this.base, newborn := store, graph, nodes, graph, {};
      buf := new CountBuffer();
    }

    ghost predicate Valid()
      reads this, store, buf
    {
      && Sound(graph, nodes, newborn) && Exact(store.cells, store.dirt, buf.deltas, buf.marks, graph)
      && Sound(base, nodes, {}) && Exact(store.cells, store.dirt, [], [], base)
    }

    method AddNode(n: Node)
      requires Valid()
      modifies this`nodes, this`newborn
      ensures Valid() && nodes == old(nodes) + {n}
      ensures newborn == if n in old(nodes) || graph.edges == map[] then old(newborn) else old(newborn) + {n}
    {
      if n !in nodes && graph.edges != map[] { newborn := newborn + {n}; }
      nodes := nodes + {n};
    }

    method AddEdge(h: Handle, src: Node, dst: Node)
      requires Valid() && h !in graph.edges && {src, dst} <= nodes && src !in graph.dead && dst !in graph.dead
      modifies this`graph, this`newborn
      ensures Valid() && graph == old(graph).WithEdge(h, src, dst) && newborn == old(newborn) - {src, dst}
    {
      SoundWithEdge(graph, nodes, newborn, h, src, dst);
      forall c { RecountAdded(graph, h, src, dst, c); }
      StillExact(store.cells, store.dirt, buf.deltas, buf.marks, graph, buf.deltas, buf.marks, graph.WithEdge(h, src, dst));
      graph := graph.WithEdge(h, src, dst);
      newborn := newborn - {src, dst};
    }

    /** The one call that types a relationship, after it has been added. */
    method SetEdgeLabelByHandle(h: Handle, rt: Id)
      requires Valid() && h in graph.edges && graph.edges[h].rt.None?
      modifies this`graph, buf`deltas
      ensures Valid() && graph == old(graph).WithType(h, rt)
    {
      ghost var before, was := buf.deltas, graph;
      graph := graph.WithType(h, rt);
      var e := graph.edges[h];
      assert NoRepeats(graph.Labels(e.src)) && NoRepeats(graph.Labels(e.dst));
      buf.EnqueueEdgeDeltas(rt, graph.Labels(e.src), graph.Labels(e.dst), 1);
      SoundWithType(was, nodes, newborn, h, rt);
      forall c { RecountTyped(was, h, rt, c); }
      StillExact(store.cells, store.dirt, before, buf.marks, was, buf.deltas, buf.marks, graph);
    }

    /** The orientation under which the handle is stored, when the pair has it either way. */
    predicate Stored(src: Node, dst: Node, h: Handle) reads this {
      && h in graph.edges
      && var e := graph.edges[h]; (e.src == src && e.dst == dst) || (e.src == dst && e.dst == src)
    }

    method RemoveEdgeByHandle(src: Node, dst: Node, h: Handle)
      requires Valid()
      modifies this`graph, buf`deltas
      ensures Valid()
      ensures var g := old(graph);
        if h in g.edges && {g.edges[h].src, g.edges[h].dst} == {src, dst} then graph == g.WithoutEdge(h) else graph == g
    {
      if !Stored(src, dst, h) { return; }
      ghost var before := buf.deltas;
      var e := graph.edges[h];
      assert NoRepeats(graph.Labels(e.src)) && NoRepeats(graph.Labels(e.dst));
      if e.rt.Some? { buf.EnqueueEdgeDeltas(e.rt.value, graph.Labels(e.src), graph.Labels(e.dst), -1); }
      SoundWithoutEdge(graph, nodes, newborn, h);
      forall c { RecountRemoved(graph, h, c); }
      StillExact(store.cells, store.dirt, before, buf.marks, graph, buf.deltas, buf.marks, graph.WithoutEdge(h));
      graph := graph.WithoutEdge(h);
    }

    /** Position i of src's slots is the first that leads to dst. */
    static predicate FirstOf(g: Graph, src: Node, dst: Node, i: int) {
      && 0 <= i < |g.Slots(src)|
      && (forall j :: 0 <= j <= i ==> g.Slots(src)[j] in g.edges && (g.edges[g.Slots(src)[j]].dst == dst <==> j == i))
    }

    /** Removes the first relationship stored from src to dst. */
    method RemoveEdge(src: Node, dst: Node) returns (removed: Option<Handle>)
      requires Valid()
      modifies this`graph, buf`deltas
      ensures Valid()
      ensures removed.None? ==> graph == old(graph) && forall h :: h in graph.edges ==> !(graph.edges[h].src == src && graph.edges[h].dst == dst)
      ensures removed.Some? ==> var h := removed.value;
        && h in old(graph).edges && old(graph).edges[h].src == src && old(graph).edges[h].dst == dst
        && graph == old(graph).WithoutEdge(h)
      ensures removed.Some? ==> exists i :: FirstOf(old(graph), src, dst, i) && old(graph).Slots(src)[i] == removed.value
    {
      var slots := graph.Slots(src);
      for i := 0 to |slots|
        invariant graph == old(graph) && Valid()
        invariant forall j :: 0 <= j < i ==> graph.edges[slots[j]].dst != dst
      {
        assert slots[i] in slots;
        if graph.edges[slots[i]].dst == dst {
          assert FirstOf(graph, src, dst, i);
          RemoveEdgeByHandle(src, dst, slots[i]);
          return Some(slots[i]);
        }
      }
      return None;
    }

    method RemoveAllEdgesFrom(n: Node)
      requires Valid()
      modifies this`graph, buf`deltas
      ensures Valid() && graph == old(graph).WithoutOut(n)
    {
      ghost var before := buf.deltas;
      buf.EnqueueSlots(graph, n, graph.Slots(n), -1);
      SoundWithoutOut(graph, nodes, newborn, n);
      forall c { RecountStripped(graph, n, c); }
      StillExact(store.cells, store.dirt, before, buf.marks, graph, buf.deltas, buf.marks, graph.WithoutOut(n));
      graph := graph.WithoutOut(n);
    }

    /** The cell is, or once the buffer commits will be, no longer trusted. */
    ghost predicate Suspect(c: Cell) reads store, buf { store.dirt.Absorb(buf.marks).Has(c) }

    /** More out-edges than a relabel recounts; a budget of 0 or less sets no limit. */
    ghost predicate Over(g: Graph, n: Node) { !(store.budget <= 0 || |g.Slots(n)| <= store.budget) }

    /** The graph has relationships, and the node may have some. */
    ghost predicate Countable(n: Node) reads this { !(graph.edges == map[] || n in newborn) }

    method SetNodeLabel(n: Node, x: Id)
      requires Valid()
      modifies this`graph, buf
      ensures x !in old(graph).Labels(n) && old(Countable(n)) ==>
        forall c :: Suspect(c) <==> old(Suspect(c)) || InSide(x, c) || (Over(old(graph), n) && OutSide(x, c))
      ensures x in old(graph).Labels(n) || !old(Countable(n)) ==> buf.marks == old(buf.marks) && buf.deltas == old(buf.deltas)
      ensures Valid() && graph == if x in old(graph).Labels(n) then old(graph) else old(graph).WithLabel(n, x)
    {
      if x in graph.Labels(n) { return; }
      var counted := graph.edges != map[] && n !in newborn;
      ghost var was := graph;
      graph := graph.WithLabel(n, x);
      assert NoRepeats(was.Labels(n));
      SoundRelabelled(was, nodes, newborn, graph);
      if counted {
        ghost var ds, ms := buf.deltas, buf.marks;
        Relabel(graph, n, x, 1);
        Gained(store.cells, store.dirt, ds, ms, was, n, x, buf.deltas, buf.marks);
      } else {
        forall c { EdgelessLabelled(was, n, x, c); }
        StillExact(store.cells, store.dirt, buf.deltas, buf.marks, was, buf.deltas, buf.marks, graph);
      }
    }

    method RemoveNodeLabel(n: Node, x: Id)
      requires Valid()
      modifies this`graph, buf
      ensures x in old(graph).Labels(n) && old(graph).edges != map[] ==>
        forall c :: Suspect(c) <==> old(Suspect(c)) || InSide(x, c) || (Over(old(graph), n) && OutSide(x, c))
      ensures x !in old(graph).Labels(n) || old(graph).edges == map[] ==> buf.marks == old(buf.marks) && buf.deltas == old(buf.deltas)
      ensures Valid() && graph == if x in old(graph).Labels(n) then old(graph).WithoutLabel(n, x) else old(graph)
    {
      if x !in graph.Labels(n) { return; }
      ghost var ds, ms := buf.deltas, buf.marks;
      ghost var g' := graph.WithoutLabel(n, x);
      assert NoRepeats(graph.Labels(n));
      SoundRelabelled(graph, nodes, newborn, g');
      if graph.edges != map[] {
        Relabel(graph, n, x, -1);
        Lost(store.cells, store.dirt, ds, ms, graph, n, x, buf.deltas, buf.marks);
      } else {
        forall c ensures graph.Counted(c) == {} && g'.Counted(c) == {} { }
        StillExact(store.cells, store.dirt, ds, ms, graph, buf.deltas, buf.marks, g');
      }
      graph := graph.WithoutLabel(n, x);
    }

    /** The node's out-edges are recounted, or past the budget its OUT cells marked; its in-edges
        cannot be listed, so its IN cells always are. */
    method Relabel(g: Graph, n: Node, x: Id, sign: int)
      requires g.Valid() && x in g.Labels(n)
      modifies buf
      ensures Recounted(store.dirt, old(buf.deltas), old(buf.marks), g, n, x, sign, buf.deltas, buf.marks)
      ensures forall c :: Suspect(c) <==> old(Suspect(c)) || InSide(x, c) || (Over(g, n) && OutSide(x, c))
    {
      buf.MarkDirty(DirtyDIn(x));
      buf.MarkDirty(DirtyTB(x));
      InMarks(store.dirt, old(buf.marks), x, buf.marks);
      var slots := g.Slots(n);
      if slots == [] { return; }
      if store.budget > 0 && |slots| > store.budget {
        ghost var ms := buf.marks;
        buf.MarkDirty(DirtyDOut(x));
        buf.MarkDirty(DirtyTA(x));
        OutMarks(store.dirt, ms, x, buf.marks);
        forall c | !InScope(Some(x), c) { OutOfScope(g, slots, x, c); }
        return;
      }
      buf.EnqueueRelabelled(g, n, x, slots, sign);
    }

    /** Deletes a node no relationship touches any more. */
    method RemoveNode(n: Node)
      requires Valid() && graph.Edgeless(n)
      modifies this`graph
      ensures Valid() && graph == old(graph).(dead := old(graph).dead + {n})
    {
      SoundWithoutNode(graph, nodes, newborn, n);
      StillExact(store.cells, store.dirt, buf.deltas, buf.marks, graph, buf.deltas, buf.marks, graph.(dead := graph.dead + {n}));
      graph := graph.(dead := graph.dead + {n});
    }

    /** Publishes the transaction's counts: every cell still trusted then equals a recount. */
    method Commit()
      requires Valid()
      modifies this`base, this`newborn, buf, store`cells, store`dirt
      ensures Valid() && graph == old(graph) && base == graph && buf.deltas == [] && buf.marks == []
      ensures store.dirt == old(store.dirt).Absorb(old(buf.marks))
    {
      buf.Commit(store);
      newborn := {};
      base := graph;
    }

    /** Undone: the graph is the committed one again, and the store was never touched. */
    method Rollback(before: Graph)
      requires Valid() && before == base
      modifies this`graph, this`newborn, buf
      ensures Valid() && graph == base && buf.deltas == [] && buf.marks == []
    {
      buf.Rollback();
      graph, newborn := before, {};
    }
  }

  lemma InMarks(dirt: Dirt, ms: seq<Mark>, x: Id, ms': seq<Mark>)
    requires ms' == ms + [DirtyDIn(x)] + [DirtyTB(x)]
    ensures forall c :: dirt.Absorb(ms').Has(c) <==> dirt.Absorb(ms).Has(c) || InSide(x, c)
  {
    AbsorbPush(dirt, ms, DirtyDIn(x));
    AbsorbPush(dirt, ms + [DirtyDIn(x)], DirtyTB(x));
  }

  lemma OutMarks(dirt: Dirt, ms: seq<Mark>, x: Id, ms': seq<Mark>)
    requires ms' == ms + [DirtyDOut(x)] + [DirtyTA(x)]
    ensures forall c :: dirt.Absorb(ms').Has(c) <==> dirt.Absorb(ms).Has(c) || InScope(Some(x), c)
  {
    AbsorbPush(dirt, ms, DirtyDOut(x));
    AbsorbPush(dirt, ms + [DirtyDOut(x)], DirtyTA(x));
  }

  /** Wherever a cell is still trusted, the deltas added are those of the label's out-edges. */
  ghost predicate Recounted(dirt: Dirt, ds: seq<Delta>, ms: seq<Mark>, g: Graph, n: Node, x: Id, sign: int,
                            ds': seq<Delta>, ms': seq<Mark>)
  {
    forall c :: !dirt.Absorb(ms').Has(c) ==>
      && !dirt.Absorb(ms).Has(c) && !InSide(x, c)
      && Sum(ds', c) == Sum(ds, c) + sign * Tally(g, g.Slots(n), Some(x), c)
  }

  lemma Gained(cells: map<Cell, int>, dirt: Dirt, ds: seq<Delta>, ms: seq<Mark>, g: Graph, n: Node, x: Id,
               ds': seq<Delta>, ms': seq<Mark>)
    requires g.Valid() && g.NoneDangling() && x !in g.Labels(n) && Exact(cells, dirt, ds, ms, g)
    requires Recounted(dirt, ds, ms, g.WithLabel(n, x), n, x, 1, ds', ms')
    ensures Exact(cells, dirt, ds', ms', g.WithLabel(n, x))
  {
    forall c | !dirt.Absorb(ms').Has(c) ensures g.WithLabel(n, x).Recount(c) - g.Recount(c) == Sum(ds', c) - Sum(ds, c) {
      RecountLabelled(g, n, x, c);
    }
    StillExact(cells, dirt, ds, ms, g, ds', ms', g.WithLabel(n, x));
  }

  lemma Lost(cells: map<Cell, int>, dirt: Dirt, ds: seq<Delta>, ms: seq<Mark>, g: Graph, n: Node, x: Id,
             ds': seq<Delta>, ms': seq<Mark>)
    requires g.Valid() && g.NoneDangling() && x in g.Labels(n) && Exact(cells, dirt, ds, ms, g)
    requires Recounted(dirt, ds, ms, g, n, x, -1, ds', ms')
    ensures Exact(cells, dirt, ds', ms', g.WithoutLabel(n, x))
  {
    forall c | !dirt.Absorb(ms').Has(c) ensures g.WithoutLabel(n, x).Recount(c) - g.Recount(c) == Sum(ds', c) - Sum(ds, c) {
      RecountUnlabelled(g, n, x, c);
    }
    StillExact(cells, dirt, ds, ms, g, ds', ms', g.WithoutLabel(n, x));
  }

  lemma EdgelessLabelled(g: Graph, n: Node, x: Id, c: Cell)
    requires g.edges == map[] || g.Edgeless(n)
    ensures g.WithLabel(n, x).Recount(c) == g.Recount(c)
  {
    assert g.WithLabel(n, x).Counted(c) == g.Counted(c);
  }

  lemma {:induction false} OutOfScope(g: Graph, hs: seq<Handle>, x: Id, c: Cell)
    requires !InScope(Some(x), c)
    ensures Tally(g, hs, Some(x), c) == 0
  {
    if hs != [] { OutOfScope(g, hs[..|hs| - 1], x, c); }
  }

  function Gain(hit: bool, sign: int): int { if hit then sign else 0 }

  lemma TallyNext(g: Graph, slots: seq<Handle>, i: nat, scope: Option<Id>, sign: int)
    requires i < |slots| && slots[i] in g.edges
    ensures forall c :: sign * Tally(g, slots[..i + 1], scope, c)
                     == sign * Tally(g, slots[..i], scope, c) + Gain(InScope(scope, c) && g.Hits(g.edges[slots[i]], c), sign)
  {
    assert slots[..i + 1][..i] == slots[..i];
    forall c
      ensures sign * Tally(g, slots[..i + 1], scope, c)
           == sign * Tally(g, slots[..i], scope, c) + Gain(InScope(scope, c) && g.Hits(g.edges[slots[i]], c), sign)
    {
      var hit := InScope(scope, c) && g.Hits(g.edges[slots[i]], c);
      assert Tally(g, slots[..i + 1], scope, c) == Tally(g, slots[..i], scope, c) + if hit then 1 else 0;
      assert sign * (Tally(g, slots[..i], scope, c) + 1) == sign * Tally(g, slots[..i], scope, c) + sign;
    }
  }
}
