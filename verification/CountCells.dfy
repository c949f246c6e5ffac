/** The relationship counts: what each cell counts, and how each change of the graph moves it. */
module CountCells {

  type Node = nat
  type Handle = nat
  /** A label or a relationship type: both are interned in one registry. */
  type Id = nat

  datatype Option<T> = None | Some(value: T)

  datatype Dir = Out | In

  datatype Cell =
    | E(rt: Id)                        // relationships of a type
    | D(lab: Id, rt: Id, dir: Dir)   // ends of that type, in that direction, on nodes with the label
    | T(a: Id, rt: Id, b: Id)          // relationships of that type between the two labels

  datatype Edge = Edge(src: Node, dst: Node, rt: Option<Id>)

  predicate NoRepeats<X(==)>(s: seq<X>) { forall i, j :: 0 <= i < j < |s| ==> s[i] != s[j] }

  /** What the cell counts of a relationship of type rt between nodes labelled so. */
  predicate HitBy(rt: Id, srcLabels: seq<Id>, dstLabels: seq<Id>, c: Cell) {
    match c
    case E(t) => t == rt
    case D(l, t, Out) => t == rt && l in srcLabels
    case D(l, t, In) => t == rt && l in dstLabels
    case T(a, t, b) => t == rt && a in srcLabels && b in dstLabels
  }

  datatype Graph = Graph(labels: map<Node, seq<Id>>, edges: map<Handle, Edge>, out: map<Node, seq<Handle>>, dead: set<Node>)
  {
    function Labels(n: Node): seq<Id> { if n in labels then labels[n] else [] }

    function Slots(n: Node): seq<Handle> { if n in out then out[n] else [] }

    ghost predicate Valid() {
      && (forall n :: n in labels ==> NoRepeats(labels[n]))
      && (forall n :: n in out ==> NoRepeats(out[n]))
      && (forall n, h :: h in Slots(n) <==> h in edges && edges[h].src == n)
    }

    predicate Alive(e: Edge) { e.src !in dead && e.dst !in dead }

    /** No relationship touches a deleted node: DETACH removes them first. */
    ghost predicate NoneDangling() { forall h :: h in edges ==> Alive(edges[h]) }

    predicate Hits(e: Edge, c: Cell) { e.rt.Some? && HitBy(e.rt.value, Labels(e.src), Labels(e.dst), c) }

    /** The ground truth: how many live relationships the cell counts. */
    function Recount(c: Cell): nat { |Counted(c)| }

    function Counted(c: Cell): set<Handle> { set h | h in edges && Alive(edges[h]) && Hits(edges[h], c) }

    ghost predicate Edgeless(n: Node) { forall h :: h in edges ==> edges[h].src != n && edges[h].dst != n }

    // ---------------------------------------------------------------- changes

    function WithEdge(h: Handle, src: Node, dst: Node): Graph {
      this.(edges := edges[h := Edge(src, dst, None)], out := out[src := Slots(src) + [h]])
    }

    function WithType(h: Handle, rt: Id): Graph
      requires h in edges
    {
      this.(edges := edges[h := edges[h].(rt := Some(rt))])
    }

    function WithoutEdge(h: Handle): Graph
      requires h in edges
    {
      this.(edges := edges - {h}, out := out[edges[h].src := Dropped(Slots(edges[h].src), h)])
    }

    function WithoutOut(n: Node): Graph {
      this.(edges := map h | h in edges && edges[h].src != n :: edges[h], out := out[n := []])
    }

    function WithLabel(n: Node, x: Id): Graph { this.(labels := labels[n := Labels(n) + [x]]) }

    function WithoutLabel(n: Node, x: Id): Graph { this.(labels := labels[n := Dropped(Labels(n), x)]) }
  }

  function Dropped<X(==,!new)>(s: seq<X>, x: X): (r: seq<X>)
    ensures forall y :: y in r <==> y in s && y != x
    ensures NoRepeats(s) ==> NoRepeats(r)
  {
    if s == [] then []
    else if s[0] == x then Dropped(s[1..], x)
    else
      var rest := Dropped(s[1..], x);
      assert NoRepeats(s) ==> NoRepeats(s[1..]) && s[0] !in s[1..];
      [s[0]] + rest
  }

  // ------------------------------------------------------------------ recounts

  lemma OneMore<X>(all: set<X>, rest: set<X>, x: X, more: bool)
    requires forall y :: y in all <==> y in rest || (more && y == x)
    requires x !in rest
    ensures |all| == |rest| + if more then 1 else 0
  {
    assert all == rest + if more then {x} else {};
  }

  lemma Parts<X>(all: set<X>, a: set<X>, b: set<X>)
    requires forall y :: y in all <==> y in a || y in b
    requires a !! b
    ensures |all| == |a| + |b|
  {
    assert all == a + b;
  }

  lemma RecountTyped(g: Graph, h: Handle, rt: Id, c: Cell)
    requires g.NoneDangling() && h in g.edges && g.edges[h].rt.None?
    ensures g.WithType(h, rt).Recount(c) == g.Recount(c) + if g.WithType(h, rt).Hits(g.WithType(h, rt).edges[h], c) then 1 else 0
  {
    hide HitBy;
    var g' := g.WithType(h, rt);
    OneMore(g'.Counted(c), g.Counted(c), h, g'.Hits(g'.edges[h], c));
  }

  lemma RecountAdded(g: Graph, h: Handle, src: Node, dst: Node, c: Cell)
    requires h !in g.edges
    ensures g.WithEdge(h, src, dst).Recount(c) == g.Recount(c)
  {
    assert g.WithEdge(h, src, dst).Counted(c) == g.Counted(c);
  }

  lemma RecountRemoved(g: Graph, h: Handle, c: Cell)
    requires g.NoneDangling() && h in g.edges
    ensures g.WithoutEdge(h).Recount(c) == g.Recount(c) - if g.Hits(g.edges[h], c) then 1 else 0
  {
    hide HitBy;
    OneMore(g.Counted(c), g.WithoutEdge(h).Counted(c), h, g.Hits(g.edges[h], c));
  }

  /** The cells on the label's OUT side, which a relabel can adjust from the node's out-edges. */
  predicate OutSide(x: Id, c: Cell) { (c.D? && c.dir == Out && c.lab == x) || (c.T? && c.a == x) }

  /** The cells on the label's OUT side, or every cell. */
  predicate InScope(scope: Option<Id>, c: Cell) { scope.None? || OutSide(scope.value, c) }

  /** How many of the handles the cell counts, within the scope. */
  function Tally(g: Graph, hs: seq<Handle>, scope: Option<Id>, c: Cell): nat {
    if hs == [] then 0
    else
      var last := |hs| - 1;
      Tally(g, hs[..last], scope, c) + if hs[last] in g.edges && InScope(scope, c) && g.Hits(g.edges[hs[last]], c) then 1 else 0
  }

  function Tallied(g: Graph, hs: seq<Handle>, scope: Option<Id>, c: Cell): set<Handle> {
    set h | h in hs && h in g.edges && InScope(scope, c) && g.Hits(g.edges[h], c)
  }

  lemma {:induction false} TallyIsSize(g: Graph, hs: seq<Handle>, scope: Option<Id>, c: Cell)
    requires NoRepeats(hs)
    ensures Tally(g, hs, scope, c) == |Tallied(g, hs, scope, c)|
  {
    if hs != [] {
      var front, h := hs[..|hs| - 1], hs[|hs| - 1];
      TallyIsSize(g, front, scope, c);
      TalliedPush(g, front, h, scope, c);
      assert hs == front + [h];
    }
  }

  lemma TalliedPush(g: Graph, hs: seq<Handle>, h: Handle, scope: Option<Id>, c: Cell)
    requires h !in hs
    ensures |Tallied(g, hs + [h], scope, c)| == |Tallied(g, hs, scope, c)|
          + if h in g.edges && InScope(scope, c) && g.Hits(g.edges[h], c) then 1 else 0
  {
    var one: set<Handle> := if h in g.edges && InScope(scope, c) && g.Hits(g.edges[h], c) then {h} else {};
    assert Tallied(g, hs + [h], scope, c) == Tallied(g, hs, scope, c) + one;
  }

  lemma RecountStripped(g: Graph, n: Node, c: Cell)
    requires g.Valid() && g.NoneDangling()
    ensures g.WithoutOut(n).Recount(c) == g.Recount(c) - Tally(g, g.Slots(n), None, c)
  {
    TallyIsSize(g, g.Slots(n), None, c);
    var gone, rest := Tallied(g, g.Slots(n), None, c), g.WithoutOut(n).Counted(c);
    hide HitBy;
    forall h | h in g.edges ensures h in g.Slots(n) <==> g.edges[h].src == n {}
    Parts(g.Counted(c), rest, gone);
  }

  /** The cells a relabel cannot adjust without the node's in-edges: its own on the IN side. */
  predicate InSide(x: Id, c: Cell) { (c.D? && c.dir == In && c.lab == x) || (c.T? && c.b == x) }

  /** Gaining a label moves exactly the cells scoped to it, by the node's out-edges, but for those on
      the IN side. Parallel edges count one by one, and a self-loop's far label is read with the new
      label already there. */
  lemma RecountLabelled(g: Graph, n: Node, x: Id, c: Cell)
    requires g.Valid() && g.NoneDangling() && x !in g.Labels(n) && !InSide(x, c)
    ensures g.WithLabel(n, x).Recount(c) == g.Recount(c) + Tally(g.WithLabel(n, x), g.Slots(n), Some(x), c)
  {
    var g' := g.WithLabel(n, x);
    assert g'.Slots(n) == g.Slots(n) && g'.edges == g.edges;
    TallyIsSize(g', g.Slots(n), Some(x), c);
    var gained := Tallied(g', g.Slots(n), Some(x), c);
    hide Graph.Hits;
    forall h | h in g.edges
      ensures h in g'.Counted(c) <==> h in g.Counted(c) || h in gained
      ensures !(h in g.Counted(c) && h in gained)
    {
      RelabelledHit(g, n, x, g.edges[h], c);
    }
    Parts(g'.Counted(c), g.Counted(c), gained);
  }

  lemma RelabelledHit(g: Graph, n: Node, x: Id, e: Edge, c: Cell)
    requires x !in g.Labels(n) && !InSide(x, c)
    ensures var g' := g.WithLabel(n, x);
      && (g'.Hits(e, c) <==> g.Hits(e, c) || (e.src == n && InScope(Some(x), c) && g'.Hits(e, c)))
      && !(g.Hits(e, c) && e.src == n && InScope(Some(x), c))
  {
    var g' := g.WithLabel(n, x);
    assert forall m, l :: l in g'.Labels(m) <==> l in g.Labels(m) || (m == n && l == x);
  }

  /** Losing the label undoes gaining it. */
  lemma RecountUnlabelled(g: Graph, n: Node, x: Id, c: Cell)
    requires g.Valid() && g.NoneDangling() && x in g.Labels(n) && !InSide(x, c)
    ensures g.WithoutLabel(n, x).Recount(c) == g.Recount(c) - Tally(g, g.Slots(n), Some(x), c)
  {
    var g' := g.WithoutLabel(n, x);
    var back := g'.WithLabel(n, x);
    assert NoRepeats(g.Labels(n)) && NoRepeats(g'.Labels(n));
    assert forall m :: g'.Slots(m) == g.Slots(m);
    RecountLabelled(g', n, x, c);
    SameLabels(g, back, c);
    SameTally(g, back, g.Slots(n), Some(x), c);
  }

  predicate LabelledAlike(g: Graph, g': Graph) {
    g.edges == g'.edges && g.out == g'.out && g.dead == g'.dead
  }

  lemma SameLabels(g: Graph, g': Graph, c: Cell)
    requires LabelledAlike(g, g')
    requires forall m, l :: l in g'.Labels(m) <==> l in g.Labels(m)
    ensures g.Recount(c) == g'.Recount(c)
  {
    forall h | h in g.edges ensures g.Hits(g.edges[h], c) == g'.Hits(g.edges[h], c) { }
    assert g.Counted(c) == g'.Counted(c);
  }

  lemma {:induction false} SameTally(g: Graph, g': Graph, hs: seq<Handle>, scope: Option<Id>, c: Cell)
    requires LabelledAlike(g, g')
    requires forall m, l :: l in g'.Labels(m) <==> l in g.Labels(m)
    ensures Tally(g, hs, scope, c) == Tally(g', hs, scope, c)
  {
    if hs != [] { SameTally(g, g', hs[..|hs| - 1], scope, c); }
  }

  // ------------------------------------------------------------------ deltas and dirty marks

  datatype Delta = Delta(cell: Cell, step: int)

  /** What the deltas add to the cell. */
  function Sum(ds: seq<Delta>, c: Cell): int {
    if ds == [] then 0
    else Sum(ds[..|ds| - 1], c) + if ds[|ds| - 1].cell == c then ds[|ds| - 1].step else 0
  }

  lemma SumPush(ds: seq<Delta>, d: Delta)
    ensures forall c :: Sum(ds + [d], c) == Sum(ds, c) + if d.cell == c then d.step else 0
  {
    assert (ds + [d])[..|ds|] == ds;
  }

  datatype Mark = DirtyDOut(lab: Id) | DirtyDIn(lab: Id) | DirtyTA(lab: Id) | DirtyTB(lab: Id)

  /** The families of cells no longer trusted. */
  datatype Dirt = Dirt(dOut: set<Id>, dIn: set<Id>, tA: set<Id>, tB: set<Id>)
  {
    predicate Has(c: Cell) {
      match c
      case E(_) => false
      case D(l, _, Out) => l in dOut
      case D(l, _, In) => l in dIn
      case T(a, _, b) => a in tA || b in tB
    }

    function With(m: Mark): Dirt {
      match m
      case DirtyDOut(l) => this.(dOut := dOut + {l})
      case DirtyDIn(l) => this.(dIn := dIn + {l})
      case DirtyTA(l) => this.(tA := tA + {l})
      case DirtyTB(l) => this.(tB := tB + {l})
    }

    function Absorb(ms: seq<Mark>): Dirt { if ms == [] then this else Absorb(ms[..|ms| - 1]).With(ms[|ms| - 1]) }
  }

  lemma AbsorbPush(d: Dirt, ms: seq<Mark>, m: Mark)
    ensures d.Absorb(ms + [m]) == d.Absorb(ms).With(m)
  {
    assert (ms + [m])[..|ms|] == ms;
  }

  function Value(cells: map<Cell, int>, c: Cell): int { if c in cells then cells[c] else 0 }

  /** Every cell not dirty, with the deltas and marks still pending, equals a recount. */
  ghost predicate Exact(cells: map<Cell, int>, dirt: Dirt, ds: seq<Delta>, ms: seq<Mark>, g: Graph) {
    forall c :: !dirt.Absorb(ms).Has(c) ==> Value(cells, c) + Sum(ds, c) == g.Recount(c)
  }

  /** Exactness survives a change whose recount moves by what the new deltas add, wherever the new
      marks leave a cell trusted. */
  lemma StillExact(cells: map<Cell, int>, dirt: Dirt, ds: seq<Delta>, ms: seq<Mark>, g: Graph,
                   ds': seq<Delta>, ms': seq<Mark>, g': Graph)
    requires Exact(cells, dirt, ds, ms, g)
    requires forall c :: !dirt.Absorb(ms').Has(c) ==> !dirt.Absorb(ms).Has(c)
    requires forall c :: !dirt.Absorb(ms').Has(c) ==> g'.Recount(c) - g.Recount(c) == Sum(ds', c) - Sum(ds, c)
    ensures Exact(cells, dirt, ds', ms', g')
  {
  }

  // ------------------------------------------------------------------ well-formed graphs

  /** A graph over the nodes given, whose relationships all live; none touches a newborn node. */
  ghost predicate Sound(g: Graph, nodes: set<Node>, newborn: set<Node>) {
    && g.Valid() && g.NoneDangling()
    && (forall h :: h in g.edges ==> g.edges[h].src in nodes && g.edges[h].dst in nodes)
    && (forall n :: n in newborn ==> g.Edgeless(n))
  }

  lemma SoundWithEdge(g: Graph, nodes: set<Node>, newborn: set<Node>, h: Handle, src: Node, dst: Node)
    requires Sound(g, nodes, newborn) && h !in g.edges && {src, dst} <= nodes && src !in g.dead && dst !in g.dead
    ensures Sound(g.WithEdge(h, src, dst), nodes, newborn - {src, dst})
  {
    var g' := g.WithEdge(h, src, dst);
    assert NoRepeats(g.Slots(src));
    forall n, k ensures k in g'.Slots(n) <==> k in g'.edges && g'.edges[k].src == n {
      assert k in g.Slots(n) <==> k in g.edges && g.edges[k].src == n;
    }
  }

  lemma SoundWithType(g: Graph, nodes: set<Node>, newborn: set<Node>, h: Handle, rt: Id)
    requires Sound(g, nodes, newborn) && h in g.edges
    ensures Sound(g.WithType(h, rt), nodes, newborn)
  {
    var g' := g.WithType(h, rt);
    assert forall n :: g'.Slots(n) == g.Slots(n);
    assert forall k :: k in g'.edges ==> k in g.edges && g'.edges[k].src == g.edges[k].src && g'.edges[k].dst == g.edges[k].dst;
  }

  lemma SoundWithoutEdge(g: Graph, nodes: set<Node>, newborn: set<Node>, h: Handle)
    requires Sound(g, nodes, newborn) && h in g.edges
    ensures Sound(g.WithoutEdge(h), nodes, newborn)
  {
    var g' := g.WithoutEdge(h);
    assert NoRepeats(g.Slots(g.edges[h].src));
    forall n, k ensures k in g'.Slots(n) <==> k in g'.edges && g'.edges[k].src == n {
      assert k in g.Slots(n) <==> k in g.edges && g.edges[k].src == n;
    }
  }

  lemma SoundWithoutOut(g: Graph, nodes: set<Node>, newborn: set<Node>, n: Node)
    requires Sound(g, nodes, newborn)
    ensures Sound(g.WithoutOut(n), nodes, newborn)
  {
    var g' := g.WithoutOut(n);
    forall m, k ensures k in g'.Slots(m) <==> k in g'.edges && g'.edges[k].src == m {
      assert k in g.Slots(m) <==> k in g.edges && g.edges[k].src == m;
    }
  }

  lemma SoundRelabelled(g: Graph, nodes: set<Node>, newborn: set<Node>, g': Graph)
    requires Sound(g, nodes, newborn) && LabelledAlike(g, g')
    requires forall n :: n in g'.labels ==> NoRepeats(g'.labels[n])
    ensures Sound(g', nodes, newborn)
  {
    assert forall n :: g'.Slots(n) == g.Slots(n);
  }

  lemma SoundWithoutNode(g: Graph, nodes: set<Node>, newborn: set<Node>, n: Node)
    requires Sound(g, nodes, newborn) && g.Edgeless(n)
    ensures Sound(g.(dead := g.dead + {n}), nodes, newborn)
    ensures forall c :: g.(dead := g.dead + {n}).Recount(c) == g.Recount(c)
  {
    var g' := g.(dead := g.dead + {n});
    assert forall m :: g'.Slots(m) == g.Slots(m);
    forall c ensures g'.Recount(c) == g.Recount(c) { assert g'.Counted(c) == g.Counted(c); }
  }
}
