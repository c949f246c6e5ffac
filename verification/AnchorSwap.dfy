/** Re-rooting a directed single-edge pattern on its other end: the rows it keeps, and why an admitted
    swap is never slower. */
module AnchorSwap {
  import opened LabelCounts

  type Node = nat
  type Handle = nat

  datatype Option<T> = None | Some(value: T)

  datatype Dir = Incoming | Outgoing | Both

  datatype Edge = Edge(src: Node, dst: Node, rt: string)

  predicate Unique<T(==)>(s: seq<T>) { forall i, j :: 0 <= i < j < |s| ==> s[i] != s[j] }

  /** A labelled multigraph, each node's relationships in the order they are read. */
  datatype Graph = Graph(nodes: seq<Node>, labels: map<Node, set<string>>, edges: map<Handle, Edge>,
                         out: map<Node, seq<Handle>>, back: map<Node, seq<Handle>>)
  {
    ghost predicate Valid() {
      && Unique(nodes)
      && (forall h :: h in edges ==> edges[h].src in nodes && edges[h].dst in nodes)
      && (forall n :: n in nodes ==> n in out && n in back && Unique(out[n]) && Unique(back[n]))
      && (forall n, h :: n in nodes ==> (h in out[n] <==> h in edges && edges[h].src == n))
      && (forall n, h :: n in nodes ==> (h in back[n] <==> h in edges && edges[h].dst == n))
    }

    predicate Has(n: Node, lab: string) { n in labels && lab in labels[n] }

    function WithNode(n: Node, ls: set<string>): Graph {
      Graph(nodes + [n], labels[n := ls], edges, out[n := []], back[n := []])
    }

    function WithEdge(h: Handle, e: Edge): Graph
      requires e.src in out && e.dst in back
    {
      this.(edges := edges[h := e], out := out[e.src := out[e.src] + [h]], back := back[e.dst := back[e.dst] + [h]])
    }
  }

  lemma UniquePush<T>(s: seq<T>, x: T)
    requires Unique(s) && x !in s
    ensures Unique(s + [x])
  {
  }

  /** Any graph built up of new nodes and new relationships between them, parallel ones and loops included, is one
      of those spoken of here. */
  lemma NodeAdded(g: Graph, n: Node, ls: set<string>)
    requires g.Valid() && n !in g.nodes
    ensures Graph([], map[], map[], map[], map[]).Valid() && g.WithNode(n, ls).Valid()
  {
    hide Unique;
    var g' := g.WithNode(n, ls);
    UniquePush(g.nodes, n);
    NothingRepeats<Node>();
    NothingRepeats<Handle>();
    forall m | m in g'.nodes
      ensures m in g'.out && m in g'.back && Unique(g'.out[m]) && Unique(g'.back[m])
      ensures forall h :: h in g'.out[m] <==> h in g.edges && g.edges[h].src == m
      ensures forall h :: h in g'.back[m] <==> h in g.edges && g.edges[h].dst == m
    {
      if m != n { assert m in g.nodes; }
    }
  }

  lemma NothingRepeats<T>()
    ensures Unique<T>([])
  {
  }

  /** A list of the relationships with one end, and the one added. */
  lemma ListPush(edges: map<Handle, Edge>, list: seq<Handle>, end: Edge -> Node, n: Node, h: Handle, e: Edge)
    requires Unique(list) && h !in edges
    requires forall k :: k in list <==> k in edges && end(edges[k]) == n
    ensures var list' := if end(e) == n then list + [h] else list;
      Unique(list') && forall k :: k in list' <==> k in edges[h := e] && end(edges[h := e][k]) == n
  {
    if end(e) == n { UniquePush(list, h); }
  }

  lemma OutAdded(g: Graph, h: Handle, e: Edge, m: Node)
    requires g.Valid() && h !in g.edges && e.src in g.nodes && e.dst in g.nodes && m in g.nodes
    ensures var o := g.WithEdge(h, e).out[m];
      Unique(o) && forall k :: k in o <==> k in g.edges[h := e] && g.edges[h := e][k].src == m
  {
    hide Unique;
    ListPush(g.edges, g.out[m], (x: Edge) => x.src, m, h, e);
  }

  lemma BackAdded(g: Graph, h: Handle, e: Edge, m: Node)
    requires g.Valid() && h !in g.edges && e.src in g.nodes && e.dst in g.nodes && m in g.nodes
    ensures var o := g.WithEdge(h, e).back[m];
      Unique(o) && forall k :: k in o <==> k in g.edges[h := e] && g.edges[h := e][k].dst == m
  {
    hide Unique;
    ListPush(g.edges, g.back[m], (x: Edge) => x.dst, m, h, e);
  }

  lemma EdgeAdded(g: Graph, h: Handle, e: Edge)
    requires g.Valid() && h !in g.edges && e.src in g.nodes && e.dst in g.nodes
    ensures g.WithEdge(h, e).Valid()
  {
    hide Unique;
    forall m | m in g.nodes
      ensures var g' := g.WithEdge(h, e); Unique(g'.out[m]) && Unique(g'.back[m])
      ensures forall k :: k in g.WithEdge(h, e).out[m] <==> k in g.edges[h := e] && g.edges[h := e][k].src == m
      ensures forall k :: k in g.WithEdge(h, e).back[m] <==> k in g.edges[h := e] && g.edges[h := e][k].dst == m
    {
      OutAdded(g, h, e, m);
      BackAdded(g, h, e, m);
    }
  }

  // ------------------------------------------------------------------ plans

  datatype Plan =
    | Scan(v: string, lab: string)
    | Expand(fromVar: string, relVar: string, types: seq<string>, dir: Dir, toVar: string, pathVar: string,
             siblings: seq<string>, input: Plan)
    | HasLabels(v: string, labs: seq<string>, input: Plan)
    | Other(input: Plan)

  /** A matched single-edge pattern. */
  datatype Site = Site(fromVar: string, fromLabel: string, relVar: string, relType: string, dir: Dir,
                       toVar: string, toLabel: string)

  function PlanOf(s: Site): Plan {
    HasLabels(s.toVar, [s.toLabel], Expand(s.fromVar, s.relVar, [s.relType], s.dir, s.toVar, "", [], Scan(s.fromVar, s.fromLabel)))
  }

  /** Matched are the plans of the sites with both ends named, and no others. */
  function MatchAnchorSite(p: Plan): (r: Option<Site>)
    ensures r.Some? ==> PlanOf(r.value) == p && r.value.fromVar != "" && r.value.toVar != ""
    ensures forall s :: PlanOf(s) == p && s.fromVar != "" && s.toVar != "" ==> r == Some(s)
  {
    if !p.HasLabels? || |p.labs| != 1 || !p.input.Expand? then None
    else
      var exp := p.input;
      if exp.toVar != p.v || exp.fromVar == "" || p.v == "" then None
      else if |exp.types| != 1 || exp.pathVar != "" || |exp.siblings| != 0 then None
      else if !exp.input.Scan? || exp.input.v != exp.fromVar then None
      else Some(Site(exp.fromVar, exp.input.lab, exp.relVar, exp.types[0], exp.dir, p.v, p.labs[0]))
  }

  function Reverse(d: Dir): Dir { match d case Incoming => Outgoing case Outgoing => Incoming case Both => Both }

  function Mirror(s: Site): Site { Site(s.toVar, s.toLabel, s.relVar, s.relType, Reverse(s.dir), s.fromVar, s.fromLabel) }

  // ------------------------------------------------------------------ rows

  /** What the two endpoint variables are bound to, and the relationship. */
  type Row = (map<string, Node>, Handle)

  function Bind(s: Site, anchor: Node, other: Node): map<string, Node> { map[s.fromVar := anchor][s.toVar := other] }

  function Far(g: Graph, dir: Dir, h: Handle): Node
    requires h in g.edges
  {
    if dir == Incoming then g.edges[h].src else g.edges[h].dst
  }

  function Near(g: Graph, dir: Dir, h: Handle): Node
    requires h in g.edges
  {
    if dir == Incoming then g.edges[h].dst else g.edges[h].src
  }

  /** A repeated variable must be bound to one node. */
  predicate Matches(g: Graph, s: Site, n: Node, h: Handle)
    requires h in g.edges
  {
    g.edges[h].rt == s.relType && g.Has(Far(g, s.dir, h), s.toLabel) && (s.fromVar == s.toVar ==> Far(g, s.dir, h) == n)
  }

  function Along(g: Graph, s: Site, n: Node, hs: seq<Handle>): seq<Row> {
    if hs == [] then []
    else
      var rest := Along(g, s, n, hs[..|hs| - 1]);
      var h := hs[|hs| - 1];
      if h in g.edges && Matches(g, s, n, h) then rest + [(Bind(s, n, Far(g, s.dir, h)), h)] else rest
  }

  function Adjacent(g: Graph, dir: Dir, n: Node): seq<Handle> {
    if dir == Incoming then (if n in g.back then g.back[n] else []) else (if n in g.out then g.out[n] else [])
  }

  /** The rows a directed plan emits, in order: scan, expand, check the far label. */
  function Rows(g: Graph, s: Site, nodes: seq<Node>): seq<Row> {
    if nodes == [] then []
    else
      var rest := Rows(g, s, nodes[..|nodes| - 1]);
      var n := nodes[|nodes| - 1];
      if g.Has(n, s.fromLabel) then rest + Along(g, s, n, Adjacent(g, s.dir, n)) else rest
  }

  /** The row relationship h gives, when scanned from its near end. */
  predicate Given(g: Graph, s: Site, n: Node, r: Row) {
    r.1 in g.edges && Near(g, s.dir, r.1) == n && Matches(g, s, n, r.1) && r.0 == Bind(s, n, Far(g, s.dir, r.1))
  }

  lemma {:induction false} AlongCount(g: Graph, s: Site, n: Node, hs: seq<Handle>, r: Row)
    requires Unique(hs) && forall i :: 0 <= i < |hs| ==> hs[i] in g.edges && Near(g, s.dir, hs[i]) == n
    ensures multiset(Along(g, s, n, hs))[r] == if r.1 in hs && Given(g, s, n, r) then 1 else 0
  {
    if hs != [] {
      var front, h := hs[..|hs| - 1], hs[|hs| - 1];
      AlongCount(g, s, n, front, r);
      assert hs == front + [h];
      assert h !in front;
    }
  }

  lemma {:induction false} RowsCount(g: Graph, s: Site, nodes: seq<Node>, r: Row)
    requires g.Valid() && s.dir != Both && Unique(nodes) && forall i :: 0 <= i < |nodes| ==> nodes[i] in g.nodes
    ensures multiset(Rows(g, s, nodes))[r] ==
            if r.1 in g.edges && Near(g, s.dir, r.1) in nodes && g.Has(Near(g, s.dir, r.1), s.fromLabel)
               && Given(g, s, Near(g, s.dir, r.1), r) then 1 else 0
  {
    if nodes != [] {
      hide Along, Matches, Bind;
      var front, n := nodes[..|nodes| - 1], nodes[|nodes| - 1];
      RowsCount(g, s, front, r);
      assert nodes == front + [n];
      assert n !in front;
      AlongCount(g, s, n, Adjacent(g, s.dir, n), r);
    }
  }

  lemma MirrorGiven(g: Graph, s: Site, r: Row)
    requires s.dir != Both && r.1 in g.edges
    ensures var a, b := Near(g, s.dir, r.1), Far(g, s.dir, r.1);
      && Near(g, Mirror(s).dir, r.1) == b && Far(g, Mirror(s).dir, r.1) == a
      && (g.Has(a, s.fromLabel) && Given(g, s, a, r) <==> g.Has(b, s.toLabel) && Given(g, Mirror(s), b, r))
  {
    var a, b := Near(g, s.dir, r.1), Far(g, s.dir, r.1);
    if s.fromVar != s.toVar { assert Bind(s, a, b) == Bind(Mirror(s), b, a); }
  }

  /** The mirror of any matched directed site emits the written plan's rows, each as often, on every
      labelled multigraph, self-loops and parallel relationships included. */
  lemma MirrorKeepsRows(g: Graph, p: Plan)
    requires g.Valid() && MatchAnchorSite(p).Some? && MatchAnchorSite(p).value.dir != Both
    ensures var s := MatchAnchorSite(p).value;
      multiset(Rows(g, s, g.nodes)) == multiset(Rows(g, Mirror(s), g.nodes))
  {
    var s := MatchAnchorSite(p).value;
    forall r ensures multiset(Rows(g, s, g.nodes))[r] == multiset(Rows(g, Mirror(s), g.nodes))[r] {
      RowsCount(g, s, g.nodes, r);
      RowsCount(g, Mirror(s), g.nodes, r);
      if r.1 in g.edges { MirrorGiven(g, s, r); }
    }
  }

  /** Mirroring twice is writing the pattern as it was. */
  lemma MirrorTwice(s: Site)
    ensures Mirror(Mirror(s)) == s && MatchAnchorSite(PlanOf(Mirror(s))).Some? == (s.fromVar != "" && s.toVar != "")
  {
  }

  // ------------------------------------------------------------------ cost

  const NodeCost := 100.0
  const EdgeCost := 800.0
  const ProbeCost := 12.0
  const ProbeBase := 4.0
  const SwapMargin := 2.0
  const MaxDepth := 64

  function Pow2(k: nat): nat { if k == 0 then 1 else 2 * Pow2(k - 1) }

  /** The levels of a binary search over d slots, at most 64: the least k with 2^k >= d + 1. */
  function ProbeDepth(d: nat): (k: nat)
    ensures k <= MaxDepth
    ensures k < MaxDepth ==> Pow2(k) >= d + 1
    ensures k > 0 ==> Pow2(k - 1) < d + 1
  {
    LevelsFrom(d, 0)
  }

  function LevelsFrom(d: nat, k: nat): (r: nat)
    requires k <= MaxDepth && (k > 0 ==> Pow2(k - 1) < d + 1)
    ensures k <= r <= MaxDepth
    ensures r < MaxDepth ==> Pow2(r) >= d + 1
    ensures r > 0 ==> Pow2(r - 1) < d + 1
    decreases MaxDepth - k
  {
    if k == MaxDepth || Pow2(k) >= d + 1 then k else LevelsFrom(d, k + 1)
  }

  lemma {:induction false} Pow2Grows(j: nat, k: nat)
    requires j <= k
    ensures Pow2(j) <= Pow2(k)
    decreases k
  {
    if j < k { Pow2Grows(j, k - 1); }
  }

  /** Each level halves what is left to search: none for no slot, one more than for half of them, 64 at most. */
  lemma ProbeDepthHalves(d: nat)
    ensures ProbeDepth(d) ==
      if d == 0 then 0 else if ProbeDepth(d / 2) == MaxDepth then MaxDepth else ProbeDepth(d / 2) + 1
  {
    hide ProbeDepth, Pow2;
    var r, k := ProbeDepth(d), ProbeDepth(d / 2);
    Pow2Starts();
    if d == 0 {
      if r > 0 { Pow2Grows(0, r - 1); }
    } else if k == MaxDepth {
      if r < MaxDepth { Pow2Grows(r, MaxDepth - 1); }
    } else {
      Pow2Doubles(k);
      if k > 0 { Pow2Doubles(k - 1); }
      if r <= k { Pow2Grows(r, k); } else if r > k + 1 { Pow2Grows(k + 1, r - 1); }
    }
  }

  lemma Pow2Starts()
    ensures Pow2(0) == 1
  {
  }

  lemma Pow2Doubles(k: nat)
    ensures Pow2(k + 1) == 2 * Pow2(k)
  {
  }

  /** The four counts the gate reads: the labels' nodes, and the degrees on the written and mirrored side. */
  datatype Inputs = Inputs(nFrom: Estimate, nTo: Estimate, dFrom: Estimate, dTo: Estimate)
  {
    predicate Trusted() { nFrom.Trusted() && nTo.Trusted() && dFrom.Trusted() && dTo.Trusted() }
  }

  function Linear(n: real, d: real, perEdge: real): real { NodeCost * n + perEdge * d }

  function Written(i: Inputs): real { Linear(i.nFrom.rows, i.dFrom.rows, EdgeCost) }

  /** The candidate's modelled cost; only a written outgoing site gives a candidate that probes. */
  function Candidate(dir: Dir, i: Inputs, depth: real): real {
    Linear(i.nTo.rows, i.dTo.rows, if dir == Incoming then EdgeCost else EdgeCost + ProbeBase + ProbeCost * depth)
  }

  predicate Admits(dir: Dir, i: Inputs, depth: real) {
    && dir != Both && i.Trusted()
    && Candidate(dir, i, depth) * SwapMargin <= Written(i) && Candidate(dir, i, depth) < Written(i)
  }

  /** What the probes of the relationships walked backwards really cost, given the depth of each. */
  function Probes(depths: seq<nat>): real {
    if depths == [] then 0.0 else Probes(depths[..|depths| - 1]) + ProbeBase + ProbeCost * depths[|depths| - 1] as real
  }

  /** One probe costs less than one relationship examined, however deep: the structural bound. */
  lemma {:induction false} ProbesBounded(depths: seq<nat>)
    requires forall i :: 0 <= i < |depths| ==> depths[i] <= MaxDepth
    ensures 0.0 <= Probes(depths) <= (ProbeBase + ProbeCost * MaxDepth as real) * |depths| as real
    ensures ProbeBase + ProbeCost * MaxDepth as real < EdgeCost
  {
    if depths != [] {
      ProbesBounded(depths[..|depths| - 1]);
      assert depths[|depths| - 1] as real <= MaxDepth as real;
    }
  }

  /** The true cost of an order: its nodes scanned, its relationships examined, and, walked backwards,
      each probed. */
  function TrueCost(nodes: nat, degree: nat, backwards: bool, depths: seq<nat>): real {
    Linear(nodes as real, degree as real, EdgeCost) + if backwards then Probes(depths) else 0.0
  }

  /** What the gate is told when both labels are counted at one reading, and the degrees exactly: a label
      never interned is carried by no node, so by no relationship's end. */
  predicate Told(i: Inputs, rd: Reading, from: string, to: string, nFrom: nat, nTo: nat, dFrom: nat, dTo: nat) {
    && rd.AllowsBoth(from, nFrom, to, nTo)
    && i.nFrom == rd.PlanCount(from, nFrom) && i.nTo == rd.PlanCount(to, nTo)
    && i.dFrom.rows == dFrom as real && i.dTo.rows == dTo as real
    && (from !in rd.known ==> dFrom == 0) && (to !in rd.known ==> dTo == 0)
  }

  /** The mirrored order's true cost is no more than the written one's. */
  predicate NotSlower(dir: Dir, nFrom: nat, nTo: nat, dFrom: nat, dTo: nat, fromDepths: seq<nat>, toDepths: seq<nat>) {
    TrueCost(nTo, dTo, dir == Outgoing, toDepths) <= TrueCost(nFrom, dFrom, dir == Incoming, fromDepths)
  }

  predicate Depths(depths: seq<nat>, degree: nat) {
    |depths| == degree && forall k :: 0 <= k < |depths| ==> depths[k] <= MaxDepth
  }

  /** An admitted swap is never slower when both labels were counted at one reading, exactly or by their
      bounds, whatever the depth estimate says: the churn of two bounds is the same, and the margin absorbs
      it with any probe a 64-level search can make. */
  lemma NeverSlower(dir: Dir, i: Inputs, depth: real, rd: Reading, from: string, to: string,
                    nFrom: nat, nTo: nat, dFrom: nat, dTo: nat, fromDepths: seq<nat>, toDepths: seq<nat>)
    requires Admits(dir, i, depth) && depth >= 0.0 && Told(i, rd, from, to, nFrom, nTo, dFrom, dTo)
    requires Depths(fromDepths, dFrom) && Depths(toDepths, dTo)
    ensures NotSlower(dir, nFrom, nTo, dFrom, dTo, fromDepths, toDepths)
  {
    ProbesBounded(fromDepths);
    rd.NeverUnder(from, nFrom);
    rd.NeverUnder(to, nTo);
    AdmittedMargin(dir, i, depth);
    WithinTwice(nTo, dTo, toDepths, dir == Outgoing);
    if rd.Bounds(from) && to in rd.known { ChurnCancels(rd, from, to, nFrom, nTo); }
  }

  lemma AdmittedMargin(dir: Dir, i: Inputs, depth: real)
    requires Admits(dir, i, depth) && depth >= 0.0 && i.dTo.rows >= 0.0
    ensures 2.0 * NodeCost * i.nTo.rows + 2.0 * EdgeCost * i.dTo.rows <= NodeCost * i.nFrom.rows + EdgeCost * i.dFrom.rows
  {
    if dir == Outgoing { DepthOnlyAdds(depth, i.dTo.rows); }
    assert Candidate(dir, i, depth) >= NodeCost * i.nTo.rows + EdgeCost * i.dTo.rows;
  }

  lemma WithinTwice(n: nat, d: nat, depths: seq<nat>, backwards: bool)
    requires Depths(depths, d)
    ensures TrueCost(n, d, backwards, depths) <= NodeCost * n as real + 2.0 * EdgeCost * d as real
  {
    ProbesBounded(depths);
  }

  /** Two bounds of one reading: what the written side's overstates and the mirrored side's leaves out is
      within the churn they share. */
  lemma ChurnCancels(rd: Reading, from: string, to: string, nFrom: nat, nTo: nat)
    requires rd.AllowsBoth(from, nFrom, to, nTo) && rd.Bounds(from) && to in rd.known
    ensures rd.Raw(from) + nTo <= nFrom + 2 * rd.Raw(to) + rd.churn
  {
  }

  lemma DepthOnlyAdds(depth: real, d: real)
    requires depth >= 0.0 && d >= 0.0
    ensures (EdgeCost + ProbeBase + ProbeCost * depth) * d >= EdgeCost * d
  {
    assert (EdgeCost + ProbeBase + ProbeCost * depth) * d == EdgeCost * d + ProbeBase * d + ProbeCost * (depth * d);
    assert depth * d >= 0.0;
  }

  // ------------------------------------------------------------------ counts read apart

  lemma {:induction false} ProbesAlike(depth: nat, d: nat)
    ensures Probes(seq(d, _ => depth)) == (ProbeBase + ProbeCost * depth as real) * d as real
  {
    if d > 0 {
      ProbesAlike(depth, d - 1);
      assert seq(d, _ => depth)[..d - 1] == seq(d - 1, _ => depth);
    }
  }

  lemma {:induction false} ProbesAtLeast(depths: seq<nat>)
    ensures Probes(depths) >= ProbeBase * |depths| as real
  {
    if depths != [] { ProbesAtLeast(depths[..|depths| - 1]); }
  }

  /** Never slower, whatever counts the two ranges and whatever depths a search allow. */
  ghost predicate NeverSlowerIn(dir: Dir, least: nat, most: nat, low: nat, high: nat, dFrom: nat, dTo: nat) {
    forall nFrom: nat, nTo: nat, fromDepths: seq<nat>, toDepths: seq<nat> ::
      least <= nFrom <= most && low <= nTo <= high && Depths(fromDepths, dFrom) && Depths(toDepths, dTo) ==>
        NotSlower(dir, nFrom, nTo, dFrom, dTo, fromDepths, toDepths)
  }

  /** The fewest written and the most mirrored nodes, the deepest mirrored and the shallowest written probes. */
  predicate WorstCase(dir: Dir, least: nat, high: nat, dFrom: nat, dTo: nat) {
    Linear(high as real, dTo as real, EdgeCost + if dir == Outgoing then ProbeBase + ProbeCost * MaxDepth as real else 0.0) <=
    Linear(least as real, dFrom as real, EdgeCost + if dir == Incoming then ProbeBase else 0.0)
  }

  /** Counts read at two moments: the swap is never slower, for every pair of counts the two estimates leave
      open, if and only if it is not in the worst case of them. */
  lemma NeverSlowerIff(dir: Dir, least: nat, most: nat, low: nat, high: nat, dFrom: nat, dTo: nat)
    requires least <= most && low <= high
    ensures NeverSlowerIn(dir, least, most, low, high, dFrom, dTo) <==> WorstCase(dir, least, high, dFrom, dTo)
  {
    if NeverSlowerIn(dir, least, most, low, high, dFrom, dTo) {
      WorstIsMet(dir, least, high, dFrom, dTo, seq(dFrom, _ => 0), seq(dTo, _ => MaxDepth));
    }
    if WorstCase(dir, least, high, dFrom, dTo) {
      forall nFrom: nat, nTo: nat, fromDepths: seq<nat>, toDepths: seq<nat>
        | least <= nFrom <= most && low <= nTo <= high && Depths(fromDepths, dFrom) && Depths(toDepths, dTo)
        ensures NotSlower(dir, nFrom, nTo, dFrom, dTo, fromDepths, toDepths)
      {
        WorstIsWorst(dir, least, high, nFrom, nTo, dFrom, dTo, fromDepths, toDepths);
      }
    }
  }

  lemma WorstIsMet(dir: Dir, least: nat, high: nat, dFrom: nat, dTo: nat, shallow: seq<nat>, deep: seq<nat>)
    requires shallow == seq(dFrom, _ => 0) && deep == seq(dTo, _ => MaxDepth)
    requires NotSlower(dir, least, high, dFrom, dTo, shallow, deep)
    ensures WorstCase(dir, least, high, dFrom, dTo)
  {
    ProbesAlike(0, dFrom);
    ProbesAlike(MaxDepth, dTo);
  }

  lemma WorstIsWorst(dir: Dir, least: nat, high: nat, nFrom: nat, nTo: nat, dFrom: nat, dTo: nat,
                     fromDepths: seq<nat>, toDepths: seq<nat>)
    requires WorstCase(dir, least, high, dFrom, dTo) && least <= nFrom && nTo <= high
    requires Depths(fromDepths, dFrom) && Depths(toDepths, dTo)
    ensures NotSlower(dir, nFrom, nTo, dFrom, dTo, fromDepths, toDepths)
  {
    ProbesAtLeast(fromDepths);
    ProbesBounded(toDepths);
  }

  /** The reclaimer runs between the two counts: the written label is bounded while 5000 records are live, at
      10 of them, the mirrored one counted exactly after, at 100. Admitted, and slower. */
  lemma BoundMisleads()
    ensures var before := Reading({"A", "B"}, true, map["A" := 10, "B" := 100], 5000);
      var after := Reading({"A", "B"}, false, map["A" := 10, "B" := 100], 0);
      var i := Inputs(before.PlanCount("A", 10), after.PlanCount("B", 100), Estimate(0.0, EstExact), Estimate(0.0, EstExact));
      && before.Allows("A", 10) && after.Allows("B", 100) && Admits(Incoming, i, 0.0)
      && TrueCost(100, 0, false, []) > TrueCost(10, 0, true, [])
      && !WorstCase(Incoming, before.Least("A", 10), after.Most("B", 100), 0, 0)
  {
  }

  /** The sites to re-root: the directed ones whose inputs are all trusted and that win by the margin. */
  method ComputeAnchorSwaps(sites: seq<Site>, inputs: seq<Inputs>) returns (swaps: set<nat>)
    requires |sites| == |inputs|
    requires forall k :: 0 <= k < |inputs| ==> inputs[k].dFrom.rows.Floor >= 0
    ensures forall k :: k in swaps <==> 0 <= k < |sites| && Admits(sites[k].dir, inputs[k], DepthFor(sites[k], inputs[k]))
  {
    swaps := {};
    for k := 0 to |sites|
      invariant forall j :: j in swaps <==> 0 <= j < k && Admits(sites[j].dir, inputs[j], DepthFor(sites[j], inputs[j]))
    {
      var wins := Gate(sites[k], inputs[k]);
      if wins { swaps := swaps + {k}; }
    }
  }

  /** The gate of one site: an undirected one, or an untrusted input, keeps the written order. */
  method Gate(s: Site, i: Inputs) returns (wins: bool)
    requires i.dFrom.rows.Floor >= 0
    ensures wins <==> Admits(s.dir, i, DepthFor(s, i))
  {
    if !i.Trusted() || s.dir == Both { return false; }
    var perEdge := EdgeCost;
    if s.dir == Outgoing { perEdge := EdgeCost + ProbeBase + ProbeCost * ProbeDepth(i.dFrom.rows.Floor) as real; }
    var written, candidate := Linear(i.nFrom.rows, i.dFrom.rows, EdgeCost), Linear(i.nTo.rows, i.dTo.rows, perEdge);
    wins := candidate * SwapMargin <= written && candidate < written;
  }

  function DepthFor(s: Site, i: Inputs): real
    requires i.dFrom.rows.Floor >= 0
  {
    if s.dir == Outgoing then ProbeDepth(i.dFrom.rows.Floor) as real else 0.0
  }
}
