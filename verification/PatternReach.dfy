/** The reachability fast path of a variable-length hop: a node-visited breadth-first search, proved
    to decide the relationship-distinct question for every end node but the start, and for the start
    too when the hop is directed. */
module PatternReach {
  import opened PatternGraph

  /** The invariant part of one variable-length hop's search. */
  datatype Search = Search(s: Step, row: Row, lo: nat, hi: nat, dir: Dir,
                           target: Node, targetBound: bool, swapped: bool, onlyStart: bool, start: Node)
  {
    /** Whether the hop may end on id: a function of the node alone. */
    predicate Accepts(id: Node) {
      if onlyStart && id != start then false
      else if swapped then id == target
      else if targetBound then id == target && id in s.ends
      else s.Accepts(row, id)
    }
  }

  // ------------------------------------------------------------------ one step outwards

  function OutNext(g: Graph, s: Step, cur: Node): set<Node> {
    set r | r in g.Rels() && r.src == cur && Qualifies(g, s, r) :: g.At(r).dst
  }

  function InNext(g: Graph, s: Step, cur: Node): set<Node> {
    set r | r in g.Rels() && g.At(r).dst == cur && Qualifies(g, s, r) :: r.src
  }

  function Next(g: Graph, s: Step, dir: Dir, cur: Node): set<Node> {
    match dir
    case Out => OutNext(g, s, cur)
    case In => InNext(g, s, cur)
    case Both => OutNext(g, s, cur) + InNext(g, s, cur)
  }

  lemma CrossedIsNext(g: Graph, s: Step, dir: Dir, cur: Node, c: Crossing)
    requires CanCross(g, s, dir, cur, c)
    ensures c.To() in Next(g, s, dir, cur)
  {
    assert c.rel in g.Rels();
  }

  lemma NextIsCrossed(g: Graph, s: Step, dir: Dir, cur: Node, n: Node) returns (c: Crossing)
    requires n in Next(g, s, dir, cur)
    ensures CanCross(g, s, dir, cur, c) && c.To() == n
  {
    if dir != In && n in OutNext(g, s, cur) {
      var r :| r in g.Rels() && r.src == cur && Qualifies(g, s, r) && g.At(r).dst == n;
      c := Crossing(r, n, true);
    } else {
      var r :| r in g.Rels() && g.At(r).dst == cur && Qualifies(g, s, r) && r.src == n;
      c := Crossing(r, cur, false);
      if n == cur { assert n in OutNext(g, s, cur); }
    }
  }

  /** A pair whose verdict is yes holds a relationship the hop may cross: why, without a property
      map, the pair's verdict decides for every slot of it. */
  lemma PairHoldsOne(g: Graph, s: Step, src: Node, dst: Node) returns (r: Rel)
    requires PairMatches(g, src, dst, s.types) && s.props.None?
    ensures g.Has(r) && r.src == src && g.At(r).dst == dst && Qualifies(g, s, r)
  {
    var i :| 0 <= i < |g.Entry(src)| && g.Entry(src)[i].dst == dst
             && (s.types == {} || g.Entry(src)[i].types * s.types != {});
    r := Rel(src, i);
  }

  /** The search's verdict on a slot: the pair's, narrowed to the slot only under a property map. */
  predicate MayEnter(g: Graph, s: Step, r: Rel)
    requires g.Has(r)
  {
    PairMatches(g, r.src, g.At(r).dst, s.types) && (s.props.Some? ==> Qualifies(g, s, r))
  }

  lemma EnteredOut(g: Graph, s: Step, cur: Node, r: Rel)
    requires g.Has(r) && r.src == cur && MayEnter(g, s, r)
    ensures g.At(r).dst in OutNext(g, s, cur)
  {
    var q := r;
    if s.props.None? { q := PairHoldsOne(g, s, cur, g.At(r).dst); }
    assert q in g.Rels();
  }

  lemma EnteredIn(g: Graph, s: Step, cur: Node, r: Rel)
    requires g.Has(r) && g.At(r).dst == cur && MayEnter(g, s, r)
    ensures r.src in InNext(g, s, cur)
  {
    var q := r;
    if s.props.None? { q := PairHoldsOne(g, s, r.src, cur); }
    assert q in g.Rels();
  }

  datatype Reached = Reached(id: Node, depth: nat)

  function Ids(f: seq<Reached>): set<Node> { set i | 0 <= i < |f| :: f[i].id }

  /** What one expansion leaves: the nodes `more` marked visited, each new one queued once, a level
      deeper. */
  ghost predicate Expanded(visited: set<Node>, frontier: seq<Reached>, depth: nat, more: set<Node>,
                           visited': set<Node>, frontier': seq<Reached>)
  {
    && visited' == visited + more
    && |frontier| <= |frontier'| && frontier'[..|frontier|] == frontier
    && (forall i :: |frontier| <= i < |frontier'| ==>
          frontier'[i].depth == depth + 1 && frontier'[i].id in more && frontier'[i].id !in visited)
    && (forall n :: n in more && n !in visited ==> exists i :: |frontier| <= i < |frontier'| && frontier'[i].id == n)
    && (forall i, j :: |frontier| <= i < j < |frontier'| ==> frontier'[i].id != frontier'[j].id)
  }

  method ExpandOutgoing(g: Graph, s: Step, cur: Node, visited: set<Node>, frontier: seq<Reached>, depth: nat)
    returns (visited': set<Node>, frontier': seq<Reached>)
    ensures Expanded(visited, frontier, depth, OutNext(g, s, cur), visited', frontier')
  {
    visited', frontier' := visited, frontier;
    var entry := g.Entry(cur);
    ghost var more: set<Node> := {};
    for i := 0 to |entry|
      invariant Expanded(visited, frontier, depth, more, visited', frontier')
      invariant more <= OutNext(g, s, cur)
      invariant forall j :: 0 <= j < i && MayEnter(g, s, Rel(cur, j)) ==> entry[j].dst in visited'
    {
      var nb := entry[i].dst;
      if nb in visited' || !MayEnter(g, s, Rel(cur, i)) { continue; }
      EnteredOut(g, s, cur, Rel(cur, i));
      ExpandOne(visited, frontier, depth, more, visited', frontier', nb);
      visited' := visited' + {nb};
      frontier' := frontier' + [Reached(nb, depth + 1)];
      more := more + {nb};
    }
    forall n | n in OutNext(g, s, cur) ensures n in visited' {
      var r :| r in g.Rels() && r.src == cur && Qualifies(g, s, r) && g.At(r).dst == n;
      assert entry[r.slot].dst == n;
    }
    WidenExpansion(visited, frontier, depth, more, OutNext(g, s, cur), visited', frontier');
  }

  lemma ExpandOne(visited: set<Node>, frontier: seq<Reached>, depth: nat, more: set<Node>,
                  visited': set<Node>, frontier': seq<Reached>, n: Node)
    requires Expanded(visited, frontier, depth, more, visited', frontier') && n !in visited'
    ensures Expanded(visited, frontier, depth, more + {n}, visited' + {n}, frontier' + [Reached(n, depth + 1)])
  {
    var f := frontier' + [Reached(n, depth + 1)];
    assert f[..|frontier|] == frontier'[..|frontier|];
    forall m | m in more + {n} && m !in visited ensures exists i :: |frontier| <= i < |f| && f[i].id == m {
      if m == n {
        assert f[|frontier'|].id == m;
      } else {
        var i :| |frontier| <= i < |frontier'| && frontier'[i].id == m;
        assert f[i].id == m;
      }
    }
  }

  /** Nodes already visited add nothing to an expansion. */
  lemma WidenExpansion(visited: set<Node>, frontier: seq<Reached>, depth: nat, more: set<Node>, all: set<Node>,
                       visited': set<Node>, frontier': seq<Reached>)
    requires Expanded(visited, frontier, depth, more, visited', frontier')
    requires more <= all <= visited'
    ensures Expanded(visited, frontier, depth, all, visited', frontier')
  {
  }

  predicate PointsAt(g: Graph, dst: Node, includeSelf: bool, skip: set<Node>, r: Rel) {
    g.Has(r) && g.At(r).dst == dst && (includeSelf || r.src != dst) && r.src !in skip
  }

  /** hits answers for the sources below `bound`: every slot pointing at dst, or one per source. */
  ghost predicate Scanned(g: Graph, dst: Node, includeSelf: bool, everySlot: bool, skip: set<Node>, bound: nat, hits: seq<Rel>) {
    && (forall h :: h in hits ==> PointsAt(g, dst, includeSelf, skip, h) && h.src < bound)
    && (forall i, j :: 0 <= i < j < |hits| ==> hits[i] != hits[j])
    && (forall r :: PointsAt(g, dst, includeSelf, skip, r) && r.src < bound ==> Answered(hits, everySlot, r))
  }

  predicate Answered(hits: seq<Rel>, everySlot: bool, r: Rel) {
    exists h :: h in hits && h.src == r.src && (everySlot ==> h == r)
  }

  /** The slots pointing at dst, source by source: every one of them, or the first of each source.
      dst's own loops only when includeSelf is set, and no source in skip. */
  method ScanIncoming(g: Graph, dst: Node, includeSelf: bool, everySlot: bool, skip: set<Node>) returns (hits: seq<Rel>)
    ensures Scanned(g, dst, includeSelf, everySlot, skip, |g.adj|, hits)
  {
    hits := [];
    for id := 0 to |g.adj|
      invariant Scanned(g, dst, includeSelf, everySlot, skip, id, hits)
    {
      if (id == dst && !includeSelf) || id in skip { continue; }
      var own := ScanEntry(g, id, dst, everySlot);
      ScannedNext(g, dst, includeSelf, everySlot, skip, id, hits, own);
      hits := hits + own;
    }
  }

  ghost predicate EntryScanned(g: Graph, id: Node, dst: Node, everySlot: bool, bound: nat, own: seq<Rel>) {
    && (forall h :: h in own ==> g.Has(h) && h.src == id && h.slot < bound && g.At(h).dst == dst)
    && (forall i, j :: 0 <= i < j < |own| ==> own[i] != own[j])
    && (forall r :: g.Has(r) && r.src == id && r.slot < bound && g.At(r).dst == dst ==> Answered(own, everySlot, r))
  }

  lemma ScannedNext(g: Graph, dst: Node, includeSelf: bool, everySlot: bool, skip: set<Node>, id: nat,
                    hits: seq<Rel>, own: seq<Rel>)
    requires id < |g.adj| && (includeSelf || id != dst) && id !in skip
    requires Scanned(g, dst, includeSelf, everySlot, skip, id, hits)
    requires EntryScanned(g, id, dst, everySlot, |g.adj[id]|, own)
    ensures Scanned(g, dst, includeSelf, everySlot, skip, id + 1, hits + own)
  {
    forall r | PointsAt(g, dst, includeSelf, skip, r) && r.src < id + 1 ensures Answered(hits + own, everySlot, r) {
      var from := if r.src < id then hits else own;
      assert Answered(from, everySlot, r);
      var h :| h in from && h.src == r.src && (everySlot ==> h == r);
      assert h in hits + own;
    }
    forall i, j | 0 <= i < j < |hits + own| ensures (hits + own)[i] != (hits + own)[j] {
      if i < |hits| <= j { assert hits[i] in hits && own[j - |hits|] in own; }
    }
  }

  /** The slots of one source that point at dst, in order; only the first unless everySlot. */
  method ScanEntry(g: Graph, id: Node, dst: Node, everySlot: bool) returns (own: seq<Rel>)
    requires id < |g.adj|
    ensures EntryScanned(g, id, dst, everySlot, |g.adj[id]|, own)
  {
    own := [];
    var entry := g.adj[id];
    for i := 0 to |entry|
      invariant EntryScanned(g, id, dst, everySlot, i, own)
      invariant everySlot || own == []
    {
      if entry[i].dst != dst { continue; }
      ghost var before := own;
      own := own + [Rel(id, i)];
      assert Rel(id, i) in own;
      forall r | g.Has(r) && r.src == id && r.slot < (if everySlot then i + 1 else |entry|) && g.At(r).dst == dst
        ensures Answered(own, everySlot, r)
      {
        if everySlot && r.slot < i {
          var h :| h in before && h.src == r.src && (everySlot ==> h == r);
          assert h in own;
        } else {
          assert Rel(id, i).src == r.src;
        }
      }
      if !everySlot { break; }
    }
  }

  lemma AllEntered(g: Graph, s: Step, cur: Node, visited: set<Node>, hits: seq<Rel>, visited': set<Node>)
    requires Scanned(g, cur, true, s.props.Some?, visited, |g.adj|, hits)
    requires visited <= visited'
    requires forall j :: 0 <= j < |hits| && MayEnter(g, s, hits[j]) ==> hits[j].src in visited'
    ensures InNext(g, s, cur) <= visited'
  {
    forall n | n in InNext(g, s, cur) ensures n in visited' {
      var r :| r in g.Rels() && g.At(r).dst == cur && Qualifies(g, s, r) && r.src == n;
      if n !in visited {
        assert PointsAt(g, cur, true, visited, r);
        assert Answered(hits, s.props.Some?, r);
        var h :| h in hits && h.src == r.src && (s.props.Some? ==> h == r);
        assert PointsAt(g, cur, true, visited, h) && MayEnter(g, s, h);
      }
    }
  }

  method ExpandIncoming(g: Graph, s: Step, cur: Node, visited: set<Node>, frontier: seq<Reached>, depth: nat)
    returns (visited': set<Node>, frontier': seq<Reached>)
    ensures Expanded(visited, frontier, depth, InNext(g, s, cur), visited', frontier')
  {
    var hits := ScanIncoming(g, cur, true, s.props.Some?, visited);
    assert forall j :: 0 <= j < |hits| ==> hits[j] in hits && g.Has(hits[j]);
    visited', frontier' := visited, frontier;
    ghost var more: set<Node> := {};
    for i := 0 to |hits|
      invariant Expanded(visited, frontier, depth, more, visited', frontier')
      invariant more <= InNext(g, s, cur)
      invariant forall j :: 0 <= j < i && MayEnter(g, s, hits[j]) ==> hits[j].src in visited'
    {
      var hit := hits[i];
      assert hit in hits && PointsAt(g, cur, true, visited, hit);
      if hit.src in visited' || !MayEnter(g, s, hit) { continue; }
      EnteredIn(g, s, cur, hit);
      ExpandOne(visited, frontier, depth, more, visited', frontier', hit.src);
      visited' := visited' + {hit.src};
      frontier' := frontier' + [Reached(hit.src, depth + 1)];
      more := more + {hit.src};
    }
    AllEntered(g, s, cur, visited, hits, visited');
    WidenExpansion(visited, frontier, depth, more, InNext(g, s, cur), visited', frontier');
  }

  method ExpandStep(g: Graph, s: Step, dir: Dir, cur: Node, visited: set<Node>, frontier: seq<Reached>, depth: nat)
    returns (visited': set<Node>, frontier': seq<Reached>)
    ensures Expanded(visited, frontier, depth, Next(g, s, dir, cur), visited', frontier')
  {
    match dir
    case Out => visited', frontier' := ExpandOutgoing(g, s, cur, visited, frontier, depth);
    case In => visited', frontier' := ExpandIncoming(g, s, cur, visited, frontier, depth);
    case Both =>
      var v1, f1 := ExpandOutgoing(g, s, cur, visited, frontier, depth);
      visited', frontier' := ExpandIncoming(g, s, cur, v1, f1, depth);
      forall n | n in OutNext(g, s, cur) && n !in visited
        ensures exists i :: |frontier| <= i < |frontier'| && frontier'[i].id == n
      {
        var i :| |frontier| <= i < |f1| && f1[i].id == n;
        assert frontier'[i] == f1[i];
      }
      forall i | |frontier| <= i < |f1| ensures frontier'[i] == f1[i] { }
      assert frontier'[..|frontier|] == f1[..|frontier|];
  }

  // ------------------------------------------------------------------ the search

  /** A path that returns to no node it has visited, ending on n. */
  ghost predicate IsSimple(g: Graph, vs: Search, from: Node, t: Path, n: Node) {
    && IsWalk(g, vs.s, vs.dir, from, t) && End(from, t) == n
    && (forall i :: 0 <= i < |t| ==> t[i].To() != from)
    && (forall i, j :: 0 <= i < j < |t| ==> t[i].To() != t[j].To())
  }

  /** Crossing one relationship twice would visit one of its ends twice. */
  lemma SimpleIsTrail(g: Graph, vs: Search, from: Node, t: Path, n: Node)
    requires IsSimple(g, vs, from, t, n)
    ensures IsTrail(g, vs.s, vs.dir, from, {}, t)
  {
    forall i, j | 0 <= i < j < |t| ensures t[i].rel != t[j].rel {
      WalkSplit(g, vs.s, vs.dir, from, t, i);
      WalkSplit(g, vs.s, vs.dir, from, t, j);
      if i > 0 { assert t[i].From() == t[i - 1].To(); }
    }
  }

  /** A directed shortest cycle is a simple cycle, and so a trail; an undirected one need not be. */
  lemma ClosedIsTrail(g: Graph, vs: Search, from: Node, t: Path, n: Node, c: Crossing)
    requires IsSimple(g, vs, from, t, n) && vs.dir != Both
    requires CanCross(g, vs.s, vs.dir, n, c) && c.To() == from
    ensures IsTrail(g, vs.s, vs.dir, from, {}, t + [c])
  {
    SimpleIsTrail(g, vs, from, t, n);
    WalkAppend(g, vs.s, vs.dir, from, t, c);
    forall i | 0 <= i < |t| ensures t[i].rel != c.rel {
      WalkSplit(g, vs.s, vs.dir, from, t, i);
    }
  }

  /** What the hop asks for: a trail of an admissible length to an accepted node. */
  ghost predicate Answers(g: Graph, vs: Search, from: Node, t: Path) {
    && IsTrail(g, vs.s, vs.dir, from, {}, t)
    && vs.lo <= |t| <= vs.hi
    && vs.Accepts(End(from, t))
  }

  type Tree = map<Node, Path>

  /** t is a simple path to n through the nodes given, no longer than the hop may be. */
  ghost predicate Rooted(g: Graph, vs: Search, from: Node, nodes: set<Node>, t: Path, n: Node) {
    && IsSimple(g, vs, from, t, n) && |t| <= vs.hi
    && (forall i :: 0 <= i < |t| ==> t[i].To() in nodes)
  }

  /** Every visited node has a simple path through visited nodes. */
  ghost predicate Grown(g: Graph, vs: Search, from: Node, tree: Tree) {
    && from in tree && tree[from] == []
    && forall n :: n in tree ==> Rooted(g, vs, from, tree.Keys, tree[n], n)
  }

  /** The queue runs level by level. */
  ghost predicate Queued(tree: Tree, frontier: seq<Reached>) {
    && (forall i :: 0 <= i < |frontier| ==> frontier[i].id in tree && frontier[i].depth == |tree[frontier[i].id]|)
    && (forall i, j :: 0 <= i < j < |frontier| ==> frontier[i].depth <= frontier[j].depth <= frontier[0].depth + 1)
  }

  /** n has been dequeued and was not the answer. */
  ghost predicate Settled(g: Graph, vs: Search, from: Node, cycle: bool, tree: Tree, n: Node)
    requires n in tree
  {
    && !(|tree[n]| >= vs.lo && vs.Accepts(n))
    && (|tree[n]| < vs.hi ==>
         && (forall m :: m in Next(g, vs.s, vs.dir, n) ==> m in tree && |tree[m]| <= |tree[n]| + 1)
         && (cycle ==> from !in Next(g, vs.s, vs.dir, n)))
  }

  ghost predicate Progress(g: Graph, vs: Search, from: Node, cycle: bool, tree: Tree, frontier: seq<Reached>) {
    forall n :: n in tree && n !in Ids(frontier) ==>
      Settled(g, vs, from, cycle, tree, n) && (frontier != [] ==> |tree[n]| <= frontier[0].depth)
  }

  /** Whether the stored pair src -> dst carries a relationship the hop may cross. */
  method PairQualifies(g: Graph, s: Step, src: Node, dst: Node) returns (yes: bool)
    ensures yes <==> exists r :: g.Has(r) && r.src == src && g.At(r).dst == dst && Qualifies(g, s, r)
  {
    if !PairMatches(g, src, dst, s.types) { return false; }
    if s.props.None? {
      ghost var r := PairHoldsOne(g, s, src, dst);
      return true;
    }
    var entry := g.Entry(src);
    for i := 0 to |entry|
      invariant forall j :: 0 <= j < i && entry[j].dst == dst ==> !Qualifies(g, s, Rel(src, j))
    {
      if entry[i].dst == dst && Qualifies(g, s, Rel(src, i)) { return true; }
    }
    return false;
  }

  /** Whether cur carries a relationship the directed hop may cross back to `from`. */
  method ClosesCycle(g: Graph, vs: Search, cur: Node, from: Node) returns (yes: bool)
    requires vs.dir != Both
    ensures yes <==> from in Next(g, vs.s, vs.dir, cur)
  {
    if vs.dir == In {
      yes := PairQualifies(g, vs.s, from, cur);
    } else {
      yes := PairQualifies(g, vs.s, cur, from);
    }
    if yes {
      var src, dst := if vs.dir == In then from else cur, if vs.dir == In then cur else from;
      ghost var r :| g.Has(r) && r.src == src && g.At(r).dst == dst && Qualifies(g, vs.s, r);
      assert r in g.Rels();
    }
  }

  ghost function CrossingTo(g: Graph, vs: Search, cur: Node, n: Node): (c: Crossing)
    requires n in Next(g, vs.s, vs.dir, cur)
    ensures CanCross(g, vs.s, vs.dir, cur, c) && c.To() == n
  {
    assert exists c :: CanCross(g, vs.s, vs.dir, cur, c) && c.To() == n by {
      var c := NextIsCrossed(g, vs.s, vs.dir, cur, n);
    }
    var c :| CanCross(g, vs.s, vs.dir, cur, c) && c.To() == n; c
  }

  /** The tree one expansion grows. */
  lemma GrowTree(g: Graph, vs: Search, from: Node, tree: Tree, cur: Node) returns (tree': Tree)
    requires Grown(g, vs, from, tree) && cur in tree && |tree[cur]| < vs.hi
    ensures Grown(g, vs, from, tree')
    ensures tree'.Keys == tree.Keys + Next(g, vs.s, vs.dir, cur)
    ensures forall n :: n in tree ==> tree'[n] == tree[n]
    ensures forall n :: n in tree' && n !in tree ==> |tree'[n]| == |tree[cur]| + 1
  {
    var nodes := tree.Keys + Next(g, vs.s, vs.dir, cur);
    tree' := map n | n in nodes :: if n in tree then tree[n] else tree[cur] + [CrossingTo(g, vs, cur, n)];
    assert tree'.Keys == nodes;
    assert Rooted(g, vs, from, tree.Keys, tree[cur], cur);
    forall n | n in tree' ensures Rooted(g, vs, from, nodes, tree'[n], n) {
      if n in tree {
        assert Rooted(g, vs, from, tree.Keys, tree[n], n);
      } else {
        Extended(g, vs, from, tree.Keys, nodes, cur, tree[cur], CrossingTo(g, vs, cur, n));
      }
    }
  }

  lemma Extended(g: Graph, vs: Search, from: Node, nodes: set<Node>, nodes': set<Node>, cur: Node, t: Path, c: Crossing)
    requires Rooted(g, vs, from, nodes, t, cur) && |t| < vs.hi && from in nodes
    requires CanCross(g, vs.s, vs.dir, cur, c) && c.To() !in nodes && nodes + {c.To()} <= nodes'
    ensures Rooted(g, vs, from, nodes', t + [c], c.To())
  {
    WalkAppend(g, vs.s, vs.dir, from, t, c);
  }

  lemma Dequeued(g: Graph, vs: Search, from: Node, cycle: bool, visited: set<Node>, frontier: seq<Reached>, tree: Tree)
    requires Searching(g, vs, from, cycle, visited, frontier, tree) && frontier != []
    requires frontier[0].depth >= vs.hi && !(frontier[0].depth >= vs.lo && vs.Accepts(frontier[0].id))
    ensures Searching(g, vs, from, cycle, visited, frontier[1..], tree)
  {
    IdsTail(frontier);
  }

  lemma IdsTail(frontier: seq<Reached>)
    requires frontier != []
    ensures Ids(frontier) == {frontier[0].id} + Ids(frontier[1..])
  {
    forall i | 0 <= i < |frontier| ensures frontier[i].id in {frontier[0].id} + Ids(frontier[1..]) {
      if i > 0 { assert frontier[i] == frontier[1..][i - 1]; }
    }
    forall i | 0 <= i < |frontier[1..]| ensures frontier[1..][i].id in Ids(frontier) {
      assert frontier[1..][i] == frontier[i + 1];
    }
  }

  lemma QueueAfter(tree: Tree, tree': Tree, frontier: seq<Reached>, frontier': seq<Reached>, more: set<Node>)
    requires frontier != [] && Queued(tree, frontier)
    requires Expanded(tree.Keys, frontier[1..], frontier[0].depth, more, tree'.Keys, frontier')
    requires forall n :: n in tree ==> n in tree' && tree'[n] == tree[n]
    requires forall n :: n in tree' && n !in tree ==> |tree'[n]| == frontier[0].depth + 1
    ensures Queued(tree', frontier')
    ensures frontier' != [] ==> frontier[0].depth <= frontier'[0].depth
  {
    var rest := frontier[1..];
    forall i | 0 <= i < |rest| ensures frontier'[i] == frontier[i + 1] {
      assert frontier'[..|rest|][i] == frontier'[i];
    }
  }

  lemma ProgressAfter(g: Graph, vs: Search, from: Node, cycle: bool, tree: Tree, frontier: seq<Reached>,
                      tree': Tree, frontier': seq<Reached>)
    requires frontier != [] && Queued(tree, frontier) && Queued(tree', frontier')
    requires Progress(g, vs, from, cycle, tree, frontier)
    requires var cur := frontier[0].id;
             && Expanded(tree.Keys, frontier[1..], frontier[0].depth, Next(g, vs.s, vs.dir, cur), tree'.Keys, frontier')
             && (forall n :: n in tree ==> n in tree' && tree'[n] == tree[n])
             && Settled(g, vs, from, cycle, tree', cur)
    requires frontier' != [] ==> frontier[0].depth <= frontier'[0].depth
    ensures Progress(g, vs, from, cycle, tree', frontier')
  {
    IdsTail(frontier);
    var rest := frontier[1..];
    forall n | n in tree' && n !in tree ensures n in Ids(frontier') {
      var i :| |rest| <= i < |frontier'| && frontier'[i].id == n;
    }
    forall i | 0 <= i < |rest| ensures rest[i].id in Ids(frontier') {
      assert frontier'[..|rest|][i] == frontier'[i];
    }
    forall n | n in tree' && n !in Ids(frontier')
      ensures Settled(g, vs, from, cycle, tree', n) && (frontier' != [] ==> |tree'[n]| <= frontier'[0].depth)
    {
      if n != frontier[0].id { assert Settled(g, vs, from, cycle, tree, n); }
    }
  }

  /** Breadth first: no walk within the bound is shorter than the path the search holds. */
  lemma {:induction false} ShortestHeld(g: Graph, vs: Search, from: Node, cycle: bool, tree: Tree, t: Path)
    requires from in tree && tree[from] == [] && Progress(g, vs, from, cycle, tree, [])
    requires IsWalk(g, vs.s, vs.dir, from, t) && |t| <= vs.hi
    ensures End(from, t) in tree && |tree[End(from, t)]| <= |t|
  {
    if t != [] {
      var k := |t| - 1;
      WalkSplit(g, vs.s, vs.dir, from, t, k);
      ShortestHeld(g, vs, from, cycle, tree, t[..k]);
      var u := End(from, t[..k]);
      CrossedIsNext(g, vs.s, vs.dir, u, t[k]);
      assert Settled(g, vs, from, cycle, tree, u);
    }
  }

  /** The last step of a walk within the bound leaves a node the search has settled. */
  lemma LastStep(g: Graph, vs: Search, from: Node, cycle: bool, tree: Tree, t: Path) returns (u: Node)
    requires from in tree && tree[from] == [] && Progress(g, vs, from, cycle, tree, [])
    requires IsWalk(g, vs.s, vs.dir, from, t) && 0 < |t| <= vs.hi
    ensures u in tree && |tree[u]| < vs.hi && Settled(g, vs, from, cycle, tree, u)
    ensures End(from, t) in Next(g, vs.s, vs.dir, u)
  {
    var k := |t| - 1;
    WalkSplit(g, vs.s, vs.dir, from, t, k);
    ShortestHeld(g, vs, from, cycle, tree, t[..k]);
    u := End(from, t[..k]);
    CrossedIsNext(g, vs.s, vs.dir, u, t[k]);
  }

  lemma NothingLeft(g: Graph, vs: Search, from: Node, cycle: bool, tree: Tree, t: Path)
    requires Grown(g, vs, from, tree) && Progress(g, vs, from, cycle, tree, [])
    requires vs.lo <= 1
    requires End(from, t) != from || vs.lo == 0 || cycle
    ensures !Answers(g, vs, from, t)
  {
    if IsTrail(g, vs.s, vs.dir, from, {}, t) && vs.lo <= |t| <= vs.hi {
      if End(from, t) == from && vs.lo != 0 {
        var u := LastStep(g, vs, from, cycle, tree, t);
      } else {
        ShortestHeld(g, vs, from, cycle, tree, t);
        assert Settled(g, vs, from, cycle, tree, End(from, t));
        assert Rooted(g, vs, from, tree.Keys, tree[End(from, t)], End(from, t));
      }
    }
  }

  function Endpoints(g: Graph): set<Node> {
    (set r | r in g.Rels() :: r.src) + (set r | r in g.Rels() :: g.At(r).dst)
  }

  /** Where the search stands: `visited` is the tree's nodes, and everything off the queue is settled. */
  ghost predicate Searching(g: Graph, vs: Search, from: Node, cycle: bool, visited: set<Node>,
                            frontier: seq<Reached>, tree: Tree)
  {
    && Grown(g, vs, from, tree) && tree.Keys == visited && visited <= Endpoints(g) + {from}
    && Queued(tree, frontier) && Progress(g, vs, from, cycle, tree, frontier)
  }

  /** A path the search must find: it settles the start node only at length 0 or round a cycle. */
  ghost predicate Found(g: Graph, vs: Search, from: Node, cycle: bool) {
    exists t :: Answers(g, vs, from, t) && (End(from, t) != from || vs.lo == 0 || cycle)
  }

  lemma FoundAtNode(g: Graph, vs: Search, from: Node, cycle: bool, visited: set<Node>, frontier: seq<Reached>, tree: Tree)
    requires Searching(g, vs, from, cycle, visited, frontier, tree) && frontier != []
    requires frontier[0].depth >= vs.lo && vs.Accepts(frontier[0].id)
    ensures Found(g, vs, from, cycle)
  {
    var n := frontier[0].id;
    assert Rooted(g, vs, from, tree.Keys, tree[n], n);
    SimpleIsTrail(g, vs, from, tree[n], n);
    assert Answers(g, vs, from, tree[n]);
  }

  lemma FoundByCycle(g: Graph, vs: Search, from: Node, visited: set<Node>, frontier: seq<Reached>, tree: Tree)
    requires Searching(g, vs, from, true, visited, frontier, tree) && frontier != []
    requires vs.lo <= 1 && vs.dir != Both && vs.Accepts(from)
    requires frontier[0].depth < vs.hi && from in Next(g, vs.s, vs.dir, frontier[0].id)
    ensures Found(g, vs, from, true)
  {
    var n := frontier[0].id;
    assert Rooted(g, vs, from, tree.Keys, tree[n], n);
    var c := NextIsCrossed(g, vs.s, vs.dir, n, from);
    ClosedIsTrail(g, vs, from, tree[n], n, c);
    assert Answers(g, vs, from, tree[n] + [c]);
  }

  /** The nodes the search may still visit: what every expansion uses up. */
  function Left(g: Graph, from: Node, visited: set<Node>): nat { |Endpoints(g) + {from} - visited| }

  lemma Shrinks(g: Graph, from: Node, visited: set<Node>, visited': set<Node>, rest: seq<Reached>, frontier': seq<Reached>,
                depth: nat, more: set<Node>)
    requires Expanded(visited, rest, depth, more, visited', frontier')
    requires visited <= Endpoints(g) + {from} && more <= Endpoints(g)
    ensures Left(g, from, visited') < Left(g, from, visited)
         || (Left(g, from, visited') == Left(g, from, visited) && |frontier'| <= |rest|)
  {
    var pool := Endpoints(g) + {from};
    if |frontier'| > |rest| { assert frontier'[|rest|].id in visited' - visited; }
    assert visited' - visited == {} ==> visited' == visited;
    assert pool - visited == (pool - visited') + (visited' - visited);
  }

  lemma NextSearch(g: Graph, vs: Search, from: Node, cycle: bool, visited: set<Node>, frontier: seq<Reached>, tree: Tree,
                   visited': set<Node>, frontier': seq<Reached>) returns (tree': Tree)
    requires Searching(g, vs, from, cycle, visited, frontier, tree) && frontier != []
    requires var cur := frontier[0];
      && Expanded(visited, frontier[1..], cur.depth, Next(g, vs.s, vs.dir, cur.id), visited', frontier')
      && cur.depth < vs.hi && !(cur.depth >= vs.lo && vs.Accepts(cur.id))
      && (cycle ==> from !in Next(g, vs.s, vs.dir, cur.id))
    ensures Searching(g, vs, from, cycle, visited', frontier', tree')
    ensures Left(g, from, visited') < Left(g, from, visited)
         || (Left(g, from, visited') == Left(g, from, visited) && |frontier'| < |frontier|)
  {
    var cur := frontier[0].id;
    tree' := GrowTree(g, vs, from, tree, cur);
    NextInPool(g, vs, cur);
    NextQueue(g, vs, from, cycle, frontier, tree, frontier', tree');
    Shrinks(g, from, visited, visited', frontier[1..], frontier', frontier[0].depth, Next(g, vs.s, vs.dir, cur));
  }

  lemma NextQueue(g: Graph, vs: Search, from: Node, cycle: bool, frontier: seq<Reached>, tree: Tree,
                  frontier': seq<Reached>, tree': Tree)
    requires frontier != [] && Queued(tree, frontier) && Progress(g, vs, from, cycle, tree, frontier)
    requires var cur := frontier[0];
      && Expanded(tree.Keys, frontier[1..], cur.depth, Next(g, vs.s, vs.dir, cur.id), tree'.Keys, frontier')
      && !(cur.depth >= vs.lo && vs.Accepts(cur.id))
      && (cycle ==> from !in Next(g, vs.s, vs.dir, cur.id))
      && (forall n :: n in tree' && n !in tree ==> |tree'[n]| == |tree[cur.id]| + 1)
    requires forall n :: n in tree ==> n in tree' && tree'[n] == tree[n]
    ensures Queued(tree', frontier') && Progress(g, vs, from, cycle, tree', frontier')
  {
    var cur := frontier[0].id;
    QueueAfter(tree, tree', frontier, frontier', Next(g, vs.s, vs.dir, cur));
    NoneDeeper(g, vs, from, cycle, tree, frontier);
    SettledAfter(g, vs, from, cycle, tree, tree', cur);
    ProgressAfter(g, vs, from, cycle, tree, frontier, tree', frontier');
  }

  lemma NoneDeeper(g: Graph, vs: Search, from: Node, cycle: bool, tree: Tree, frontier: seq<Reached>)
    requires frontier != [] && Queued(tree, frontier) && Progress(g, vs, from, cycle, tree, frontier)
    ensures forall n :: n in tree ==> |tree[n]| <= frontier[0].depth + 1
  {
  }

  lemma SettledAfter(g: Graph, vs: Search, from: Node, cycle: bool, tree: Tree, tree': Tree, cur: Node)
    requires cur in tree && !(|tree[cur]| >= vs.lo && vs.Accepts(cur))
    requires cycle ==> from !in Next(g, vs.s, vs.dir, cur)
    requires tree'.Keys == tree.Keys + Next(g, vs.s, vs.dir, cur)
    requires forall n :: n in tree ==> tree'[n] == tree[n]
    requires forall n :: n in tree' && n !in tree ==> |tree'[n]| == |tree[cur]| + 1
    requires forall n :: n in tree ==> |tree[n]| <= |tree[cur]| + 1
    ensures Settled(g, vs, from, cycle, tree', cur)
  {
  }

  lemma OnlyStart(g: Graph, vs: Search, from: Node, cycle: bool) returns (tree: Tree)
    ensures Searching(g, vs, from, cycle, {from}, [Reached(from, 0)], tree)
  {
    tree := map[from := []];
    assert [Reached(from, 0)][0].id in Ids([Reached(from, 0)]);
  }

  lemma NothingFound(g: Graph, vs: Search, from: Node, cycle: bool, tree: Tree)
    requires Searching(g, vs, from, cycle, tree.Keys, [], tree) && vs.lo <= 1
    ensures !Found(g, vs, from, cycle)
  {
    forall t | End(from, t) != from || vs.lo == 0 || cycle ensures !Answers(g, vs, from, t) {
      NothingLeft(g, vs, from, cycle, tree, t);
    }
  }

  /** The node-visited search from `from`. It decides the relationship-distinct question for every
      end node but `from`; for `from` at length 0; and, where `cycle` is set, for `from` through a
      directed cycle. */
  method VarLenReach(g: Graph, vs: Search, from: Node, cycle: bool) returns (found: bool)
    requires vs.lo <= 1
    requires cycle ==> vs.dir != Both && vs.Accepts(from)
    ensures found <==> Found(g, vs, from, cycle)
  {
    var frontier := [Reached(from, 0)];
    var visited := {from};
    ghost var tree := OnlyStart(g, vs, from, cycle);
    while frontier != []
      invariant Searching(g, vs, from, cycle, visited, frontier, tree)
      decreases Left(g, from, visited), |frontier|
    {
      var cur := frontier[0];
      if cur.depth >= vs.lo && vs.Accepts(cur.id) {
        FoundAtNode(g, vs, from, cycle, visited, frontier, tree);
        return true;
      }
      if cur.depth >= vs.hi {
        Dequeued(g, vs, from, cycle, visited, frontier, tree);
        frontier := frontier[1..];
        continue;
      }
      if cycle {
        var closes := ClosesCycle(g, vs, cur.id, from);
        if closes {
          FoundByCycle(g, vs, from, visited, frontier, tree);
          return true;
        }
      }
      var visited', frontier' := ExpandStep(g, vs.s, vs.dir, cur.id, visited, frontier[1..], cur.depth);
      ghost var tree' := NextSearch(g, vs, from, cycle, visited, frontier, tree, visited', frontier');
      visited, frontier, tree := visited', frontier', tree';
    }
    NothingFound(g, vs, from, cycle, tree);
    return false;
  }

  lemma NextInPool(g: Graph, vs: Search, cur: Node)
    ensures Next(g, vs.s, vs.dir, cur) <= Endpoints(g)
  {
  }

}
