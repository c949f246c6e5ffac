/** A disjoint set over a map from each key to its parent, with path compression. */
module UnionFind {

  /** A pattern variable, or the stand-in for a path that names none. */
  datatype Key = Var(name: string) | Anon(n: nat)

  type Links = set<(Key, Key)>

  // ------------------------------------------------------------------ the equivalence a set of links generates

  predicate Joined(links: Links, a: Key, b: Key) { (a, b) in links || (b, a) in links }

  ghost predicate IsChain(links: Links, p: seq<Key>) {
    p != [] && forall i :: 0 <= i < |p| - 1 ==> Joined(links, p[i], p[i + 1])
  }

  /** The least equivalence that holds of every link: a chain of links joins the two. */
  ghost predicate Linked(links: Links, a: Key, b: Key) {
    exists p :: IsChain(links, p) && p[0] == a && p[|p| - 1] == b
  }

  lemma LinkedSelf(links: Links, a: Key)
    ensures Linked(links, a, a)
  {
    assert IsChain(links, [a]);
  }

  lemma LinkedByLink(links: Links, a: Key, b: Key)
    requires Joined(links, a, b)
    ensures Linked(links, a, b)
  {
    assert IsChain(links, [a, b]);
  }

  lemma LinkedBack(links: Links, a: Key, b: Key)
    requires Linked(links, a, b)
    ensures Linked(links, b, a)
  {
    var p :| IsChain(links, p) && p[0] == a && p[|p| - 1] == b;
    var q := seq(|p|, i requires 0 <= i < |p| => p[|p| - 1 - i]);
    forall i | 0 <= i < |q| - 1 ensures Joined(links, q[i], q[i + 1]) {
      assert Joined(links, p[|p| - 2 - i], p[|p| - 2 - i + 1]);
    }
    assert IsChain(links, q);
  }

  lemma LinkedOn(links: Links, a: Key, b: Key, c: Key)
    requires Linked(links, a, b) && Linked(links, b, c)
    ensures Linked(links, a, c)
  {
    var p :| IsChain(links, p) && p[0] == a && p[|p| - 1] == b;
    var q :| IsChain(links, q) && q[0] == b && q[|q| - 1] == c;
    var r := p + q[1..];
    forall i | 0 <= i < |r| - 1 ensures Joined(links, r[i], r[i + 1]) {
      if i >= |p| - 1 { assert Joined(links, q[i - |p| + 1], q[i - |p| + 2]); }
    }
    assert IsChain(links, r);
  }

  lemma LinkedMore(links: Links, more: Links, a: Key, b: Key)
    requires links <= more && Linked(links, a, b)
    ensures Linked(more, a, b)
  {
    var p :| IsChain(links, p) && p[0] == a && p[|p| - 1] == b;
    assert IsChain(more, p);
  }

  /** Whatever every link agrees on, every chain does. */
  lemma {:induction false} ChainAgrees(links: Links, roots: map<Key, Key>, p: seq<Key>)
    requires IsChain(links, p) && p[0] in roots
    requires forall l :: l in links ==> l.0 in roots && l.1 in roots && roots[l.0] == roots[l.1]
    ensures p[|p| - 1] in roots && roots[p[0]] == roots[p[|p| - 1]]
  {
    if |p| > 1 {
      var front := p[..|p| - 1];
      assert forall i :: 0 <= i < |front| - 1 ==> Joined(links, front[i], front[i + 1]) by {
        forall i | 0 <= i < |front| - 1 ensures Joined(links, front[i], front[i + 1]) { assert Joined(links, p[i], p[i + 1]); }
      }
      ChainAgrees(links, roots, front);
      assert Joined(links, p[|p| - 2], p[|p| - 1]);
    }
  }

  // ------------------------------------------------------------------ the structure

  /** The parents form a forest: every key has a root, and each step towards it comes closer. */
  ghost predicate Forest(parent: map<Key, Key>, roots: map<Key, Key>, depth: map<Key, nat>) {
    && roots.Keys == parent.Keys == depth.Keys
    && forall k {:trigger Placed(parent, roots, depth, k)} :: k in parent ==> Placed(parent, roots, depth, k)
  }

  ghost predicate Placed(parent: map<Key, Key>, roots: map<Key, Key>, depth: map<Key, nat>, k: Key)
    requires roots.Keys == parent.Keys == depth.Keys && k in parent
  {
    var p, r := parent[k], roots[k];
    && p in parent && r in parent && parent[r] == r && roots[r] == r && roots[p] == r
    && (p == k ==> r == k) && (p != k ==> depth[p] < depth[k])
    && (r != k ==> depth[r] < depth[k])
  }

  /** Two keys have one root exactly when the unions performed join them. */
  ghost predicate Represents(roots: map<Key, Key>, links: Links) {
    && (forall l :: l in links ==> l.0 in roots && l.1 in roots && roots[l.0] == roots[l.1])
    && (forall k {:trigger Linked(links, k, roots[k])} :: k in roots ==> Linked(links, k, roots[k]))
  }

  /** A forest whose root-equality is exactly the equivalence closure of the unions performed. */
  ghost predicate Sound(parent: map<Key, Key>, roots: map<Key, Key>, depth: map<Key, nat>, links: Links) {
    Forest(parent, roots, depth) && Represents(roots, links)
  }

  lemma RootsAreClasses(roots: map<Key, Key>, links: Links, a: Key, b: Key)
    requires Represents(roots, links) && a in roots && b in roots
    ensures roots[a] == roots[b] <==> Linked(links, a, b)
  {
    if roots[a] == roots[b] {
      LinkedBack(links, b, roots[b]);
      LinkedOn(links, a, roots[a], b);
    }
    if p :| IsChain(links, p) && p[0] == a && p[|p| - 1] == b { ChainAgrees(links, roots, p); }
  }

  /** The forest with one root hung under another: the keys under it sink by the other's depth. */
  function Sunk(depth: map<Key, nat>, roots: map<Key, Key>, ra: Key, by': nat): map<Key, nat>
    requires roots.Keys == depth.Keys
  {
    map k | k in depth :: if roots[k] == ra then depth[k] + by' + 1 else depth[k]
  }

  function Reroot(roots: map<Key, Key>, ra: Key, rb: Key): map<Key, Key> {
    map k | k in roots :: if roots[k] == ra then rb else roots[k]
  }

  lemma UnionForest(parent: map<Key, Key>, roots: map<Key, Key>, depth: map<Key, nat>, ra: Key, rb: Key)
    requires Forest(parent, roots, depth) && ra in parent && rb in parent && roots[ra] == ra && roots[rb] == rb && ra != rb
    ensures Forest(parent[ra := rb], Reroot(roots, ra, rb), Sunk(depth, roots, ra, depth[rb]))
  {
    var roots', depth', parent' := Reroot(roots, ra, rb), Sunk(depth, roots, ra, depth[rb]), parent[ra := rb];
    forall k | k in parent ensures Placed(parent', roots', depth', k) {
      assert Placed(parent, roots, depth, k) && Placed(parent, roots, depth, ra) && Placed(parent, roots, depth, rb);
      assert Placed(parent, roots, depth, parent[k]) && Placed(parent, roots, depth, roots[k]);
    }
  }

  lemma UnionRepresents(roots: map<Key, Key>, links: Links, a: Key, b: Key)
    requires Represents(roots, links) && a in roots && b in roots
    requires forall k :: k in roots ==> roots[k] in roots && roots[roots[k]] == roots[k]
    ensures Represents(Reroot(roots, roots[a], roots[b]), links + {(a, b)})
  {
    var more, ra, rb := links + {(a, b)}, roots[a], roots[b];
    LinkedByLink(more, a, b);
    LinkedMore(links, more, a, ra);
    LinkedMore(links, more, b, rb);
    LinkedBack(more, a, ra);
    LinkedOn(more, ra, a, b);
    LinkedOn(more, ra, b, rb);
    forall k | k in roots ensures Linked(more, k, Reroot(roots, ra, rb)[k]) {
      LinkedMore(links, more, k, roots[k]);
      if roots[k] == ra { LinkedOn(more, k, ra, rb); }
    }
  }

  lemma AddForest(parent: map<Key, Key>, roots: map<Key, Key>, depth: map<Key, nat>, links: Links, key: Key)
    requires Forest(parent, roots, depth) && Represents(roots, links) && key !in parent
    ensures Forest(parent[key := key], roots[key := key], depth[key := 0]) && Represents(roots[key := key], links)
  {
    LinkedSelf(links, key);
    var parent', roots', depth' := parent[key := key], roots[key := key], depth[key := 0];
    forall k | k in parent' ensures Placed(parent', roots', depth', k) {
      if k in parent { assert Placed(parent, roots, depth, k); }
    }
    forall k | k in roots' ensures Linked(links, k, roots'[k]) {
      if k != key { assert Linked(links, k, roots[k]); }
    }
  }

  lemma RootOfRoot(parent: map<Key, Key>, roots: map<Key, Key>, depth: map<Key, nat>)
    requires Forest(parent, roots, depth)
    ensures forall k :: k in roots ==> roots[k] in roots && roots[roots[k]] == roots[k]
  {
    forall k | k in roots ensures roots[k] in roots && roots[roots[k]] == roots[k] { assert Placed(parent, roots, depth, k); }
  }

  lemma JoinRoots(parent: map<Key, Key>, roots: map<Key, Key>, depth: map<Key, nat>, links: Links, a: Key, b: Key)
    requires Forest(parent, roots, depth) && Represents(roots, links) && a in parent && b in parent
    ensures var ra, rb := roots[a], roots[b];
      && rb in depth && Represents(Reroot(roots, ra, rb), links + {(a, b)})
      && (ra != rb ==> Forest(parent[ra := rb], Reroot(roots, ra, rb), Sunk(depth, roots, ra, depth[rb])))
      && (ra == rb ==> Reroot(roots, ra, rb) == roots)
  {
    RootOfRoot(parent, roots, depth);
    UnionRepresents(roots, links, a, b);
    if roots[a] != roots[b] { UnionForest(parent, roots, depth, roots[a], roots[b]); }
  }

  class DisjointSet {
    var parent: map<Key, Key>
    ghost var roots: map<Key, Key>
    ghost var depth: map<Key, nat>
    ghost var links: Links           // every union performed between keys present

    constructor ()
      ensures Valid() && parent == map[] && links == {}
    {
      parent, roots, depth, links := map[], map[], map[], {};
    }

    ghost predicate Valid() reads this { Sound(parent, roots, depth, links) }

    method Add(key: Key)
      requires Valid()
      modifies this
      ensures Valid() && parent.Keys == old(parent).Keys + {key} && links == old(links)
    {
      if key in parent { return; }
      AddForest(parent, roots, depth, links, key);
      parent, roots, depth := parent[key := key], roots[key := key], depth[key := 0];
    }

    /** The root of the key's set; every key walked over then points straight at it. */
    method Find(key: Key) returns (root: Key)
      requires Valid() && key in parent
      modifies this`parent
      ensures Valid() && root == roots[key] && parent.Keys == old(parent).Keys
    {
      root := key;
      assert Placed(parent, roots, depth, key);
      while parent[root] != root
        invariant root in parent && roots[root] == roots[key] && Placed(parent, roots, depth, root)
        decreases depth[root]
      {
        root := parent[root];
        assert Placed(parent, roots, depth, root);
      }
      Compress(key, root);
    }

    method Compress(key: Key, root: Key)
      requires Valid() && key in parent && root == roots[key] && root in parent && parent[root] == root
      modifies this`parent
      ensures Valid() && parent.Keys == old(parent).Keys
    {
      var k := key;
      while parent[k] != root
        invariant Valid() && k in parent && roots[k] == root && parent.Keys == old(parent).Keys && root in parent && parent[root] == root
        decreases depth[k]
      {
        assert Placed(parent, roots, depth, k);
        var next := parent[k];
        CompressForest(parent, roots, depth, k);
        parent := parent[k := root];
        k := next;
      }
    }

    method Union(a: Key, b: Key)
      requires Valid()
      modifies this
      ensures Valid() && parent.Keys == old(parent).Keys
      ensures links == if a in old(parent) && b in old(parent) then old(links) + {(a, b)} else old(links)
    {
      if a !in parent || b !in parent { return; }
      var ra := Find(a);
      var rb := Find(b);
      JoinRoots(parent, roots, depth, links, a, b);
      if ra != rb {
        depth, parent := Sunk(depth, roots, ra, depth[rb]), parent[ra := rb];
      }
      roots, links := Reroot(roots, ra, rb), links + {(a, b)};
    }

    /** Whether the keys form at least two sets: their roots are counted. */
    method AtLeastTwo() returns (yes: bool)
      requires Valid()
      modifies this`parent
      ensures Valid() && parent.Keys == old(parent).Keys
      ensures yes <==> exists a, b :: a in parent && b in parent && !Linked(links, a, b)
    {
      var seen: set<Key>, left := {}, parent.Keys;
      while left != {}
        invariant Valid() && parent.Keys == old(parent).Keys && left <= parent.Keys
        invariant forall r :: r in seen <==> exists k :: k in parent && k !in left && roots[k] == r
        decreases |left|
      {
        var k :| k in left;
        var r := Find(k);
        forall x | x in seen + {r} ensures exists j :: j in parent && j !in left - {k} && roots[j] == x {
          if x in seen { var j :| j in parent && j !in left && roots[j] == x; } else { assert roots[k] == x; }
        }
        left, seen := left - {k}, seen + {r};
      }
      yes := |seen| >= 2;
      TwoRoots(parent, roots, links, seen);
    }
  }

  lemma CompressForest(parent: map<Key, Key>, roots: map<Key, Key>, depth: map<Key, nat>, k: Key)
    requires Forest(parent, roots, depth) && k in parent && roots[k] != k
    ensures Forest(parent[k := roots[k]], roots, depth)
  {
    var parent' := parent[k := roots[k]];
    assert Placed(parent, roots, depth, k);
    forall j | j in parent ensures Placed(parent', roots, depth, j) {
      assert Placed(parent, roots, depth, j) && Placed(parent, roots, depth, roots[j]);
    }
  }

  lemma TwoRoots(parent: map<Key, Key>, roots: map<Key, Key>, links: Links, seen: set<Key>)
    requires roots.Keys == parent.Keys && Represents(roots, links)
    requires forall r :: r in seen <==> exists k :: k in parent && roots[k] == r
    ensures |seen| >= 2 <==> exists a, b :: a in parent && b in parent && !Linked(links, a, b)
  {
    if |seen| >= 2 {
      var x :| x in seen;
      assert seen != {x};
      var y :| y in seen && y != x;
      var a :| a in parent && roots[a] == x;
      var b :| b in parent && roots[b] == y;
      RootsAreClasses(roots, links, a, b);
    }
    if a, b :| a in parent && b in parent && !Linked(links, a, b) {
      RootsAreClasses(roots, links, a, b);
      assert {roots[a], roots[b]} <= seen;
      var rest := seen - {roots[a]};
      assert roots[b] in rest && |seen| == 1 + |rest|;
    }
  }
}
