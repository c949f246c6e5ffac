/** The plan cache: shards, each a bounded list in order of use, with a map beside it. */
module PlanCache {

  type Key = string
  type Entry = nat          // a compiled plan, named by identity

  datatype Option<T> = None | Some(value: T)

  datatype PlanNode = PlanNode(key: Key, value: Entry)

  // ------------------------------------------------------------------ the reference: order of use

  function Without(s: seq<Key>, k: Key): (r: seq<Key>)
    ensures k !in r && |r| <= |s|
    ensures forall x :: x in r <==> x in s && x != k
    ensures Unique(s) ==> Unique(r)
    ensures k !in s ==> r == s
    ensures Unique(s) && k in s ==> |r| == |s| - 1
  {
    if s == [] then []
    else
      assert Unique(s) ==> Unique(s[1..]) && s[0] !in s[1..];
      assert s == [s[0]] + s[1..];
      if s[0] == k then Without(s[1..], k) else [s[0]] + Without(s[1..], k)
  }

  predicate Unique(s: seq<Key>) { forall i, j :: 0 <= i < j < |s| ==> s[i] != s[j] }

  /** The keys used, each once, the latest first. */
  function ByUse(uses: seq<Key>): (r: seq<Key>)
    ensures Unique(r)
  {
    if uses == [] then []
    else [uses[|uses| - 1]] + Without(ByUse(uses[..|uses| - 1]), uses[|uses| - 1])
  }

  function Take(s: seq<Key>, n: nat): seq<Key> { if |s| <= n then s else s[..n] }

  /** What a least-recently-used cache of the capacity must hold, and in which order. */
  function MostRecent(uses: seq<Key>, cap: nat): seq<Key> { Take(ByUse(uses), cap) }

  lemma UsesPush(uses: seq<Key>, k: Key)
    ensures ByUse(uses + [k]) == [k] + Without(ByUse(uses), k)
  {
    assert (uses + [k])[..|uses|] == uses;
  }

  /** Dropping a key from beyond the first n leaves them; from among them, the rest of them. */
  lemma {:induction false} WithoutTake(s: seq<Key>, k: Key, n: nat)
    requires Unique(s) && n <= |s|
    ensures k in s[..n] ==> Without(s, k)[..n - 1] == Without(s[..n], k)
    ensures k !in s[..n] && n <= |Without(s, k)| ==> Without(s, k)[..n] == s[..n]
    decreases n
  {
    if n > 0 {
      assert s[1..][..n - 1] == s[..n][1..];
      assert s[..n] == [s[0]] + s[..n][1..];
      WithoutTake(s[1..], k, n - 1);
    }
  }

  lemma TakeCons(k: Key, s: seq<Key>, n: nat)
    requires n > 0
    ensures Take([k] + s, n) == [k] + Take(s, n - 1)
  {
  }

  lemma TakeTake(s: seq<Key>, n: nat)
    requires n > 0
    ensures Take(Take(s, n), n - 1) == Take(s, n - 1)
  {
    if |s| > n { assert s[..n][..n - 1] == s[..n - 1]; }
  }

  /** A hit moves its key to the front and drops nothing. */
  lemma HitRecency(uses: seq<Key>, cap: nat, k: Key)
    requires k in MostRecent(uses, cap)
    ensures MostRecent(uses + [k], cap) == [k] + Without(MostRecent(uses, cap), k)
  {
    UsesPush(uses, k);
    var all := ByUse(uses);
    if |all| > cap { WithoutTake(all, k, cap); }
  }

  /** A miss stored goes to the front; only the last key gives way, and only at capacity. */
  lemma StoreRecency(uses: seq<Key>, cap: nat, k: Key)
    requires cap > 0 && k !in MostRecent(uses, cap)
    ensures MostRecent(uses + [k], cap) == [k] + Take(MostRecent(uses, cap), cap - 1)
  {
    var all := ByUse(uses);
    UsesPush(uses, k);
    TakeCons(k, Without(all, k), cap);
    TakeTake(all, cap);
    BeyondTake(all, k, cap);
  }

  lemma BeyondTake(s: seq<Key>, k: Key, n: nat)
    requires Unique(s) && n > 0 && k !in Take(s, n)
    ensures Take(Without(s, k), n - 1) == Take(s, n - 1)
  {
    if k in s {
      assert |s| > n;
      assert forall i :: 0 <= i < n - 1 ==> s[..n - 1][i] == s[..n][i];
      WithoutTake(s, k, n - 1);
    }
  }

  // ------------------------------------------------------------------ a shard

  function KeysOf(ll: seq<PlanNode>): (ks: seq<Key>)
    ensures |ks| == |ll| && forall i :: 0 <= i < |ll| ==> ks[i] == ll[i].key
  {
    seq(|ll|, i requires 0 <= i < |ll| => ll[i].key)
  }

  function Removed(ll: seq<PlanNode>, k: Key): seq<PlanNode> {
    if ll == [] then [] else if ll[0].key == k then Removed(ll[1..], k) else [ll[0]] + Removed(ll[1..], k)
  }

  lemma KeysCons(x: PlanNode, ll: seq<PlanNode>)
    ensures KeysOf([x] + ll) == [x.key] + KeysOf(ll)
  {
  }

  lemma {:induction false} RemovedKeys(ll: seq<PlanNode>, k: Key)
    ensures KeysOf(Removed(ll, k)) == Without(KeysOf(ll), k)
    ensures forall x :: x in Removed(ll, k) ==> x in ll
  {
    if ll != [] {
      hide KeysOf;
      var x, rest := ll[0], ll[1..];
      RemovedKeys(rest, k);
      KeysCons(x, rest);
      KeysCons(x, Removed(rest, k));
      assert ll == [x] + rest;
      assert KeysOf(ll)[1..] == KeysOf(rest);
    }
  }

  /** The list and the map hold the same nodes. */
  ghost predicate Matched(ll: seq<PlanNode>, index: map<Key, PlanNode>) {
    && (forall k :: k in index <==> k in KeysOf(ll))
    && (forall x :: x in ll ==> x.key in index && index[x.key] == x)
  }

  ghost predicate Refines(ll: seq<PlanNode>, index: map<Key, PlanNode>, cap: nat, uses: seq<Key>) {
    cap > 0 && KeysOf(ll) == MostRecent(uses, cap) && Matched(ll, index)
  }

  /** The new node is found; every other is kept but the last of a full list. */
  ghost predicate Installed(ll: seq<PlanNode>, index: map<Key, PlanNode>, cap: nat, n: PlanNode, index': map<Key, PlanNode>) {
    && n.key in index' && index'[n.key] == n
    && (forall k :: k in index' && k != n.key ==> k in index && index'[k] == index[k])
    && (forall k :: k in index && k !in index' ==> |ll| >= cap && ll != [] && k == ll[|ll| - 1].key)
  }

  lemma WithinCap(ll: seq<PlanNode>, index: map<Key, PlanNode>, uses: seq<Key>, cap: nat, k: Key)
    requires KeysOf(ll) == MostRecent(uses, cap) && Matched(ll, index) && k !in index
    ensures |ll| <= cap && Unique(KeysOf(ll)) && k !in KeysOf(ll)
  {
  }

  lemma InstallKeeps(ll: seq<PlanNode>, index: map<Key, PlanNode>, uses: seq<Key>, cap: nat, n: PlanNode)
    requires cap > 0 && KeysOf(ll) == MostRecent(uses, cap) && Matched(ll, index) && n.key !in index
    ensures |ll| <= cap
    ensures var full := |ll| >= cap;
      var ll' := [n] + if full then ll[..|ll| - 1] else ll;
      var index' := (if full then index - {ll[|ll| - 1].key} else index)[n.key := n];
      KeysOf(ll') == MostRecent(uses + [n.key], cap) && Matched(ll', index') && Installed(ll, index, cap, n, index')
  {
    hide MostRecent, Matched;
    WithinCap(ll, index, uses, cap, n.key);
    StoreRecency(uses, cap, n.key);
    if |ll| >= cap {
      DropLast(ll, index);
      InstallFront(ll[..|ll| - 1], index - {ll[|ll| - 1].key}, n);
    } else {
      InstallFront(ll, index, n);
    }
  }

  lemma InstallFront(ll: seq<PlanNode>, index: map<Key, PlanNode>, n: PlanNode)
    requires Matched(ll, index) && n.key !in index
    ensures Matched([n] + ll, index[n.key := n]) && KeysOf([n] + ll) == [n.key] + KeysOf(ll)
  {
    assert KeysOf([n] + ll) == [n.key] + KeysOf(ll);
  }

  lemma PromoteKeeps(ll: seq<PlanNode>, index: map<Key, PlanNode>, uses: seq<Key>, cap: nat, e: PlanNode)
    requires KeysOf(ll) == MostRecent(uses, cap) && Matched(ll, index) && e.key in index && index[e.key] == e
    ensures var ll' := [e] + Removed(ll, e.key); KeysOf(ll') == MostRecent(uses + [e.key], cap) && Matched(ll', index)
  {
    hide MostRecent, Matched, KeysOf, Removed;
    RemovedKeys(ll, e.key);
    KeysCons(e, Removed(ll, e.key));
    assert e.key in KeysOf(ll) by { MatchedKey(ll, index, e.key); }
    HitRecency(uses, cap, e.key);
    PromoteMatched(ll, index, e);
  }

  lemma MatchedKey(ll: seq<PlanNode>, index: map<Key, PlanNode>, k: Key)
    requires Matched(ll, index)
    ensures k in index <==> k in KeysOf(ll)
  {
  }

  lemma PromoteMatched(ll: seq<PlanNode>, index: map<Key, PlanNode>, e: PlanNode)
    requires Matched(ll, index) && e.key in index && index[e.key] == e
    ensures Matched([e] + Removed(ll, e.key), index)
  {
    hide KeysOf, Removed;
    RemovedKeys(ll, e.key);
    KeysCons(e, Removed(ll, e.key));
  }

  function Elements(ks: seq<Key>): set<Key> { set k | k in ks }

  lemma {:induction false} ElementsSize(ks: seq<Key>)
    requires Unique(ks)
    ensures |Elements(ks)| == |ks|
  {
    if ks != [] {
      var front := ks[..|ks| - 1];
      ElementsSize(front);
      assert Elements(ks) == Elements(front) + {ks[|ks| - 1]};
    }
  }

  class Shard {
    var ll: seq<PlanNode>          // the most recently used first
    var index: map<Key, PlanNode>
    const cap: nat
    ghost var uses: seq<Key>       // every hit and every store since the last reset

    constructor (cap: nat)
      requires cap > 0
      ensures Fresh(this, cap)
    {
      this.cap, ll, index, uses := cap, [], map[], [];
    }

    /** The shard is the reference: the keys used last, in order of use, as many as fit. */
    ghost predicate Valid() reads this { Refines(ll, index, cap, uses) }

    lemma Bounded()
      requires Valid()
      ensures |ll| <= cap
    {
    }

    method Get(key: Key) returns (hit: Option<Entry>)
      requires Valid()
      modifies this
      ensures Valid() && index == old(index)
      ensures hit.Some? <==> key in MostRecent(old(uses), cap)
      ensures hit.Some? ==> hit.value == index[key].value
      ensures uses == if hit.Some? then old(uses) + [key] else old(uses)
    {
      if key !in index { return None; }
      var e := index[key];
      MoveToFront(e);
      return Some(e.value);
    }

    method MoveToFront(e: PlanNode)
      requires Valid() && e.key in index && index[e.key] == e
      modifies this
      ensures Valid() && index == old(index) && uses == old(uses) + [e.key]
    {
      PromoteKeeps(ll, index, uses, cap, e);
      ll, uses := [e] + Removed(ll, e.key), uses + [e.key];
    }

    /** The entry already there, moved to the front; or the one supplied, installed at the front if it
        was compiled under the cache's generation. */
    method LoadOrStoreAt(key: Key, entry: Entry, compiled: nat, current: nat) returns (actual: Entry, loaded: bool)
      requires Valid()
      modifies this
      ensures Valid()
      ensures loaded <==> key in MostRecent(old(uses), cap)
      ensures loaded ==> actual == old(index)[key].value && index == old(index) && uses == old(uses) + [key]
      ensures !loaded ==> actual == entry
      ensures !loaded && compiled != current ==> index == old(index) && uses == old(uses)
      ensures !loaded && compiled == current ==>
        && uses == old(uses) + [key]
        && Installed(old(ll), old(index), cap, PlanNode(key, entry), index)
    {
      hide Refines, MostRecent, Installed;
      Held(key);
      if key in index {
        var e := index[key];
        AtItsKey(key);
        MoveToFront(e);
        return e.value, true;
      }
      if compiled != current { return entry, false; }
      Install(PlanNode(key, entry));
      return entry, false;
    }

    method Install(n: PlanNode)
      requires Valid() && n.key !in index
      modifies this
      ensures Valid() && uses == old(uses) + [n.key]
      ensures Installed(old(ll), old(index), cap, n, index)
    {
      hide MostRecent, Matched, Installed;
      InstallKeeps(ll, index, uses, cap, n);
      if |ll| >= cap {
        var back := ll[|ll| - 1];
        ll, index := ll[..|ll| - 1], index - {back.key};
      }
      ll, index, uses := [n] + ll, index[n.key := n], uses + [n.key];
    }

    lemma Held(key: Key)
      requires Valid()
      ensures key in index <==> key in MostRecent(uses, cap)
    {
    }

    lemma Sized()
      requires Valid()
      ensures |index| == |ll|
    {
      assert index.Keys == Elements(KeysOf(ll));
      ElementsSize(KeysOf(ll));
    }

    lemma AtItsKey(key: Key)
      requires Valid() && key in index
      ensures index[key].key == key
    {
      var i :| 0 <= i < |ll| && KeysOf(ll)[i] == key;
      assert ll[i] in ll;
    }

    method Reset()
      requires Valid()
      modifies this
      ensures Fresh(this, cap)
    {
      ll, index, uses := [], map[], [];
    }
  }

  lemma DropLast(ll: seq<PlanNode>, index: map<Key, PlanNode>)
    requires ll != [] && Matched(ll, index) && Unique(KeysOf(ll))
    ensures Matched(ll[..|ll| - 1], index - {ll[|ll| - 1].key})
    ensures KeysOf(ll[..|ll| - 1]) == KeysOf(ll)[..|ll| - 1]
  {
    var front, back := ll[..|ll| - 1], ll[|ll| - 1];
    assert ll == front + [back];
    assert KeysOf(ll) == KeysOf(front) + [back.key];
    assert back.key !in KeysOf(front);
  }

  // ------------------------------------------------------------------ the cache

  function Pow2(e: nat): nat { if e == 0 then 1 else 2 * Pow2(e - 1) }

  function Total(caps: seq<nat>): nat { if caps == [] then 0 else Total(caps[..|caps| - 1]) + caps[|caps| - 1] }

  /** Capacity divided over n shards: the first capacity % n carry one more. */
  function Share(capacity: nat, n: nat, i: nat): nat
    requires n > 0
  {
    capacity / n + if i < capacity % n then 1 else 0
  }

  function Shares(capacity: nat, n: nat, k: nat): (s: seq<nat>)
    requires n > 0
    ensures |s| == k && forall i :: 0 <= i < k ==> s[i] == Share(capacity, n, i)
  {
    seq(k, i requires 0 <= i < k => Share(capacity, n, i))
  }

  lemma {:induction false} SharesTotal(capacity: nat, n: nat, k: nat)
    requires 0 < n && k <= n
    ensures Total(Shares(capacity, n, k)) == k * (capacity / n) + if k < capacity % n then k else capacity % n
  {
    if k > 0 {
      SharesTotal(capacity, n, k - 1);
      assert Shares(capacity, n, k)[..k - 1] == Shares(capacity, n, k - 1);
      assert k * (capacity / n) == (k - 1) * (capacity / n) + capacity / n;
    }
  }

  /** The bounds of the shards sum to exactly the capacity, and none is zero. */
  lemma SharesExact(capacity: nat, n: nat)
    requires 0 < n <= capacity
    ensures Total(Shares(capacity, n, n)) == capacity
    ensures forall i :: 0 <= i < n ==> Share(capacity, n, i) >= 1
  {
    SharesTotal(capacity, n, n);
    assert capacity == n * (capacity / n) + capacity % n;
    assert capacity / n >= 1;
  }

  lemma {:induction false} TotalBounded(a: seq<nat>, b: seq<nat>)
    requires |a| == |b| && forall i :: 0 <= i < |a| ==> a[i] <= b[i]
    ensures Total(a) <= Total(b)
  {
    if a != [] { TotalBounded(a[..|a| - 1], b[..|b| - 1]); }
  }

  const DefaultCapacity := 1024

  method LargestPower(limit: nat) returns (n: nat)
    requires limit > 0
    ensures n <= limit < 2 * n && exists e :: n == Pow2(e)
  {
    n := 1;
    ghost var e := 0;
    while n * 2 <= limit
      invariant n == Pow2(e) && 1 <= n <= limit
    {
      n, e := n * 2, e + 1;
    }
  }

  ghost predicate Apart(shards: seq<Shard>) { forall i, j :: 0 <= i < j < |shards| ==> shards[i] != shards[j] }

  ghost predicate Fresh(s: Shard, cap: nat) reads s { s.Valid() && s.cap == cap && s.uses == [] && s.index == map[] }

  method MakeShards(capacity: nat, n: nat) returns (made: seq<Shard>)
    requires 0 < n <= capacity
    ensures |made| == n && Apart(made)
    ensures forall j :: 0 <= j < n ==> fresh(made[j]) && Fresh(made[j], Share(capacity, n, j))
  {
    SharesExact(capacity, n);
    made := [];
    for i := 0 to n
      invariant |made| == i && Apart(made)
      invariant forall j :: 0 <= j < i ==> fresh(made[j]) && Fresh(made[j], Share(capacity, n, j))
    {
      assert Share(capacity, n, i) >= 1;
      var s := new Shard(capacity / n + if i < capacity % n then 1 else 0);
      made := made + [s];
    }
  }

  class Cache {
    const shards: seq<Shard>
    const hash: Key -> nat
    const capacity: nat
    var gen: nat

    /** The shard count is the largest power of two within both bounds. */
    constructor (capacity: int, shards: int, hash: Key -> nat)
      ensures Valid() && Empty() && gen == 0 && this.hash == hash
      ensures this.capacity == if capacity <= 0 then DefaultCapacity else capacity
      ensures exists e :: |this.shards| == Pow2(e)
      ensures var most := if shards < 1 then 1 else shards;
        var limit := if most < this.capacity then most else this.capacity; |this.shards| <= limit < 2 * |this.shards|
      ensures forall i :: 0 <= i < |this.shards| ==> fresh(this.shards[i])
    {
      var cap: nat := if capacity <= 0 then DefaultCapacity else capacity;
      var most := if shards < 1 then 1 else shards;
      var limit := if most < cap then most else cap;
      var n := LargestPower(limit);
      SharesExact(cap, n);
      var made := MakeShards(cap, n);
      this.shards, this.hash, this.capacity, gen := made, hash, cap, 0;
    }

    ghost predicate Valid()
      reads this, shards
    {
      && 0 < |shards| <= capacity
      && Apart(shards)
      && (forall i :: 0 <= i < |shards| ==> shards[i].Valid() && shards[i].cap == Share(capacity, |shards|, i))
      && Placed()
    }

    /** Every key in use is in the shard of its hash's residue. */
    ghost predicate Placed()
      requires 0 < |shards|
      reads shards
    {
      forall i, k :: 0 <= i < |shards| && k in shards[i].index ==> hash(k) % |shards| == i
    }

    /** The keys in use whose hashes leave the remainder r. */
    ghost function Crowd(r: nat): set<Key>
      requires 0 < |shards|
      reads shards
    {
      set i, k | 0 <= i < |shards| && k in shards[i].index && Lookup(k).Some? && hash(k) % |shards| == r :: k
    }

    /** A shard's keys are the crowd of its remainder. */
    lemma CrowdIs(r: nat)
      requires Valid() && r < |shards|
      ensures Crowd(r) == shards[r].index.Keys && |Crowd(r)| == |shards[r].ll|
    {
      hide Share;
      shards[r].Sized();
      assert forall k :: k in shards[r].index ==> hash(k) % |shards| == r;
    }

    ghost predicate Empty() reads shards { forall i :: 0 <= i < |shards| ==> Fresh(shards[i], shards[i].cap) }

    function ShardFor(key: Key): Shard
      requires |shards| > 0
    {
      shards[hash(key) % |shards|]
    }

    ghost function Lookup(key: Key): Option<Entry>
      requires |shards| > 0
      reads shards
    {
      var s := ShardFor(key);
      if key in s.index then Some(s.index[key].value) else None
    }

    method Get(key: Key) returns (hit: Option<Entry>)
      requires Valid()
      modifies ShardFor(key)
      ensures Valid() && hit == old(Lookup(key))
      ensures forall k :: Lookup(k) == old(Lookup(k))
      ensures ShardFor(key).uses == old(ShardFor(key).uses) + if hit.Some? then [key] else []
    {
      hide Share, Refines, MostRecent;
      var s := ShardFor(key);
      assert s in shards;
      s.Held(key);
      hit := s.Get(key);
    }

    /** An entry compiled under an earlier generation is handed back and not installed. */
    method LoadOrStoreAt(key: Key, entry: Entry, compiled: nat) returns (actual: Entry, loaded: bool)
      requires Valid()
      modifies ShardFor(key)
      ensures Valid()
      ensures loaded <==> old(Lookup(key)).Some?
      ensures Some(actual) == if loaded then old(Lookup(key)) else Some(entry)
      ensures Lookup(key) == if loaded then old(Lookup(key)) else if compiled == gen then Some(entry) else None
      ensures forall k :: k != key ==> Lookup(k) == old(Lookup(k)) || (Lookup(k) == None && ShardFor(k) == ShardFor(key))
      ensures forall k :: k != key && Lookup(k) != old(Lookup(k)) ==>
        && hash(k) % |shards| == hash(key) % |shards|
        && |old(Crowd(hash(key) % |shards|))| == Share(capacity, |shards|, hash(key) % |shards|)
      ensures loaded || compiled != gen ==> forall k :: Lookup(k) == old(Lookup(k))
    {
      hide Share, Refines, MostRecent;
      var s := ShardFor(key);
      assert s in shards;
      s.Held(key);
      s.Bounded();
      CrowdIs(hash(key) % |shards|);
      actual, loaded := s.LoadOrStoreAt(key, entry, compiled, gen);
    }

    method Clear()
      requires Valid()
      modifies this, shards
      ensures Valid() && Empty() && gen == old(gen) + 1
    {
      for i := 0 to |shards|
        invariant gen == old(gen)
        invariant forall j :: 0 <= j < i ==> Fresh(shards[j], shards[j].cap)
        invariant forall j :: i <= j < |shards| ==> shards[j].Valid()
      {
        var s := shards[i];
        assert forall j :: 0 <= j < |shards| && j != i ==> shards[j] != s;
        s.Reset();
      }
      gen := gen + 1;
    }

    ghost function Sizes(): (s: seq<nat>)
      reads shards
      ensures |s| == |shards| && forall i :: 0 <= i < |s| ==> s[i] == |shards[i].ll|
    {
      seq(|shards|, i requires 0 <= i < |shards| reads shards => |shards[i].ll|)
    }

    method Len() returns (n: nat)
      requires Valid()
      ensures n == Total(Sizes()) && n <= capacity
    {
      hide Share;
      n := 0;
      for i := 0 to |shards|
        invariant n == Total(Sizes()[..i])
      {
        assert Sizes()[..i + 1][..i] == Sizes()[..i];
        n := n + |shards[i].ll|;
      }
      assert Sizes()[..|shards|] == Sizes();
      Within();
    }

    lemma Within()
      requires Valid()
      ensures Total(Sizes()) <= capacity
    {
      hide Share, Total;
      SharesExact(capacity, |shards|);
      forall i | 0 <= i < |shards| ensures Sizes()[i] <= Shares(capacity, |shards|, |shards|)[i] { shards[i].Bounded(); }
      TotalBounded(Sizes(), Shares(capacity, |shards|, |shards|));
    }
  }
}
