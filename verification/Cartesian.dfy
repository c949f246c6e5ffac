/** When a query part is reported to build a Cartesian product. */
module Cartesian {
  import opened UnionFind

  /** A path names its variables, in order; a predicate, the variables it mentions, in walking order. */
  type Path = seq<string>
  type Pred = seq<string>

  datatype Option<T> = None | Some(value: T)

  datatype Clause = Match(paths: seq<Path>, where: Option<Pred>) | Horizon | Other

  // ------------------------------------------------------------------ what a part contributes

  /** The distinct known variables a predicate mentions, in order. */
  function Referenced(p: Pred, known: set<string>): (r: seq<string>)
    ensures forall v :: v in r <==> v in p && v in known
    ensures forall i, j :: 0 <= i < j < |r| ==> r[i] != r[j]
  {
    if p == [] then []
    else
      var rest, v := Referenced(p[..|p| - 1], known), p[|p| - 1];
      assert p == p[..|p| - 1] + [v];
      if v in known && v !in rest then rest + [v] else rest
  }

  function AnchorOf(p: Path, anon: nat): Key { if p == [] then Anon(anon) else Var(p[0]) }

  function Vars(p: Path): set<Key> { set v | v in p :: Var(v) }

  function KeysOf(p: Path, anon: nat): set<Key> { {AnchorOf(p, anon)} + Vars(p) }

  /** A path joins its variables to its first. */
  function PathLinks(p: Path, anon: nat): Links { LinksTo(AnchorOf(p, anon), p) }

  function LinksTo(a: Key, p: Path): Links { set v | v in p :: (a, Var(v)) }

  lemma NoVars(a: Key)
    ensures Vars([]) == {} && LinksTo(a, []) == {}
  {
  }

  lemma PathPush(a: Key, p: Path, v: string)
    ensures Vars(p + [v]) == Vars(p) + {Var(v)} && LinksTo(a, p + [v]) == LinksTo(a, p) + {(a, Var(v))}
  {
  }

  /** A predicate joins what it mentions to the first of it, where both are in the part. */
  function PredLinks(refs: seq<string>, keys: set<Key>): Links {
    set i | 0 < i < |refs| && Var(refs[0]) in keys && Var(refs[i]) in keys :: (Var(refs[0]), Var(refs[i]))
  }

  /** What it should join: all it mentions of the part. */
  function IdealLinks(refs: seq<string>, keys: set<Key>): Links {
    set i, j | 0 <= i < |refs| && 0 <= j < |refs| && Var(refs[i]) in keys && Var(refs[j]) in keys :: (Var(refs[i]), Var(refs[j]))
  }

  /** The components of a run of paths, numbered from `anon`. */
  function KeysIn(paths: seq<Path>, anon: nat): set<Key> {
    if paths == [] then {} else KeysIn(paths[..|paths| - 1], anon) + KeysOf(paths[|paths| - 1], anon + |paths| - 1)
  }

  function Joins(paths: seq<Path>, anon: nat): Links {
    if paths == [] then {} else Joins(paths[..|paths| - 1], anon) + PathLinks(paths[|paths| - 1], anon + |paths| - 1)
  }

  lemma JoinsPush(paths: seq<Path>, p: Path, anon: nat)
    ensures KeysIn(paths + [p], anon) == KeysIn(paths, anon) + KeysOf(p, anon + |paths|)
    ensures Joins(paths + [p], anon) == Joins(paths, anon) + PathLinks(p, anon + |paths|)
  {
    assert (paths + [p])[..|paths|] == paths;
  }

  /** One query part: its paths, from the first anonymous number on, and its predicates. */
  datatype Part = Part(paths: seq<Path>, anon: nat, preds: seq<Pred>)
  {
    function Keys(): set<Key> { KeysIn(paths, anon) }

    /** The links the analysis makes of the first k predicates. */
    function Links(known: set<string>, k: nat): Links
      requires k <= |preds|
    {
      if k == 0 then Joins(paths, anon) else Links(known, k - 1) + PredLinks(Referenced(preds[k - 1], known), Keys())
    }

    /** The links they stand for. */
    function Ideal(known: set<string>, k: nat): Links
      requires k <= |preds|
    {
      if k == 0 then Joins(paths, anon) else Ideal(known, k - 1) + IdealLinks(Referenced(preds[k - 1], known), Keys())
    }

    /** The part's components fall apart. */
    ghost predicate Reported(known: set<string>) {
      exists a, b :: a in Keys() && b in Keys() && !Linked(Links(known, |preds|), a, b)
    }

    ghost predicate IsCartesian(known: set<string>) {
      exists a, b :: a in Keys() && b in Keys() && !Linked(Ideal(known, |preds|), a, b)
    }
  }

  // ------------------------------------------------------------------ the verdict against what it stands for

  /** All the predicate mentions of the part is in one class. */
  ghost predicate Connected(links: Links, refs: seq<string>, keys: set<Key>) {
    forall i, j :: 0 <= i < |refs| && 0 <= j < |refs| && Var(refs[i]) in keys && Var(refs[j]) in keys ==>
      Linked(links, Var(refs[i]), Var(refs[j]))
  }

  /** A predicate connects what it mentions of the part if and only if the first variable it mentions is
      in the part, or all of them were connected already. */
  lemma PredConnectsIff(links: Links, refs: seq<string>, keys: set<Key>)
    requires refs != []
    ensures Connected(links + PredLinks(refs, keys), refs, keys) <==> Var(refs[0]) in keys || Connected(links, refs, keys)
  {
    var more := links + PredLinks(refs, keys);
    if Var(refs[0]) in keys {
      forall i, j | 0 <= i < |refs| && 0 <= j < |refs| && Var(refs[i]) in keys && Var(refs[j]) in keys
        ensures Linked(more, Var(refs[i]), Var(refs[j]))
      {
        FirstLinks(links, refs, keys, i);
        FirstLinks(links, refs, keys, j);
        LinkedBack(more, Var(refs[0]), Var(refs[i]));
        LinkedOn(more, Var(refs[i]), Var(refs[0]), Var(refs[j]));
      }
    } else {
      assert PredLinks(refs, keys) == {} && more == links;
    }
  }

  lemma FirstLinks(links: Links, refs: seq<string>, keys: set<Key>, i: nat)
    requires i < |refs| && Var(refs[0]) in keys && Var(refs[i]) in keys
    ensures Linked(links + PredLinks(refs, keys), Var(refs[0]), Var(refs[i]))
  {
    if i == 0 { LinkedSelf(links + PredLinks(refs, keys), Var(refs[0])); }
    else { LinkedByLink(links + PredLinks(refs, keys), Var(refs[0]), Var(refs[i])); }
  }

  /** Replacing links by chains of others changes no class. */
  lemma {:induction false} ChainThrough(links: Links, other: Links, p: seq<Key>)
    requires IsChain(links, p)
    requires forall l :: l in links ==> Linked(other, l.0, l.1)
    ensures Linked(other, p[0], p[|p| - 1])
  {
    if |p| == 1 {
      LinkedSelf(other, p[0]);
    } else {
      var front := p[..|p| - 1];
      forall i | 0 <= i < |front| - 1 ensures Joined(links, front[i], front[i + 1]) { assert Joined(links, p[i], p[i + 1]); }
      ChainThrough(links, other, front);
      var a, b := p[|p| - 2], p[|p| - 1];
      assert Joined(links, a, b);
      if (a, b) !in links { LinkedBack(other, b, a); }
      LinkedOn(other, p[0], a, b);
    }
  }

  lemma LinkedThrough(links: Links, other: Links, a: Key, b: Key)
    requires Linked(links, a, b) && forall l :: l in links ==> Linked(other, l.0, l.1)
    ensures Linked(other, a, b)
  {
    var p :| IsChain(links, p) && p[0] == a && p[|p| - 1] == b;
    ChainThrough(links, other, p);
  }

  lemma {:induction false} LinksAreIdeal(part: Part, known: set<string>, k: nat)
    requires k <= |part.preds|
    ensures part.Links(known, k) <= part.Ideal(known, k)
  {
    if k > 0 { LinksAreIdeal(part, known, k - 1); }
  }

  /** No disconnected part goes unreported: a missed connection only adds a report. */
  lemma NoneMissed(part: Part, known: set<string>)
    requires part.IsCartesian(known)
    ensures part.Reported(known)
  {
    LinksAreIdeal(part, known, |part.preds|);
    var a, b :| a in part.Keys() && b in part.Keys() && !Linked(part.Ideal(known, |part.preds|), a, b);
    if Linked(part.Links(known, |part.preds|), a, b) {
      LinkedMore(part.Links(known, |part.preds|), part.Ideal(known, |part.preds|), a, b);
    }
  }

  ghost predicate AllLinked(ideal: Links, links: Links) { forall l :: l in ideal ==> Linked(links, l.0, l.1) }

  /** A predicate whose first known variable is not of the part joins nothing; whatever else joins what it
      mentions of the part must do. */
  ghost predicate Served(part: Part, known: set<string>, k: nat)
    requires k < |part.preds|
  {
    var refs := Referenced(part.preds[k], known);
    refs == [] || Var(refs[0]) in part.Keys() || Connected(part.Links(known, |part.preds|), refs, part.Keys())
  }

  lemma {:induction false} LinksGrow(part: Part, known: set<string>, k: nat, n: nat)
    requires k <= n <= |part.preds|
    ensures part.Links(known, k) <= part.Links(known, n)
    decreases n - k
  {
    hide PredLinks, Referenced, KeysIn;
    if k < n { LinksGrow(part, known, k, n - 1); }
  }

  /** The links of one predicate, in the part's own. */
  lemma ServedLinks(part: Part, known: set<string>, k: nat)
    requires k < |part.preds| && Served(part, known, k)
    ensures Connected(part.Links(known, |part.preds|), Referenced(part.preds[k], known), part.Keys())
  {
    hide Linked, Referenced, PredLinks;
    var refs, keys, links := Referenced(part.preds[k], known), part.Keys(), part.Links(known, |part.preds|);
    if refs != [] && Var(refs[0]) in keys {
      LinksGrow(part, known, k + 1, |part.preds|);
      PredConnectsIff(part.Links(known, k), refs, keys);
      assert part.Links(known, k + 1) == part.Links(known, k) + PredLinks(refs, keys);
      forall i, j | 0 <= i < |refs| && 0 <= j < |refs| && Var(refs[i]) in keys && Var(refs[j]) in keys
        ensures Linked(links, Var(refs[i]), Var(refs[j]))
      {
        LinkedMore(part.Links(known, k + 1), links, Var(refs[i]), Var(refs[j]));
      }
    }
  }

  lemma {:induction false} IdealServed(part: Part, known: set<string>, k: nat)
    requires k <= |part.preds| && forall j :: 0 <= j < |part.preds| ==> Served(part, known, j)
    ensures AllLinked(part.Ideal(known, k), part.Links(known, |part.preds|))
  {
    hide Linked, Joins, KeysIn, Referenced;
    var links := part.Links(known, |part.preds|);
    if k == 0 {
      LinksGrow(part, known, 0, |part.preds|);
      forall l | l in part.Ideal(known, 0) ensures Linked(links, l.0, l.1) { LinkedByLink(links, l.0, l.1); }
    } else {
      hide PredLinks, IdealLinks, Connected;
      IdealServed(part, known, k - 1);
      ServedLinks(part, known, k - 1);
      ConnectedIsIdeal(links, Referenced(part.preds[k - 1], known), part.Keys());
    }
  }

  lemma ConnectedIsIdeal(links: Links, refs: seq<string>, keys: set<Key>)
    requires Connected(links, refs, keys)
    ensures AllLinked(IdealLinks(refs, keys), links)
  {
    hide Linked;
  }

  /** A part is judged right if and only if it really falls apart, or every predicate whose first known
      variable is of an earlier part mentions only what is connected without it. */
  lemma ExactIff(part: Part, known: set<string>)
    ensures (part.Reported(known) <==> part.IsCartesian(known)) <==>
            part.IsCartesian(known) || forall k :: 0 <= k < |part.preds| ==> Served(part, known, k)
  {
    var links, ideal := part.Links(known, |part.preds|), part.Ideal(known, |part.preds|);
    if part.IsCartesian(known) { NoneMissed(part, known); }
    if (forall k :: 0 <= k < |part.preds| ==> Served(part, known, k)) && part.Reported(known) {
      IdealServed(part, known, |part.preds|);
      var a, b :| a in part.Keys() && b in part.Keys() && !Linked(links, a, b);
      if Linked(ideal, a, b) { LinkedThrough(ideal, links, a, b); }
    }
  }

  /** Every predicate's first known variable is of this part. */
  ghost predicate Anchored(part: Part, known: set<string>) {
    forall k :: 0 <= k < |part.preds| ==>
      var refs := Referenced(part.preds[k], known); refs != [] ==> Var(refs[0]) in part.Keys()
  }

  /** So the verdict is exact whenever every predicate mentions the part first: always, in a query of a
      single part. */
  lemma ExactWhenAnchored(part: Part, known: set<string>)
    requires Anchored(part, known)
    ensures part.Reported(known) <==> part.IsCartesian(known)
  {
    forall k | 0 <= k < |part.preds| ensures Served(part, known, k) {
      var refs := Referenced(part.preds[k], known);
      assert refs != [] ==> Var(refs[0]) in part.Keys();
    }
    ExactIff(part, known);
  }

  /** The variables a part names. */
  function VarsOf(paths: seq<Path>): set<string> { set i, v | 0 <= i < |paths| && v in paths[i] :: v }

  lemma {:induction false} VarsAreKeys(paths: seq<Path>, anon: nat)
    ensures forall v :: v in VarsOf(paths) ==> Var(v) in KeysIn(paths, anon)
  {
    if paths != [] {
      VarsAreKeys(paths[..|paths| - 1], anon);
      forall v | v in VarsOf(paths) ensures Var(v) in KeysIn(paths, anon) {
        var i :| 0 <= i < |paths| && v in paths[i];
        if i < |paths| - 1 { assert v in paths[..|paths| - 1][i]; }
      }
    }
  }

  /** A query of one part is always judged exactly. */
  lemma SinglePartExact(part: Part)
    ensures part.Reported(VarsOf(part.paths)) <==> part.IsCartesian(VarsOf(part.paths))
  {
    VarsAreKeys(part.paths, part.anon);
    forall k | 0 <= k < |part.preds|
      ensures var refs := Referenced(part.preds[k], VarsOf(part.paths)); refs != [] ==> Var(refs[0]) in part.Keys()
    {
      var refs := Referenced(part.preds[k], VarsOf(part.paths));
      if refs != [] { assert refs[0] in refs; }
    }
    ExactWhenAnchored(part, VarsOf(part.paths));
  }

  /** MATCH (a) WITH a MATCH (b), (c) WHERE a.x = b.x + c.x: the predicate joins b and c, but mentions a
      first, which is of the part before; the second part is reported all the same. */
  lemma EarlierVariableFirst()
    ensures var part := Part([["b"], ["c"]], 2, [["a", "b", "c"]]);
      part.Reported({"a", "b", "c"}) && !part.IsCartesian({"a", "b", "c"})
  {
    var part, known := Part([["b"], ["c"]], 2, [["a", "b", "c"]]), {"a", "b", "c"};
    var refs, keys := ["a", "b", "c"], {Var("b"), Var("c")};
    AllReferenced();
    var self := {(Var("b"), Var("b")), (Var("c"), Var("c"))};
    TwoPaths(self, keys);
    assert PredLinks(refs, keys) == {};
    assert part.Links(known, 0) == self && part.Links(known, 1) == self;
    ApartAtFirst(self);
    BothJoined(part.Ideal(known, 1), refs, keys);
  }

  lemma TwoPaths(self: Links, keys: set<Key>)
    requires self == {(Var("b"), Var("b")), (Var("c"), Var("c"))} && keys == {Var("b"), Var("c")}
    ensures KeysIn([["b"], ["c"]], 2) == keys && Joins([["b"], ["c"]], 2) == self
  {
    assert [["b"]][..0] == [] && [["b"], ["c"]][..1] == [["b"]];
    assert KeysIn([["b"]], 2) == {Var("b")} && Joins([["b"]], 2) == {(Var("b"), Var("b"))};
  }

  lemma AllReferenced()
    ensures Referenced(["a", "b", "c"], {"a", "b", "c"}) == ["a", "b", "c"]
  {
    var known := {"a", "b", "c"};
    assert ["a"][..0] == [] && ["a", "b"][..1] == ["a"] && ["a", "b", "c"][..2] == ["a", "b"];
    assert Referenced([], known) == [];
    assert Referenced(["a"], known) == ["a"];
    assert Referenced(["a", "b"], known) == ["a", "b"];
  }

  lemma ApartAtFirst(links: Links)
    requires links == {(Var("b"), Var("b")), (Var("c"), Var("c"))}
    ensures !Linked(links, Var("b"), Var("c"))
  {
    var roots := map[Var("b") := Var("b"), Var("c") := Var("c")];
    if q :| IsChain(links, q) && q[0] == Var("b") && q[|q| - 1] == Var("c") { ChainAgrees(links, roots, q); }
  }

  lemma BothJoined(links: Links, refs: seq<string>, keys: set<Key>)
    requires refs == ["a", "b", "c"] && keys == {Var("b"), Var("c")} && IdealLinks(refs, keys) <= links
    ensures forall x, y :: x in keys && y in keys ==> Linked(links, x, y)
  {
    assert (Var(refs[1]), Var(refs[2])) in IdealLinks(refs, keys);
    LinkedByLink(links, Var("b"), Var("c"));
    LinkedBack(links, Var("b"), Var("c"));
    LinkedSelf(links, Var("b"));
    LinkedSelf(links, Var("c"));
  }

  // ------------------------------------------------------------------ the analysis

  /** Whether some part of the query is reported: a horizon closes one part and opens the next, and what
      is known of variables outlives it. */
  ghost predicate Reports(q: seq<Clause>, part: Part, known: set<string>)
    decreases |q|
  {
    if q == [] then part.Reported(known)
    else match q[0]
      case Match(paths, where) => Reports(q[1..], With(part, paths, where), known + VarsOf(paths))
      case Horizon => part.Reported(known) || Reports(q[1..], Part([], part.anon + |part.paths|, []), known)
      case Other => Reports(q[1..], part, known)
  }

  /** The part a query without a horizon makes of one begun before it. */
  function Extended(part: Part, q: seq<Clause>): Part
    decreases |q|
  {
    if q == [] then part
    else match q[0] case Match(paths, where) => Extended(With(part, paths, where), q[1..]) case _ => Extended(part, q[1..])
  }

  lemma VarsAppend(a: seq<Path>, b: seq<Path>)
    ensures VarsOf(a + b) == VarsOf(a) + VarsOf(b)
  {
    var all := a + b;
    forall v ensures v in VarsOf(all) <==> v in VarsOf(a) || v in VarsOf(b) {
      if i :| 0 <= i < |all| && v in all[i] {
        if i < |a| { assert v in a[i]; } else { assert v in b[i - |a|]; }
      }
      if i :| 0 <= i < |a| && v in a[i] { assert v in all[i]; }
      if i :| 0 <= i < |b| && v in b[i] { assert v in all[|a| + i]; }
    }
  }

  lemma {:induction false} OnePart(q: seq<Clause>, part: Part)
    requires forall i :: 0 <= i < |q| ==> !q[i].Horizon?
    ensures var whole := Extended(part, q);
      Reports(q, part, VarsOf(part.paths)) <==> whole.Reported(VarsOf(whole.paths))
    decreases |q|
  {
    if q != [] {
      assert forall i :: 0 <= i < |q| - 1 ==> q[1..][i] == q[i + 1];
      match q[0] {
        case Match(paths, where) =>
          VarsAppend(part.paths, paths);
          OnePart(q[1..], With(part, paths, where));
        case Other => OnePart(q[1..], part);
      }
    }
  }

  /** A query without WITH or UNWIND is reported exactly when its components, joined by shared variables and
      by everything its predicates mention, form at least two classes. */
  lemma OnePartQuery(q: seq<Clause>)
    requires forall i :: 0 <= i < |q| ==> !q[i].Horizon?
    ensures var whole := Extended(Part([], 1, []), q);
      Reports(q, Part([], 1, []), {}) <==> whole.IsCartesian(VarsOf(whole.paths))
  {
    assert VarsOf([]) == {};
    OnePart(q, Part([], 1, []));
    SinglePartExact(Extended(Part([], 1, []), q));
  }

  function With(part: Part, paths: seq<Path>, where: Option<Pred>): Part {
    Part(part.paths + paths, part.anon, if where.Some? then part.preds + [where.value] else part.preds)
  }

  /** What the structure holds of a part before its predicates are applied. */
  ghost predicate Holds(uf: DisjointSet, paths: seq<Path>, anon: nat)
    reads uf
  {
    uf.Valid() && uf.parent.Keys == KeysIn(paths, anon) && uf.links == Joins(paths, anon)
  }

  method AddComponent(uf: DisjointSet, vars: Path, anon: nat)
    requires uf.Valid()
    modifies uf
    ensures uf.Valid() && uf.parent.Keys == old(uf.parent).Keys + KeysOf(vars, anon)
    ensures uf.links == old(uf.links) + PathLinks(vars, anon)
  {
    hide Vars, LinksTo;
    var anchor := AnchorOf(vars, anon);
    uf.Add(anchor);
    assert vars[..0] == [];
    NoVars(anchor);
    for i := 0 to |vars|
      invariant uf.Valid() && uf.parent.Keys == old(uf.parent).Keys + {anchor} + Vars(vars[..i])
      invariant uf.links == old(uf.links) + LinksTo(anchor, vars[..i])
    {
      assert vars[..i + 1] == vars[..i] + [vars[i]];
      PathPush(anchor, vars[..i], vars[i]);
      AddVar(uf, anchor, Var(vars[i]));
    }
    assert vars[..|vars|] == vars;
  }

  method AddVar(uf: DisjointSet, anchor: Key, v: Key)
    requires uf.Valid() && anchor in uf.parent
    modifies uf
    ensures uf.Valid() && uf.parent.Keys == old(uf.parent).Keys + {v} && uf.links == old(uf.links) + {(anchor, v)}
  {
    uf.Add(v);
    uf.Union(anchor, v);
  }

  method ApplyPredicate(uf: DisjointSet, refs: seq<string>, ghost keys: set<Key>)
    requires uf.Valid() && uf.parent.Keys == keys
    modifies uf
    ensures uf.Valid() && uf.parent.Keys == keys && uf.links == old(uf.links) + PredLinks(refs, keys)
  {
    var i := 1;
    while i < |refs|
      invariant uf.Valid() && uf.parent.Keys == keys && (1 <= i <= |refs| || refs == [])
      invariant uf.links == old(uf.links) + PredLinks(if i <= |refs| then refs[..i] else refs, keys)
    {
      PredLinksNext(refs, i, keys);
      uf.Union(Var(refs[0]), Var(refs[i]));
      i := i + 1;
    }
    assert i <= |refs| ==> refs[..i] == refs;
  }

  lemma PredLinksNext(refs: seq<string>, i: nat, keys: set<Key>)
    requires 1 <= i < |refs|
    ensures PredLinks(refs[..i + 1], keys) == PredLinks(refs[..i], keys)
          + if Var(refs[0]) in keys && Var(refs[i]) in keys then {(Var(refs[0]), Var(refs[i]))} else {}
  {
    var a, b := refs[..i], refs[..i + 1];
    forall l | l in PredLinks(b, keys) ensures l in PredLinks(a, keys) || l == (Var(refs[0]), Var(refs[i])) {
      var j :| 0 < j < |b| && Var(b[0]) in keys && Var(b[j]) in keys && l == (Var(b[0]), Var(b[j]));
      if j < i { assert a[j] == b[j] && a[0] == b[0]; }
    }
    forall l | l in PredLinks(a, keys) ensures l in PredLinks(b, keys) {
      var j :| 0 < j < |a| && Var(a[0]) in keys && Var(a[j]) in keys && l == (Var(a[0]), Var(a[j]));
      assert b[j] == a[j] && b[0] == a[0];
    }
    if Var(refs[0]) in keys && Var(refs[i]) in keys { assert b[i] == refs[i] && b[0] == refs[0]; }
  }

  /** Applies the part's predicates and counts its classes. */
  method SegmentHasCartesian(uf: DisjointSet, ghost part: Part, preds: seq<Pred>, known: set<string>) returns (yes: bool)
    requires Holds(uf, part.paths, part.anon) && preds == part.preds
    modifies uf
    ensures yes <==> part.Reported(known)
  {
    for k := 0 to |preds|
      invariant uf.Valid() && uf.parent.Keys == part.Keys() && uf.links == part.Links(known, k)
    {
      ApplyPredicate(uf, Referenced(preds[k], known), part.Keys());
    }
    yes := uf.AtLeastTwo();
  }

  method AnalyseCartesianProduct(q: seq<Clause>) returns (reported: bool)
    ensures reported <==> Reports(q, Part([], 1, []), {})
    ensures (forall i :: 0 <= i < |q| ==> !q[i].Horizon?) ==>
      var whole := Extended(Part([], 1, []), q); reported <==> whole.IsCartesian(VarsOf(whole.paths))
  {
    if forall i :: 0 <= i < |q| ==> !q[i].Horizon? { OnePartQuery(q); }
    var uf := new DisjointSet();
    var known: set<string>, anon, preds: seq<Pred> := {}, 1, [];
    ghost var part := Part([], 1, []);
    for i := 0 to |q|
      invariant fresh(uf) && Holds(uf, part.paths, part.anon) && preds == part.preds && anon == part.anon + |part.paths|
      invariant Reports(q, Part([], 1, []), {}) <==> Reports(q[i..], part, known)
    {
      assert q[i..][0] == q[i] && q[i..][1..] == q[i + 1..];
      match q[i]
      case Match(paths, where) =>
        AddPaths(uf, part.paths, part.anon, paths, anon);
        anon := anon + |paths|;
        known := known + VarsOf(paths);
        if where.Some? { preds := preds + [where.value]; }
        part := With(part, paths, where);
      case Horizon =>
        var yes := SegmentHasCartesian(uf, part, preds, known);
        if yes { return true; }
        uf := new DisjointSet();
        preds, part := [], Part([], part.anon + |part.paths|, []);
      case Other =>
    }
    assert q[|q|..] == [];
    reported := SegmentHasCartesian(uf, part, preds, known);
  }

  method AddPaths(uf: DisjointSet, ghost before: seq<Path>, ghost first: nat, paths: seq<Path>, anon: nat)
    requires Holds(uf, before, first) && anon == first + |before|
    modifies uf
    ensures Holds(uf, before + paths, first)
  {
    hide KeysIn, Joins, KeysOf, PathLinks;
    assert before + paths[..0] == before;
    for j := 0 to |paths|
      invariant Holds(uf, before + paths[..j], first)
    {
      assert before + paths[..j + 1] == before + paths[..j] + [paths[j]];
      JoinsPush(before + paths[..j], paths[j], first);
      AddComponent(uf, paths[j], anon + j);
    }
    assert paths[..|paths|] == paths;
  }
}
