/** Pushing a key equality whose key is bound above a join down to the scan below it: every row the plan
    emits, in the same order, whether the pushed filter is then evaluated or dropped. */
module BoundKeySeek {

  datatype Option<T> = None | Some(value: T)

  // ------------------------------------------------------------------ values

  datatype Val = Null | NaN | Num(x: real) | Str(s: string) | Bool(b: bool) | NodeRef(n: nat) | List(items: seq<Val>)

  type Row = map<string, Val>

  /** Equality in three-valued logic: null if either side is null, lists element by element. */
  function Eq(a: Val, b: Val): Val
    decreases a, 0
  {
    if a.Null? || b.Null? then Null
    else if a.NaN? || b.NaN? then Bool(false)
    else if a.List? && b.List? then
      if |a.items| != |b.items| then Bool(false) else AllEq(a.items, b.items)
    else Bool(a == b)
  }

  function AllEq(a: seq<Val>, b: seq<Val>): Val
    requires |a| == |b|
    decreases a, 1
  {
    if a == [] then Bool(true) else And(Eq(a[0], b[0]), AllEq(a[1..], b[1..]))
  }

  function And(a: Val, b: Val): Val {
    if a == Bool(false) || b == Bool(false) then Bool(false)
    else if a == Bool(true) && b == Bool(true) then Bool(true) else Null
  }

  function Or(a: Val, b: Val): Val {
    if a == Bool(true) || b == Bool(true) then Bool(true)
    else if a == Bool(false) && b == Bool(false) then Bool(false) else Null
  }

  lemma {:induction false} EqSymmetric(a: Val, b: Val)
    ensures Eq(a, b) == Eq(b, a)
    decreases a, 0
  {
    if a.List? && b.List? && |a.items| == |b.items| { AllEqSymmetric(a.items, b.items); }
  }

  lemma {:induction false} AllEqSymmetric(a: seq<Val>, b: seq<Val>)
    requires |a| == |b|
    ensures AllEq(a, b) == AllEq(b, a)
    decreases a, 1
  {
    if a != [] {
      EqSymmetric(a[0], b[0]);
      AllEqSymmetric(a[1..], b[1..]);
    }
  }

  /** Neither null nor NaN, nor a list with either in it. */
  predicate Solid(a: Val) { !a.Null? && !a.NaN? && (a.List? ==> forall i :: 0 <= i < |a.items| ==> Solid(a.items[i])) }

  /** Two values are truly equal exactly when they are the same and nothing in them is null or NaN. */
  lemma {:induction false} EqTrueIff(a: Val, b: Val)
    ensures Eq(a, b) == Bool(true) <==> a == b && Solid(a)
    decreases a, 0
  {
    if a.List? && b.List? && |a.items| == |b.items| { AllEqTrueIff(a.items, b.items); }
  }

  lemma {:induction false} AllEqTrueIff(a: seq<Val>, b: seq<Val>)
    requires |a| == |b|
    ensures AllEq(a, b) == Bool(true) <==> a == b && forall i :: 0 <= i < |a| ==> Solid(a[i])
    decreases a, 1
  {
    if a != [] {
      EqTrueIff(a[0], b[0]);
      AllEqTrueIff(a[1..], b[1..]);
      assert a == [a[0]] + a[1..] && b == [b[0]] + b[1..];
      assert forall i :: 1 <= i < |a| ==> a[i] == a[1..][i - 1];
    }
  }

  // ------------------------------------------------------------------ expressions and plans

  datatype Expr =
    | Lit(val: Val)
    | Param(name: string)
    | Var(name: string)
    | Prop(on: Expr, key: string)
    | Bin(op: string, left: Expr, right: Expr)
    | ListOf(elems: seq<Expr>)
    | OtherExpr(id: nat)

  datatype Item = Item(name: string, value: Expr)

  /** A hint is a selection the rewrite added: the build may evaluate it or drop it. */
  datatype Plan =
    | Start
    | AllNodesScan(v: string)
    | LabelScan(v: string, lab: string)
    | Selection(pred: Expr, child: Plan)
    | Hint(pred: Expr, child: Plan)
    | Apply(outer: Plan, inner: Plan)
    | Projection(items: seq<Item>, child: Plan)
    | Unwind(list: Expr, v: string, child: Plan)
    | Other(id: nat, child: Plan)
    | OtherPair(id: nat, outer: Plan, inner: Plan)

  /** The graph, the parameters, and what the expressions and operators not modelled here compute. */
  datatype World = World(nodes: seq<nat>, labels: map<nat, set<string>>, props: map<(nat, string), Val>,
                         params: map<string, Val>,
                         expr: (nat, Row) -> Val, unary: (nat, Row, seq<Row>) -> seq<Row>,
                         binary: (nat, Row, seq<Row>, seq<Row>, seq<Row>) -> seq<Row>)

  function Eval(w: World, e: Expr, r: Row): Val {
    match e
    case Lit(v) => v
    case Param(p) => if p in w.params then w.params[p] else Null
    case Var(v) => if v in r then r[v] else Null
    case Prop(on, key) =>
      var x := Eval(w, on, r);
      if x.NodeRef? && (x.n, key) in w.props then w.props[(x.n, key)] else Null
    case Bin(op, a, b) =>
      if op == "=" then Eq(Eval(w, a, r), Eval(w, b, r))
      else if op == "AND" || op == "and" then And(Eval(w, a, r), Eval(w, b, r))
      else if op == "OR" then Or(Eval(w, a, r), Eval(w, b, r))
      else Null
    case ListOf(es) => List(EvalAll(w, es, r))
    case OtherExpr(k) => w.expr(k, r)
  }

  function EvalAll(w: World, es: seq<Expr>, r: Row): (vs: seq<Val>)
    ensures |vs| == |es|
    ensures forall i :: 0 <= i < |es| ==> vs[i] == Eval(w, es[i], r)
  {
    if es == [] then [] else [Eval(w, es[0], r)] + EvalAll(w, es[1..], r)
  }

  function Keep(w: World, pred: Expr, rows: seq<Row>): seq<Row> {
    if rows == [] then []
    else (if Eval(w, pred, rows[0]) == Bool(true) then [rows[0]] else []) + Keep(w, pred, rows[1..])
  }

  /** One row per node, on top of the row the scan is run for. */
  function Scanned(w: World, v: string, lab: Option<string>, ns: seq<nat>, base: Row): seq<Row> {
    if ns == [] then []
    else
      var rest := Scanned(w, v, lab, ns[1..], base);
      if lab.None? || (ns[0] in w.labels && lab.value in w.labels[ns[0]]) then [base[v := NodeRef(ns[0])]] + rest else rest
  }

  function Bind(w: World, items: seq<Item>, r: Row): Row {
    if items == [] then map[] else Bind(w, items[1..], r)[items[0].name := Eval(w, items[0].value, r)]
  }

  function Projected(w: World, items: seq<Item>, rows: seq<Row>): seq<Row> {
    if rows == [] then [] else [Bind(w, items, rows[0])] + Projected(w, items, rows[1..])
  }

  function Spread(r: Row, v: string, vs: seq<Val>): seq<Row> {
    if vs == [] then [] else [r[v := vs[0]]] + Spread(r, v, vs[1..])
  }

  /** One row for each element; none for null or an empty list. */
  function Unwound(w: World, list: Expr, v: string, rows: seq<Row>): seq<Row> {
    if rows == [] then []
    else
      var x := Eval(w, list, rows[0]);
      Spread(rows[0], v, if x.List? then x.items else []) + Unwound(w, list, v, rows[1..])
  }

  function Joined(r: Row, rows: seq<Row>): seq<Row> {
    if rows == [] then [] else [r + rows[0]] + Joined(r, rows[1..])
  }

  /** The rows a plan emits, run for one row of the enclosing scope. */
  function RowsOf(w: World, p: Plan, base: Row): seq<Row>
    decreases p, 0
  {
    match p
    case Start => [base]
    case AllNodesScan(v) => Scanned(w, v, None, w.nodes, base)
    case LabelScan(v, lab) => Scanned(w, v, Some(lab), w.nodes, base)
    case Selection(pred, child) => Keep(w, pred, RowsOf(w, child, base))
    case Hint(pred, child) => Keep(w, pred, RowsOf(w, child, base))
    case Apply(outer, inner) => Applied(w, inner, RowsOf(w, outer, base))
    case Projection(items, child) => Projected(w, items, RowsOf(w, child, base))
    case Unwind(list, v, child) => Unwound(w, list, v, RowsOf(w, child, base))
    case Other(id, child) => w.unary(id, base, RowsOf(w, child, base))
    case OtherPair(id, outer, inner) =>
      var rows := RowsOf(w, outer, base);
      w.binary(id, base, rows, RowsOf(w, inner, base), Applied(w, inner, rows))
  }

  /** The inner plan, run for each of the outer rows in turn. */
  function Applied(w: World, inner: Plan, rows: seq<Row>): seq<Row>
    decreases inner, 1, |rows|
  {
    if rows == [] then [] else Joined(rows[0], RowsOf(w, inner, rows[0])) + Applied(w, inner, rows[1..])
  }

  // ------------------------------------------------------------------ the rewrite

  predicate Leaf(p: Plan) { p.AllNodesScan? || p.LabelScan? }

  function AndConjuncts(e: Expr): seq<Expr> {
    if e.Bin? && (e.op == "AND" || e.op == "and") then AndConjuncts(e.left) + AndConjuncts(e.right) else [e]
  }

  /** The same value on every row, and one a seek can use: a null is not. */
  predicate FoldableKey(e: Expr) { e.Param? || (e.Lit? && (e.val.Str? || e.val.Num? || e.val.NaN? || e.val.Bool?)) }

  /** In a set the other keys make the seek, so a null may stand among them. */
  predicate FoldableElement(e: Expr) { e == Lit(Null) || FoldableKey(e) }

  function ItemNamed(items: seq<Item>, name: string): Option<Expr> {
    if items == [] then None else if items[0].name == name then Some(items[0].value) else ItemNamed(items[1..], name)
  }

  function FoldableBinding(outer: Plan, name: string): Option<Expr> {
    if !outer.Projection? then None
    else match ItemNamed(outer.items, name)
      case Some(e) => if FoldableKey(e) then Some(e) else None
      case None => None
  }

  function UnwoundKeys(outer: Plan, name: string): (r: Option<seq<Expr>>)
    ensures r.Some? ==> |r.value| > 0
  {
    if !outer.Unwind? || outer.v != name || !outer.list.ListOf? || outer.list.elems == [] then None
    else if forall i :: 0 <= i < |outer.list.elems| ==> FoldableElement(outer.list.elems[i]) then Some(outer.list.elems)
    else None
  }

  /** prop = k0 OR (prop = k1 OR ...). */
  function Disjunction(prop: Expr, keys: seq<Expr>): Expr
    requires |keys| > 0
  {
    if |keys| == 1 then Bin("=", prop, keys[0]) else Bin("OR", Bin("=", prop, keys[0]), Disjunction(prop, keys[1..]))
  }

  method EqualityDisjunction(prop: Expr, keys: seq<Expr>) returns (e: Expr)
    requires |keys| > 0
    ensures e == Disjunction(prop, keys)
  {
    e := Bin("=", prop, keys[|keys| - 1]);
    var i := |keys| - 1;
    while i > 0
      invariant 0 <= i < |keys|
      invariant e == Disjunction(prop, keys[i..])
    {
      i := i - 1;
      assert keys[i..][1..] == keys[i + 1..];
      e := Bin("OR", Bin("=", prop, keys[i]), e);
    }
    assert keys[0..] == keys;
  }

  predicate KeyedOn(prop: Expr, key: Expr, v: string) {
    prop.Prop? && prop.on == Var(v) && key.Var? && key.name != v
  }

  function PushSide(prop: Expr, key: Expr, v: string, outer: Plan): Option<Expr> {
    if !KeyedOn(prop, key, v) then None
    else match FoldableBinding(outer, key.name)
      case Some(bound) => Some(Bin("=", prop, bound))
      case None =>
        match UnwoundKeys(outer, key.name)
        case Some(keys) => Some(Disjunction(prop, keys))
        case None => None
  }

  /** Both operand orders of one conjunct. */
  function PushOne(c: Expr, v: string, outer: Plan): Option<Expr> {
    if !c.Bin? || c.op != "=" then None
    else match PushSide(c.left, c.right, v, outer)
      case Some(e) => Some(e)
      case None => PushSide(c.right, c.left, v, outer)
  }

  function FirstPush(cs: seq<Expr>, v: string, outer: Plan): Option<Expr> {
    if cs == [] then None
    else match PushOne(cs[0], v, outer) case Some(e) => Some(e) case None => FirstPush(cs[1..], v, outer)
  }

  function Pushable(pred: Expr, v: string, outer: Plan): Option<Expr> { FirstPush(AndConjuncts(pred), v, outer) }

  method PushableKeyEquality(pred: Expr, v: string, outer: Plan) returns (r: Option<Expr>)
    ensures r == Pushable(pred, v, outer)
  {
    var cs := AndConjuncts(pred);
    for i := 0 to |cs|
      invariant FirstPush(cs, v, outer) == FirstPush(cs[i..], v, outer)
    {
      assert cs[i..][1..] == cs[i + 1..];
      if cs[i].Bin? && cs[i].op == "=" {
        var sides := [(cs[i].left, cs[i].right), (cs[i].right, cs[i].left)];
        for k := 0 to 2
          invariant forall j :: 0 <= j < k ==> PushSide(sides[j].0, sides[j].1, v, outer).None?
        {
          var (prop, key) := sides[k];
          if KeyedOn(prop, key, v) {
            var bound := FoldableBinding(outer, key.name);
            if bound.Some? { return Some(Bin("=", prop, bound.value)); }
            var keys := UnwoundKeys(outer, key.name);
            if keys.Some? {
              var e := EqualityDisjunction(prop, keys.value);
              return Some(e);
            }
          }
        }
        assert PushSide(sides[0].0, sides[0].1, v, outer).None? && PushSide(sides[1].0, sides[1].1, v, outer).None?;
      }
    }
    return None;
  }

  // ------------------------------------------------------------------ when a key is pushed

  /** The same on every row: a parameter, or a literal that is not null and that a seek can use. */
  predicate Invariant(e: Expr) {
    match e
    case Param(_) => true
    case Lit(x) => x.Num? || x.NaN? || x.Str? || x.Bool?
    case _ => false
  }

  /** Position i is the first item of the name, and its value is the same on every row. */
  predicate Names(items: seq<Item>, name: string, i: int) {
    && 0 <= i < |items| && items[i].name == name && Invariant(items[i].value)
    && forall j :: 0 <= j < i ==> items[j].name != name
  }

  /** The plan gives the variable such a key, or one of a set of them, among which a null may stand. */
  ghost predicate Supplies(outer: Plan, name: string) {
    match outer
    case Projection(items, _) => exists i :: Names(items, name, i)
    case Unwind(list, v, _) =>
      && v == name && list.ListOf? && list.elems != []
      && forall i :: 0 <= i < |list.elems| ==> Invariant(list.elems[i]) || list.elems[i] == Lit(Null)
    case _ => false
  }

  /** One side is a property of the scan's variable, the other a variable the plan supplies. */
  ghost predicate SideOffers(prop: Expr, key: Expr, v: string, outer: Plan) {
    prop.Prop? && prop.on == Var(v) && key.Var? && key.name != v && Supplies(outer, key.name)
  }

  /** The conjunct is an equality of the two, written either way round. */
  ghost predicate Offers(c: Expr, v: string, outer: Plan) {
    c.Bin? && c.op == "=" && (SideOffers(c.left, c.right, v, outer) || SideOffers(c.right, c.left, v, outer))
  }

  lemma {:induction false} NamedFirst(items: seq<Item>, name: string)
    ensures (ItemNamed(items, name).Some? && Invariant(ItemNamed(items, name).value)) <==> exists i :: Names(items, name, i)
  {
    if items != [] {
      if items[0].name == name {
        assert Names(items, name, 0) <==> Invariant(items[0].value);
      } else {
        NamedFirst(items[1..], name);
        forall i ensures Names(items, name, i + 1) <==> Names(items[1..], name, i) { NamesNext(items, name, i); }
        assert forall i :: Names(items, name, i) ==> Names(items[1..], name, i - 1) by {
          forall i | Names(items, name, i) ensures Names(items[1..], name, i - 1) { NamesNext(items, name, i - 1); }
        }
      }
    }
  }

  lemma NamesNext(items: seq<Item>, name: string, i: int)
    requires items != [] && items[0].name != name
    ensures Names(items, name, i + 1) <==> Names(items[1..], name, i)
  {
    assert forall j :: 0 <= j < |items| - 1 ==> items[1..][j] == items[j + 1];
    if Names(items[1..], name, i) {
      forall j | 0 <= j < i + 1 ensures items[j].name != name { if j > 0 { assert items[1..][j - 1] == items[j]; } }
    }
  }

  lemma SideIff(prop: Expr, key: Expr, v: string, outer: Plan)
    ensures PushSide(prop, key, v, outer).Some? <==> SideOffers(prop, key, v, outer)
  {
    if key.Var? && outer.Projection? { NamedFirst(outer.items, key.name); }
  }

  ghost predicate SomeOffers(cs: seq<Expr>, v: string, outer: Plan) { exists i :: 0 <= i < |cs| && Offers(cs[i], v, outer) }

  /** Something is pushed exactly when some conjunct offers it. */
  lemma PushableIff(pred: Expr, v: string, outer: Plan)
    ensures Pushable(pred, v, outer).Some? <==> SomeOffers(AndConjuncts(pred), v, outer)
  {
    FirstIff(AndConjuncts(pred), v, outer);
  }

  lemma {:induction false} FirstIff(cs: seq<Expr>, v: string, outer: Plan)
    ensures FirstPush(cs, v, outer).Some? <==> SomeOffers(cs, v, outer)
  {
    hide Offers, PushOne;
    if cs != [] {
      FirstIff(cs[1..], v, outer);
      OneIff(cs[0], v, outer);
      if i :| 0 <= i < |cs| && Offers(cs[i], v, outer) && i > 0 { assert cs[1..][i - 1] == cs[i]; }
      if i :| 0 <= i < |cs[1..]| && Offers(cs[1..][i], v, outer) { assert cs[i + 1] == cs[1..][i]; }
    }
  }

  lemma OneIff(c: Expr, v: string, outer: Plan)
    ensures PushOne(c, v, outer).Some? <==> Offers(c, v, outer)
  {
    hide PushSide, SideOffers;
    if c.Bin? {
      SideIff(c.left, c.right, v, outer);
      SideIff(c.right, c.left, v, outer);
    }
  }

  /** Every selection over a join whose inner arm is a bare scan gets its hint. */
  function Fold(p: Plan): Plan {
    match p
    case Selection(pred, child) =>
      if child.Apply? && Leaf(child.inner) && Pushable(pred, child.inner.v, child.outer).Some? then
        Selection(pred, Apply(Fold(child.outer), Hint(Pushable(pred, child.inner.v, child.outer).value, child.inner)))
      else Selection(pred, Fold(child))
    case Hint(pred, child) => Hint(pred, Fold(child))
    case Apply(outer, inner) => Apply(Fold(outer), Fold(inner))
    case Projection(items, child) => Projection(items, Fold(child))
    case Unwind(list, v, child) => Unwind(list, v, Fold(child))
    case Other(id, child) => Other(id, Fold(child))
    case OtherPair(id, outer, inner) => OtherPair(id, Fold(outer), Fold(inner))
    case _ => p
  }

  /** No selection over a join with a bare scan is left that could push a key to it. */
  ghost predicate NoneLeft(p: Plan) {
    match p
    case Selection(pred, c) =>
      && NoneLeft(c)
      && (c.Apply? && (c.inner.AllNodesScan? || c.inner.LabelScan?) ==> !SomeOffers(AndConjuncts(pred), c.inner.v, c.outer))
    case Hint(_, c) => NoneLeft(c)
    case Apply(a, b) => NoneLeft(a) && NoneLeft(b)
    case Projection(_, c) => NoneLeft(c)
    case Unwind(_, _, c) => NoneLeft(c)
    case Other(_, c) => NoneLeft(c)
    case OtherPair(_, a, b) => NoneLeft(a) && NoneLeft(b)
    case _ => true
  }

  /** The plan without its hints. */
  function Erased(p: Plan): Plan {
    match p
    case Hint(_, c) => Erased(c)
    case Selection(pred, c) => Selection(pred, Erased(c))
    case Apply(a, b) => Apply(Erased(a), Erased(b))
    case Projection(items, c) => Projection(items, Erased(c))
    case Unwind(list, v, c) => Unwind(list, v, Erased(c))
    case Other(id, c) => Other(id, Erased(c))
    case OtherPair(id, a, b) => OtherPair(id, Erased(a), Erased(b))
    case _ => p
  }

  /** The rewrite adds hints and nothing else. */
  lemma {:induction false} OnlyHints(p: Plan)
    ensures Erased(Fold(p)) == Erased(p)
  {
    match p
    case Selection(pred, child) =>
      OnlyHints(child);
      if child.Apply? && Leaf(child.inner) {
        OnlyHints(child.outer);
        assert Erased(child) == Apply(Erased(child.outer), child.inner);
        assert forall k :: Erased(Apply(Fold(child.outer), Hint(k, child.inner))) == Apply(Erased(Fold(child.outer)), child.inner);
      }
    case Hint(_, child) => OnlyHints(child);
    case Apply(a, b) =>
      OnlyHints(a);
      OnlyHints(b);
    case Projection(_, child) => OnlyHints(child);
    case Unwind(_, _, child) => OnlyHints(child);
    case Other(_, child) => OnlyHints(child);
    case OtherPair(_, a, b) =>
      OnlyHints(a);
      OnlyHints(b);
    case _ =>
  }

  predicate Unhinted(p: Plan) {
    match p
    case Hint(_, _) => false
    case Selection(_, c) => Unhinted(c)
    case Apply(a, b) => Unhinted(a) && Unhinted(b)
    case Projection(_, c) => Unhinted(c)
    case Unwind(_, _, c) => Unhinted(c)
    case Other(_, c) => Unhinted(c)
    case OtherPair(_, a, b) => Unhinted(a) && Unhinted(b)
    case _ => true
  }

  lemma {:induction false} HintsErased(p: Plan)
    ensures Unhinted(Erased(p))
    ensures Unhinted(p) <==> Erased(p) == p
  {
    match p
    case Hint(_, c) => HintsErased(c);
    case Selection(_, c) => HintsErased(c);
    case Apply(a, b) =>
      HintsErased(a);
      HintsErased(b);
    case Projection(_, c) => HintsErased(c);
    case Unwind(_, _, c) => HintsErased(c);
    case Other(_, c) => HintsErased(c);
    case OtherPair(_, a, b) =>
      HintsErased(a);
      HintsErased(b);
    case _ =>
  }

  /** q is p built: each hint on its own either evaluated as a filter or dropped. */
  predicate Built(p: Plan, q: Plan) {
    match p
    case Hint(pred, c) => Built(c, q) || (q.Selection? && q.pred == pred && Built(c, q.child))
    case Selection(pred, c) => q.Selection? && q.pred == pred && Built(c, q.child)
    case Apply(a, b) => q.Apply? && Built(a, q.outer) && Built(b, q.inner)
    case Projection(items, c) => q.Projection? && q.items == items && Built(c, q.child)
    case Unwind(list, v, c) => q.Unwind? && q.list == list && q.v == v && Built(c, q.child)
    case Other(id, c) => q.Other? && q.id == id && Built(c, q.child)
    case OtherPair(id, a, b) => q.OtherPair? && q.id == id && Built(a, q.outer) && Built(b, q.inner)
    case _ => q == p
  }

  /** The plan with every hint made a filter. */
  function Evaluated(p: Plan): Plan {
    match p
    case Hint(pred, c) => Selection(pred, Evaluated(c))
    case Selection(pred, c) => Selection(pred, Evaluated(c))
    case Apply(a, b) => Apply(Evaluated(a), Evaluated(b))
    case Projection(items, c) => Projection(items, Evaluated(c))
    case Unwind(list, v, c) => Unwind(list, v, Evaluated(c))
    case Other(id, c) => Other(id, Evaluated(c))
    case OtherPair(id, a, b) => OtherPair(id, Evaluated(a), Evaluated(b))
    case _ => p
  }

  /** A build may drop every hint, or evaluate every one. */
  lemma {:induction false} EitherWay(p: Plan)
    ensures Built(p, Erased(p)) && Built(p, Evaluated(p))
  {
    match p
    case Hint(_, c) => EitherWay(c);
    case Selection(_, c) => EitherWay(c);
    case Apply(a, b) =>
      EitherWay(a);
      EitherWay(b);
    case Projection(_, c) => EitherWay(c);
    case Unwind(_, _, c) => EitherWay(c);
    case Other(_, c) => EitherWay(c);
    case OtherPair(_, a, b) =>
      EitherWay(a);
      EitherWay(b);
    case _ =>
  }

  // ------------------------------------------------------------------ why the pushed filter loses no row

  /** A disjunction of equalities is true of a row exactly when one of its keys equals the property, and false
      exactly when none may; a null among them leaves it open. */
  lemma {:induction false} DisjunctionTrue(w: World, prop: Expr, keys: seq<Expr>, r: Row)
    requires |keys| > 0
    ensures Eval(w, Disjunction(prop, keys), r) == Bool(true) <==>
            exists j :: 0 <= j < |keys| && Eq(Eval(w, prop, r), Eval(w, keys[j], r)) == Bool(true)
    ensures Eval(w, Disjunction(prop, keys), r) == Bool(false) <==>
            forall j :: 0 <= j < |keys| ==> Eq(Eval(w, prop, r), Eval(w, keys[j], r)) == Bool(false)
  {
    if |keys| > 1 {
      DisjunctionTrue(w, prop, keys[1..], r);
      assert forall j :: 0 <= j < |keys| - 1 ==> keys[1..][j] == keys[j + 1];
      assert forall j :: 1 <= j < |keys| ==> keys[j] == keys[1..][j - 1];
    }
  }

  predicate AllTrue(w: World, es: seq<Expr>, r: Row) { forall i :: 0 <= i < |es| ==> Eval(w, es[i], r) == Bool(true) }

  lemma AllTrueAppend(w: World, a: seq<Expr>, b: seq<Expr>, r: Row)
    ensures AllTrue(w, a + b, r) <==> AllTrue(w, a, r) && AllTrue(w, b, r)
  {
    hide Eval;
    if AllTrue(w, a + b, r) {
      forall i | 0 <= i < |a| ensures Eval(w, a[i], r) == Bool(true) { assert (a + b)[i] == a[i]; }
      forall i | 0 <= i < |b| ensures Eval(w, b[i], r) == Bool(true) { assert (a + b)[|a| + i] == b[i]; }
    }
  }

  /** A predicate is true of exactly the rows every conjunct is true of. */
  lemma {:induction false} ConjunctsTrue(w: World, pred: Expr, r: Row)
    ensures Eval(w, pred, r) == Bool(true) <==> AllTrue(w, AndConjuncts(pred), r)
  {
    if pred.Bin? && (pred.op == "AND" || pred.op == "and") {
      ConjunctsTrue(w, pred.left, r);
      ConjunctsTrue(w, pred.right, r);
      AllTrueAppend(w, AndConjuncts(pred.left), AndConjuncts(pred.right), r);
      assert AndConjuncts(pred) == AndConjuncts(pred.left) + AndConjuncts(pred.right);
    } else {
      assert AndConjuncts(pred) == [pred];
      assert AllTrue(w, [pred], r) <==> Eval(w, [pred][0], r) == Bool(true);
    }
  }

  lemma {:induction false} FirstPushed(cs: seq<Expr>, v: string, outer: Plan) returns (i: nat)
    requires FirstPush(cs, v, outer).Some?
    ensures i < |cs| && PushOne(cs[i], v, outer) == FirstPush(cs, v, outer)
  {
    if PushOne(cs[0], v, outer).Some? { return 0; }
    var j := FirstPushed(cs[1..], v, outer);
    return j + 1;
  }

  lemma {:induction false} Bound(w: World, items: seq<Item>, name: string, r: Row)
    requires ItemNamed(items, name).Some?
    ensures name in Bind(w, items, r) && Bind(w, items, r)[name] == Eval(w, ItemNamed(items, name).value, r)
  {
    if items[0].name != name { Bound(w, items[1..], name, r); }
  }

  /** Every row under a foldable projection holds the key, and the key is the same on any row. */
  lemma {:induction false} BindingHolds(w: World, items: seq<Item>, rows: seq<Row>, name: string, o: Row, r: Row)
    requires ItemNamed(items, name).Some? && FoldableKey(ItemNamed(items, name).value) && o in Projected(w, items, rows)
    ensures name in o && o[name] == Eval(w, ItemNamed(items, name).value, r)
  {
    Bound(w, items, name, rows[0]);
    if o != Bind(w, items, rows[0]) { BindingHolds(w, items, rows[1..], name, o, r); }
  }

  lemma {:induction false} SpreadHolds(row: Row, v: string, vs: seq<Val>, o: Row)
    requires o in Spread(row, v, vs)
    ensures v in o && o[v] in vs
  {
    if o != row[v := vs[0]] { SpreadHolds(row, v, vs[1..], o); }
  }

  /** Every row under an unwound key set holds one of the keys. */
  lemma {:induction false} KeySetHolds(w: World, es: seq<Expr>, v: string, rows: seq<Row>, o: Row, r: Row)
    requires (forall i :: 0 <= i < |es| ==> FoldableElement(es[i])) && o in Unwound(w, ListOf(es), v, rows)
    ensures v in o && exists j :: 0 <= j < |es| && o[v] == Eval(w, es[j], r)
  {
    var here := Spread(rows[0], v, EvalAll(w, es, rows[0]));
    if o in here {
      SpreadHolds(rows[0], v, EvalAll(w, es, rows[0]), o);
      var j :| 0 <= j < |es| && o[v] == EvalAll(w, es, rows[0])[j];
      assert Eval(w, es[j], rows[0]) == Eval(w, es[j], r);
    } else {
      KeySetHolds(w, es, v, rows[1..], o, r);
    }
  }

  /** The pushed equality holds of every joined row on which the conjunct it came from does. */
  lemma SideImplied(w: World, prop: Expr, key: Expr, v: string, outer: Plan, base: Row, o: Row, r: Row)
    requires PushSide(prop, key, v, outer).Some? && o in RowsOf(w, outer, base)
    requires key.name in o ==> key.name in r && r[key.name] == o[key.name]
    requires Eq(Eval(w, prop, r), Eval(w, key, r)) == Bool(true)
    ensures Eval(w, PushSide(prop, key, v, outer).value, r) == Bool(true)
  {
    if FoldableBinding(outer, key.name).Some? {
      BindingHolds(w, outer.items, RowsOf(w, outer.child, base), key.name, o, r);
    } else {
      var keys := UnwoundKeys(outer, key.name).value;
      KeySetHolds(w, keys, outer.v, RowsOf(w, outer.child, base), o, r);
      DisjunctionTrue(w, prop, keys, r);
    }
  }

  /** On every row that extends o by a node at v, k holds wherever pred does. */
  ghost predicate Implied(w: World, pred: Expr, k: Expr, v: string, o: Row) {
    forall n: nat {:trigger NodeRef(n)} ::
      Eval(w, pred, o[v := NodeRef(n)]) == Bool(true) ==> Eval(w, k, o[v := NodeRef(n)]) == Bool(true)
  }

  lemma PushedImplied(w: World, pred: Expr, v: string, outer: Plan, base: Row, o: Row, n: nat)
    requires Pushable(pred, v, outer).Some? && o in RowsOf(w, outer, base)
    requires Eval(w, pred, o[v := NodeRef(n)]) == Bool(true)
    ensures Eval(w, Pushable(pred, v, outer).value, o[v := NodeRef(n)]) == Bool(true)
  {
    var r := o[v := NodeRef(n)];
    var cs := AndConjuncts(pred);
    var i := FirstPushed(cs, v, outer);
    ConjunctsTrue(w, pred, r);
    var c := cs[i];
    if PushSide(c.left, c.right, v, outer).Some? {
      SideImplied(w, c.left, c.right, v, outer, base, o, r);
    } else {
      EqSymmetric(Eval(w, c.left, r), Eval(w, c.right, r));
      SideImplied(w, c.right, c.left, v, outer, base, o, r);
    }
  }

  lemma {:induction false} KeepAppend(w: World, pred: Expr, a: seq<Row>, b: seq<Row>)
    ensures Keep(w, pred, a + b) == Keep(w, pred, a) + Keep(w, pred, b)
  {
    if a == [] {
      assert a + b == b;
    } else {
      assert (a + b)[1..] == a[1..] + b;
      KeepAppend(w, pred, a[1..], b);
    }
  }

  lemma KeepJoinedHead(w: World, pred: Expr, o: Row, r: Row, rest: seq<Row>)
    requires o + r == r
    ensures Keep(w, pred, Joined(o, [r] + rest)) ==
            (if Eval(w, pred, r) == Bool(true) then [r] else []) + Keep(w, pred, Joined(o, rest))
  {
    assert ([r] + rest)[1..] == rest;
    assert Joined(o, [r] + rest) == [r] + Joined(o, rest);
    assert ([r] + Joined(o, rest))[1..] == Joined(o, rest);
  }

  /** Filtering a scan first by what the filter above implies changes nothing above. */
  lemma {:induction false} KeepScan(w: World, pred: Expr, k: Expr, v: string, lab: Option<string>, ns: seq<nat>, o: Row)
    requires Implied(w, pred, k, v, o)
    ensures Keep(w, pred, Joined(o, Keep(w, k, Scanned(w, v, lab, ns, o)))) == Keep(w, pred, Joined(o, Scanned(w, v, lab, ns, o)))
  {
    if ns != [] {
      KeepScan(w, pred, k, v, lab, ns[1..], o);
      if lab.None? || (ns[0] in w.labels && lab.value in w.labels[ns[0]]) {
        var r := o[v := NodeRef(ns[0])];
        var rest := Scanned(w, v, lab, ns[1..], o);
        var kept := Keep(w, k, rest);
        assert o + r == r;
        KeepJoinedHead(w, pred, o, r, rest);
        KeepJoinedHead(w, pred, o, r, kept);
        assert ([r] + rest)[1..] == rest;
        assert Keep(w, k, [r] + rest) == (if Eval(w, k, r) == Bool(true) then [r] + kept else kept);
      }
    }
  }

  function LeafLabel(p: Plan): Option<string>
    requires Leaf(p)
  {
    if p.LabelScan? then Some(p.lab) else None
  }

  lemma KeepOneRow(w: World, pred: Expr, leaf: Plan, outer: Plan, base: Row, o: Row)
    requires Leaf(leaf) && Pushable(pred, leaf.v, outer).Some? && o in RowsOf(w, outer, base)
    ensures Keep(w, pred, Joined(o, RowsOf(w, Selection(Pushable(pred, leaf.v, outer).value, leaf), o))) ==
            Keep(w, pred, Joined(o, RowsOf(w, leaf, o)))
  {
    hide Pushable, Joined, Eval;
    var k := Pushable(pred, leaf.v, outer).value;
    assert Implied(w, pred, k, leaf.v, o) by {
      forall n: nat | Eval(w, pred, o[leaf.v := NodeRef(n)]) == Bool(true)
        ensures Eval(w, k, o[leaf.v := NodeRef(n)]) == Bool(true)
      {
        PushedImplied(w, pred, leaf.v, outer, base, o, n);
      }
    }
    assert RowsOf(w, leaf, o) == Scanned(w, leaf.v, LeafLabel(leaf), w.nodes, o);
    KeepScan(w, pred, k, leaf.v, LeafLabel(leaf), w.nodes, o);
  }

  lemma {:induction false} KeepApplied(w: World, pred: Expr, leaf: Plan, outer: Plan, base: Row, rows: seq<Row>)
    requires Leaf(leaf) && Pushable(pred, leaf.v, outer).Some?
    requires forall i :: 0 <= i < |rows| ==> rows[i] in RowsOf(w, outer, base)
    ensures Keep(w, pred, Applied(w, Selection(Pushable(pred, leaf.v, outer).value, leaf), rows)) ==
            Keep(w, pred, Applied(w, leaf, rows))
  {
    if rows != [] {
      var hinted := Selection(Pushable(pred, leaf.v, outer).value, leaf);
      KeepApplied(w, pred, leaf, outer, base, rows[1..]);
      KeepOneRow(w, pred, leaf, outer, base, rows[0]);
      KeepAppend(w, pred, Joined(rows[0], RowsOf(w, hinted, rows[0])), Applied(w, hinted, rows[1..]));
      KeepAppend(w, pred, Joined(rows[0], RowsOf(w, leaf, rows[0])), Applied(w, leaf, rows[1..]));
    }
  }

  lemma {:induction false} AppliedSame(w: World, a: Plan, b: Plan, rows: seq<Row>)
    requires forall r: Row :: RowsOf(w, a, r) == RowsOf(w, b, r)
    ensures Applied(w, a, rows) == Applied(w, b, rows)
  {
    if rows != [] { AppliedSame(w, a, b, rows[1..]); }
  }

  /** The rewritten plan emits the rows of the plan as written, in the same order and run for any row of
      the enclosing scope, whichever of its hints the build evaluates and whichever it drops. */
  lemma {:induction false} FoldKeepsRows(w: World, p: Plan, q: Plan, base: Row)
    requires Unhinted(p) && Built(Fold(p), q)
    ensures RowsOf(w, q, base) == RowsOf(w, p, base)
    decreases p, 1
  {
    match p {
      case Selection(pred, child) =>
        if child.Apply? && Leaf(child.inner) && Pushable(pred, child.inner.v, child.outer).Some? {
          SiteKeepsRows(w, p, q, base);
        } else {
          FoldKeepsRows(w, child, q.child, base);
        }
      case Apply(_, _) => ArmsKeepRows(w, p, q, base);
      case OtherPair(_, outer, inner) =>
        ArmsKeepRows(w, p, q, base);
        FoldKeepsRows(w, inner, q.inner, base);
      case Projection(_, child) => FoldKeepsRows(w, child, q.child, base);
      case Unwind(_, _, child) => FoldKeepsRows(w, child, q.child, base);
      case Other(_, child) => FoldKeepsRows(w, child, q.child, base);
      case _ =>
    }
  }

  lemma {:induction false} ArmsKeepRows(w: World, p: Plan, q: Plan, base: Row)
    requires (p.Apply? && q.Apply?) || (p.OtherPair? && q.OtherPair?)
    requires Unhinted(p) && Built(Fold(p.outer), q.outer) && Built(Fold(p.inner), q.inner)
    ensures RowsOf(w, q.outer, base) == RowsOf(w, p.outer, base)
    ensures Applied(w, q.inner, RowsOf(w, q.outer, base)) == Applied(w, p.inner, RowsOf(w, p.outer, base))
    decreases p, 0
  {
    FoldKeepsRows(w, p.outer, q.outer, base);
    forall b: Row ensures RowsOf(w, q.inner, b) == RowsOf(w, p.inner, b) { FoldKeepsRows(w, p.inner, q.inner, b); }
    AppliedSame(w, q.inner, p.inner, RowsOf(w, p.outer, base));
  }

  lemma BuiltHint(k: Expr, leaf: Plan, q: Plan)
    requires Leaf(leaf) && Built(Hint(k, leaf), q)
    ensures q == leaf || q == Selection(k, leaf)
  {
    if q.Selection? { assert !Built(leaf, q); }
  }

  lemma {:induction false} SiteKeepsRows(w: World, p: Plan, q: Plan, base: Row)
    requires p.Selection? && p.child.Apply? && Leaf(p.child.inner)
    requires Pushable(p.pred, p.child.inner.v, p.child.outer).Some?
    requires Unhinted(p) && Built(Fold(p), q)
    ensures RowsOf(w, q, base) == RowsOf(w, p, base)
    decreases p, 0
  {
    var outer, leaf := p.child.outer, p.child.inner;
    var k := Pushable(p.pred, leaf.v, outer).value;
    assert Fold(p) == Selection(p.pred, Apply(Fold(outer), Hint(k, leaf)));
    assert Built(Apply(Fold(outer), Hint(k, leaf)), q.child) && q.pred == p.pred;
    BuiltHint(k, leaf, q.child.inner);
    FoldKeepsRows(w, outer, q.child.outer, base);
    KeepApplied(w, p.pred, leaf, outer, base, RowsOf(w, outer, base));
  }

  // ------------------------------------------------------------------ a second pass changes nothing

  lemma FoldKeepsTop(p: Plan, name: string)
    ensures FoldableBinding(Fold(p), name) == FoldableBinding(p, name) && UnwoundKeys(Fold(p), name) == UnwoundKeys(p, name)
    ensures Leaf(Fold(p)) == Leaf(p) && (Leaf(p) ==> Fold(p) == p) && Fold(p).Apply? == p.Apply?
  {
  }

  lemma {:induction false} PushableSame(cs: seq<Expr>, v: string, outer: Plan)
    ensures FirstPush(cs, v, Fold(outer)) == FirstPush(cs, v, outer)
  {
    if cs != [] {
      PushableSame(cs[1..], v, outer);
      if cs[0].Bin? && cs[0].right.Var? { FoldKeepsTop(outer, cs[0].right.name); }
      if cs[0].Bin? && cs[0].left.Var? { FoldKeepsTop(outer, cs[0].left.name); }
    }
  }

  lemma {:induction false} FoldTwice(p: Plan)
    ensures Fold(Fold(p)) == Fold(p)
  {
    match p {
      case Selection(pred, child) =>
        if child.Apply? && Leaf(child.inner) && Pushable(pred, child.inner.v, child.outer).Some? {
          FoldTwice(child.outer);
          var hint := Hint(Pushable(pred, child.inner.v, child.outer).value, child.inner);
          assert Fold(child.inner) == child.inner;
          assert Fold(Apply(Fold(child.outer), hint)) == Apply(Fold(child.outer), hint);
        } else {
          FoldTwice(child);
          if child.Apply? {
            FoldKeepsTop(child.inner, "");
            if Leaf(child.inner) { PushableSame(AndConjuncts(pred), child.inner.v, child.outer); }
          } else {
            FoldKeepsTop(child, "");
          }
        }
      case Hint(_, child) => FoldTwice(child);
      case Apply(outer, inner) =>
        FoldTwice(outer);
        FoldTwice(inner);
      case OtherPair(_, outer, inner) =>
        FoldTwice(outer);
        FoldTwice(inner);
      case Projection(_, child) => FoldTwice(child);
      case Unwind(_, _, child) => FoldTwice(child);
      case Other(_, child) => FoldTwice(child);
      case _ =>
    }
  }

  // ------------------------------------------------------------------ and a first pass leaves nothing to push

  /** After the rewrite no key that could be pushed is left unpushed. */
  lemma {:induction false} FoldLeavesNone(p: Plan)
    ensures NoneLeft(Fold(p))
  {
    hide Offers;
    match p {
      case Selection(pred, child) =>
        if child.Apply? && Leaf(child.inner) && Pushable(pred, child.inner.v, child.outer).Some? {
          FoldLeavesNone(child.outer);
          assert NoneLeft(child.inner);
          assert forall k :: NoneLeft(Apply(Fold(child.outer), Hint(k, child.inner)));
        } else {
          FoldLeavesNone(child);
          FoldKeepsTop(child, "");
          if child.Apply? {
            FoldKeepsTop(child.inner, "");
            if Leaf(child.inner) {
              PushableSame(AndConjuncts(pred), child.inner.v, child.outer);
              PushableIff(pred, child.inner.v, Fold(child.outer));
            }
          }
        }
      case Hint(_, child) => FoldLeavesNone(child);
      case Apply(outer, inner) =>
        FoldLeavesNone(outer);
        FoldLeavesNone(inner);
      case OtherPair(_, outer, inner) =>
        FoldLeavesNone(outer);
        FoldLeavesNone(inner);
      case Projection(_, child) => FoldLeavesNone(child);
      case Unwind(_, _, child) => FoldLeavesNone(child);
      case Other(_, child) => FoldLeavesNone(child);
      case _ =>
    }
  }
}
