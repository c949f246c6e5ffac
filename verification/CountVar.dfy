/** count(v) read as count(*) when no row the plan emits can hold a null v. */
module CountVar {

  datatype Val = Null | NodeRef(n: nat) | RelRef(h: nat) | OtherVal(id: nat)

  type Row = map<string, Val>

  predicate NonNull(r: Row, v: string) { v in r && r[v] != Null }

  // ------------------------------------------------------------------ plans

  /** The operators the walk names; every other one is Other. */
  datatype Plan =
    | AllNodesScan(v: string)
    | NodeByLabelScan(v: string, id: nat)
    | NodeByIndexSeek(v: string, id: nat)
    | NodeByIndexRangeScan(v: string, id: nat)
    | Expand(relVar: string, toVar: string, id: nat, child: Plan)
    | Selection(id: nat, child: Plan)
    | VarLengthExpand(relVar: string, toVar: string, pathVar: string, id: nat, child: Plan)
    | OptionalExpand(relVar: string, toVar: string, id: nat, child: Plan)
    | OptionalApply(left: Plan, right: Plan, rightVars: seq<string>)
    | Argument
    | Other(id: nat, child: Plan)

  /** What the graph answers to one operator: the nodes an access path yields, the hops from a row, the
      bindings of a variable-length hop, a filter's verdict, and anything at all for the other operators. */
  datatype World = World(nodes: seq<nat>, served: nat -> seq<nat>, hops: (nat, Row) -> seq<(nat, nat)>,
                         walks: (nat, Row) -> seq<(Val, Val, Val)>, passes: (nat, Row) -> bool,
                         other: (nat, Row, seq<Row>) -> seq<Row>, value: (nat, Row) -> Val)

  function Named(r: Row, name: string, x: Val): Row { if name == "" then r else r[name := x] }

  function Scanned(v: string, ns: seq<nat>, base: Row): seq<Row> {
    if ns == [] then [] else [base[v := NodeRef(ns[0])]] + Scanned(v, ns[1..], base)
  }

  function Hopped(r: Row, relVar: string, toVar: string, hs: seq<(nat, nat)>): seq<Row> {
    if hs == [] then []
    else [Named(Named(r, relVar, RelRef(hs[0].0)), toVar, NodeRef(hs[0].1))] + Hopped(r, relVar, toVar, hs[1..])
  }

  function Expanded(w: World, p: Plan, rows: seq<Row>): seq<Row>
    requires p.Expand?
  {
    if rows == [] then []
    else Hopped(rows[0], p.relVar, p.toVar, w.hops(p.id, rows[0])) + Expanded(w, p, rows[1..])
  }

  /** A row without a hop stays, its new variables null. */
  function OptionallyExpanded(w: World, p: Plan, rows: seq<Row>): seq<Row>
    requires p.OptionalExpand?
  {
    if rows == [] then []
    else
      var hs := w.hops(p.id, rows[0]);
      (if hs == [] then [Named(Named(rows[0], p.relVar, Null), p.toVar, Null)]
       else Hopped(rows[0], p.relVar, p.toVar, hs)) + OptionallyExpanded(w, p, rows[1..])
  }

  function Walked(r: Row, p: Plan, ws: seq<(Val, Val, Val)>): seq<Row>
    requires p.VarLengthExpand?
  {
    if ws == [] then []
    else
      [Named(Named(Named(r, p.relVar, ws[0].0), p.toVar, ws[0].1), p.pathVar, ws[0].2)] + Walked(r, p, ws[1..])
  }

  function VarExpanded(w: World, p: Plan, rows: seq<Row>): seq<Row>
    requires p.VarLengthExpand?
  {
    if rows == [] then [] else Walked(rows[0], p, w.walks(p.id, rows[0])) + VarExpanded(w, p, rows[1..])
  }

  function Filtered(w: World, id: nat, rows: seq<Row>): seq<Row> {
    if rows == [] then [] else (if w.passes(id, rows[0]) then [rows[0]] else []) + Filtered(w, id, rows[1..])
  }

  function Nulled(r: Row, vs: seq<string>): Row { if vs == [] then r else Nulled(r, vs[1..])[vs[0] := Null] }

  function RowsOf(w: World, p: Plan, base: Row): seq<Row>
    decreases p, 0
  {
    match p
    case AllNodesScan(v) => Scanned(v, w.nodes, base)
    case NodeByLabelScan(v, id) => Scanned(v, w.served(id), base)
    case NodeByIndexSeek(v, id) => Scanned(v, w.served(id), base)
    case NodeByIndexRangeScan(v, id) => Scanned(v, w.served(id), base)
    case Expand(_, _, _, child) => Expanded(w, p, RowsOf(w, child, base))
    case Selection(id, child) => Filtered(w, id, RowsOf(w, child, base))
    case VarLengthExpand(_, _, _, _, child) => VarExpanded(w, p, RowsOf(w, child, base))
    case OptionalExpand(_, _, _, child) => OptionallyExpanded(w, p, RowsOf(w, child, base))
    case OptionalApply(left, right, vs) => OptionallyApplied(w, right, vs, RowsOf(w, left, base))
    case Argument => [base]
    case Other(id, child) => w.other(id, base, RowsOf(w, child, base))
  }

  function OptionallyApplied(w: World, right: Plan, vs: seq<string>, rows: seq<Row>): seq<Row>
    decreases right, 1, |rows|
  {
    if rows == [] then []
    else
      var inner := RowsOf(w, right, rows[0]);
      (if inner == [] then [Nulled(rows[0], vs)] else inner) + OptionallyApplied(w, right, vs, rows[1..])
  }

  /** What a hop leaves in a row, whatever names it has been given: its end, its relationship unless the end took
      the name, and all else as it was. */
  predicate HopRow(r: Row, relVar: string, rel: Val, toVar: string, end: Val, out: Row) {
    && (toVar != "" ==> toVar in out && out[toVar] == end)
    && (relVar != "" && relVar != toVar ==> relVar in out && out[relVar] == rel)
    && out.Keys == r.Keys + ({relVar, toVar} - {""})
    && forall v :: v in r && v !in {relVar, toVar} - {""} ==> out[v] == r[v]
  }

  lemma NamedTwice(r: Row, relVar: string, rel: Val, toVar: string, end: Val)
    ensures HopRow(r, relVar, rel, toVar, end, Named(Named(r, relVar, rel), toVar, end))
  {
  }

  lemma NamedApart(r: Row, relVar: string, rel: Val, toVar: string, end: Val, pathVar: string, path: Val)
    requires pathVar !in {relVar, toVar}
    ensures Named(Named(Named(r, relVar, rel), toVar, end), pathVar, path) == Named(Named(Named(r, pathVar, path), relVar, rel), toVar, end)
  {
  }

  lemma PathNamed(r: Row, pathVar: string, path: Val)
    ensures pathVar != "" ==> pathVar in Named(r, pathVar, path) && Named(r, pathVar, path)[pathVar] == path
  {
  }

  lemma {:induction false} HoppedIs(r: Row, relVar: string, toVar: string, hs: seq<(nat, nat)>)
    ensures var rows := Hopped(r, relVar, toVar, hs);
      |rows| == |hs| && forall i :: 0 <= i < |hs| ==> HopRow(r, relVar, RelRef(hs[i].0), toVar, NodeRef(hs[i].1), rows[i])
  {
    hide HopRow, Named;
    if hs != [] {
      HoppedIs(r, relVar, toVar, hs[1..]);
      NamedTwice(r, relVar, RelRef(hs[0].0), toVar, NodeRef(hs[0].1));
    }
  }

  /** A variable-length hop leaves its list and its end so, and its path besides under a name of its own. */
  lemma {:induction false} WalkedIs(r: Row, p: Plan, ws: seq<(Val, Val, Val)>)
    requires p.VarLengthExpand? && p.pathVar !in {p.relVar, p.toVar}
    ensures var rows := Walked(r, p, ws);
      |rows| == |ws| && forall i :: 0 <= i < |ws| ==>
        && (p.pathVar != "" ==> p.pathVar in rows[i] && rows[i][p.pathVar] == ws[i].2)
        && HopRow(Named(r, p.pathVar, ws[i].2), p.relVar, ws[i].0, p.toVar, ws[i].1, rows[i])
  {
    hide HopRow, Named;
    if ws != [] {
      WalkedIs(r, p, ws[1..]);
      var w := ws[0];
      PathNamed(Named(Named(r, p.relVar, w.0), p.toVar, w.1), p.pathVar, w.2);
      NamedApart(r, p.relVar, w.0, p.toVar, w.1, p.pathVar, w.2);
      NamedTwice(Named(r, p.pathVar, w.2), p.relVar, w.0, p.toVar, w.1);
    }
  }

  /** An optional hop gives a row its hops, or one row with both variables null. */
  lemma OptionalIs(w: World, p: Plan, r: Row)
    requires p.OptionalExpand?
    ensures var rows, hs := OptionallyExpanded(w, p, [r]), w.hops(p.id, r);
      && |rows| == (if hs == [] then 1 else |hs|)
      && (hs == [] ==> HopRow(r, p.relVar, Null, p.toVar, Null, rows[0]))
      && forall i :: 0 <= i < |hs| ==> HopRow(r, p.relVar, RelRef(hs[i].0), p.toVar, NodeRef(hs[i].1), rows[i])
  {
    assert [r][1..] == [];
    HoppedIs(r, p.relVar, p.toVar, w.hops(p.id, r));
  }

  lemma {:induction false} FilteredIs(w: World, id: nat, rows: seq<Row>, r: Row)
    ensures multiset(Filtered(w, id, rows))[r] == if w.passes(id, r) then multiset(rows)[r] else 0
  {
    if rows != [] {
      FilteredIs(w, id, rows[1..], r);
      assert rows == [rows[0]] + rows[1..];
    }
  }

  // ------------------------------------------------------------------ the guard

  /** The walk's verdict on the subtree: nothing in it can make v null or rebind it. */
  predicate Allowed(p: Plan, v: string) {
    match p
    case AllNodesScan(_) => true
    case NodeByLabelScan(_, _) => true
    case NodeByIndexSeek(_, _) => true
    case NodeByIndexRangeScan(_, _) => true
    case Expand(_, _, _, child) => Allowed(child, v)
    case Selection(_, child) => Allowed(child, v)
    case VarLengthExpand(relVar, toVar, pathVar, _, child) => relVar != v && toVar != v && pathVar != v && Allowed(child, v)
    case _ => false
  }

  /** Some operator of the subtree binds v as a scanned node or as an end or relationship of a hop. */
  predicate Binds(p: Plan, v: string) {
    match p
    case AllNodesScan(x) => x == v
    case NodeByLabelScan(x, _) => x == v
    case NodeByIndexSeek(x, _) => x == v
    case NodeByIndexRangeScan(x, _) => x == v
    case Expand(relVar, toVar, _, child) => relVar == v || toVar == v || Binds(child, v)
    case Selection(_, child) => Binds(child, v)
    case VarLengthExpand(_, _, _, _, child) => Binds(child, v)
    case _ => false
  }

  predicate NeverNull(p: Plan, v: string) { v != "" && Allowed(p, v) && Binds(p, v) }

  /** The walk of the source, the flag threaded through. */
  method Walk(p: Plan, v: string, bound: bool) returns (ok: bool, b: bool)
    ensures ok == Allowed(p, v)
    ensures ok ==> b == (bound || Binds(p, v))
  {
    b := bound;
    match p {
      case AllNodesScan(x) => b := b || x == v;
        return true, b;
      case NodeByLabelScan(x, _) => b := b || x == v;
        return true, b;
      case NodeByIndexSeek(x, _) => b := b || x == v;
        return true, b;
      case NodeByIndexRangeScan(x, _) => b := b || x == v;
        return true, b;
      case Expand(relVar, toVar, _, child) =>
        b := b || relVar == v || toVar == v;
        ok, b := Walk(child, v, b);
      case Selection(_, child) => ok, b := Walk(child, v, b);
      case VarLengthExpand(relVar, toVar, pathVar, _, child) =>
        if relVar == v || toVar == v || pathVar == v { return false, b; }
        ok, b := Walk(child, v, b);
      case _ => return false, b;
    }
  }

  method IsNonNullPatternBound(child: Plan, v: string) returns (safe: bool)
    ensures safe == NeverNull(child, v)
  {
    if v == "" { return false; }
    var ok, bound := Walk(child, v, false);
    return ok && bound;
  }

  // ------------------------------------------------------------------ the guard is sound

  predicate AllHold(rows: seq<Row>, v: string) { forall i :: 0 <= i < |rows| ==> NonNull(rows[i], v) }

  lemma {:induction false} ScanHolds(v: string, ns: seq<nat>, base: Row)
    ensures AllHold(Scanned(v, ns, base), v)
  {
    if ns != [] { ScanHolds(v, ns[1..], base); }
  }

  lemma {:induction false} HoppedHolds(r: Row, relVar: string, toVar: string, hs: seq<(nat, nat)>, v: string)
    requires v != "" && (NonNull(r, v) || relVar == v || toVar == v)
    ensures AllHold(Hopped(r, relVar, toVar, hs), v)
  {
    if hs != [] { HoppedHolds(r, relVar, toVar, hs[1..], v); }
  }

  lemma {:induction false} ExpandedHolds(w: World, p: Plan, rows: seq<Row>, v: string)
    requires v != "" && p.Expand? && (AllHold(rows, v) || p.relVar == v || p.toVar == v)
    ensures AllHold(Expanded(w, p, rows), v)
  {
    if rows != [] {
      HoppedHolds(rows[0], p.relVar, p.toVar, w.hops(p.id, rows[0]), v);
      ExpandedHolds(w, p, rows[1..], v);
    }
  }

  lemma {:induction false} WalkedHolds(r: Row, p: Plan, ws: seq<(Val, Val, Val)>, v: string)
    requires p.VarLengthExpand? && p.relVar != v && p.toVar != v && p.pathVar != v && NonNull(r, v)
    ensures AllHold(Walked(r, p, ws), v)
  {
    if ws != [] { WalkedHolds(r, p, ws[1..], v); }
  }

  lemma {:induction false} VarExpandedHolds(w: World, p: Plan, rows: seq<Row>, v: string)
    requires p.VarLengthExpand? && p.relVar != v && p.toVar != v && p.pathVar != v && AllHold(rows, v)
    ensures AllHold(VarExpanded(w, p, rows), v)
  {
    if rows != [] {
      WalkedHolds(rows[0], p, w.walks(p.id, rows[0]), v);
      VarExpandedHolds(w, p, rows[1..], v);
    }
  }

  lemma {:induction false} FilteredHolds(w: World, id: nat, rows: seq<Row>, v: string)
    requires AllHold(rows, v)
    ensures AllHold(Filtered(w, id, rows), v)
  {
    if rows != [] { FilteredHolds(w, id, rows[1..], v); }
  }

  /** A variable the walk accepts is non-null in every row, of every graph, for any enclosing row. */
  lemma {:induction false} NeverNullHolds(w: World, p: Plan, v: string, base: Row)
    requires NeverNull(p, v)
    ensures AllHold(RowsOf(w, p, base), v)
  {
    match p {
      case AllNodesScan(_) => ScanHolds(v, w.nodes, base);
      case NodeByLabelScan(_, id) => ScanHolds(v, w.served(id), base);
      case NodeByIndexSeek(_, id) => ScanHolds(v, w.served(id), base);
      case NodeByIndexRangeScan(_, id) => ScanHolds(v, w.served(id), base);
      case Expand(relVar, toVar, _, child) =>
        if relVar != v && toVar != v { NeverNullHolds(w, child, v, base); }
        ExpandedHolds(w, p, RowsOf(w, child, base), v);
      case Selection(id, child) =>
        NeverNullHolds(w, child, v, base);
        FilteredHolds(w, id, RowsOf(w, child, base), v);
      case VarLengthExpand(_, _, _, _, child) =>
        NeverNullHolds(w, child, v, base);
        VarExpandedHolds(w, p, RowsOf(w, child, base), v);
    }
  }

  // ------------------------------------------------------------------ aggregation

  datatype Arg = NoExpr | VarExpr(name: string) | Computed(id: nat)

  datatype Agg = Agg(func: string, argument: string, expr: Arg, distinct: bool, output: string)

  function LowerChar(c: char): char { if 'A' <= c <= 'Z' then c - 'A' + 'a' else c }

  function Lower(s: string): string { if s == "" then "" else [LowerChar(s[0])] + Lower(s[1..]) }

  /** The variable of a plain count over a bare variable, "" for anything else. */
  function Candidate(a: Agg): string {
    if a.distinct || a.argument == "" || Lower(a.func) != "count" then ""
    else if !a.expr.VarExpr? || a.expr.name != a.argument then "" else a.expr.name
  }

  function ArgValue(w: World, a: Agg, r: Row): Val {
    match a.expr
    case VarExpr(x) => if x in r then r[x] else Null
    case Computed(id) => w.value(id, r)
    case NoExpr => if a.argument in r then r[a.argument] else Null
  }

  function CountNonNull(w: World, a: Agg, rows: seq<Row>): nat {
    if rows == [] then 0 else (if ArgValue(w, a, rows[0]) != Null then 1 else 0) + CountNonNull(w, a, rows[1..])
  }

  /** What one aggregate makes of a group's rows; those that are not plain counts are left to others. */
  function Result(w: World, others: (Agg, seq<Row>) -> Val, a: Agg, rows: seq<Row>): (string, Val, nat) {
    if Lower(a.func) != "count" || a.distinct then (a.output, others(a, rows), 0)
    else if a.argument == "" then (a.output, Null, |rows|)
    else (a.output, Null, CountNonNull(w, a, rows))
  }

  /** Every aggregate answers under its own name, a count with its number. */
  lemma ResultIs(w: World, others: (Agg, seq<Row>) -> Val, a: Agg, rows: seq<Row>)
    ensures Result(w, others, a, rows).0 == a.output
    ensures !SpellsCount(a.func) || a.distinct ==> Result(w, others, a, rows).1 == others(a, rows)
    ensures SpellsCount(a.func) && !a.distinct ==>
      Result(w, others, a, rows).2 == if a.argument == "" then |rows| else CountNonNull(w, a, rows)
  {
    LowerIsCount(a.func);
  }

  function Results(w: World, others: (Agg, seq<Row>) -> Val, aggs: seq<Agg>, rows: seq<Row>): seq<(string, Val, nat)> {
    if aggs == [] then [] else [Result(w, others, aggs[0], rows)] + Results(w, others, aggs[1..], rows)
  }

  function KeyOf(w: World, keys: seq<nat>, r: Row): seq<Val> {
    if keys == [] then [] else [w.value(keys[0], r)] + KeyOf(w, keys[1..], r)
  }

  function GroupOf(w: World, keys: seq<nat>, rows: seq<Row>, k: seq<Val>): seq<Row> {
    if rows == [] then []
    else (if KeyOf(w, keys, rows[0]) == k then [rows[0]] else []) + GroupOf(w, keys, rows[1..], k)
  }

  /** The groups' keys in order of first appearance; without keys there is one group, even of no rows. */
  function GroupKeys(w: World, keys: seq<nat>, rows: seq<Row>): seq<seq<Val>> {
    if rows == [] then if keys == [] then [[]] else []
    else
      var front := GroupKeys(w, keys, rows[..|rows| - 1]);
      var k := KeyOf(w, keys, rows[|rows| - 1]);
      if k in front then front else front + [k]
  }

  /** A group is exactly the rows of its key, each as often. */
  lemma {:induction false} GroupIs(w: World, keys: seq<nat>, rows: seq<Row>, k: seq<Val>, r: Row)
    ensures multiset(GroupOf(w, keys, rows, k))[r] == if KeyOf(w, keys, r) == k then multiset(rows)[r] else 0
  {
    if rows != [] {
      GroupIs(w, keys, rows[1..], k, r);
      assert rows == [rows[0]] + rows[1..];
    }
  }

  predicate HasKey(w: World, keys: seq<nat>, rows: seq<Row>, k: seq<Val>) {
    exists i :: 0 <= i < |rows| && KeyOf(w, keys, rows[i]) == k
  }

  lemma HasKeyPush(w: World, keys: seq<nat>, rows: seq<Row>, k: seq<Val>)
    requires rows != []
    ensures HasKey(w, keys, rows, k) <==> HasKey(w, keys, rows[..|rows| - 1], k) || KeyOf(w, keys, rows[|rows| - 1]) == k
  {
    var front := rows[..|rows| - 1];
    if i :| 0 <= i < |front| && KeyOf(w, keys, front[i]) == k { assert rows[i] == front[i]; }
    if i :| 0 <= i < |rows| && KeyOf(w, keys, rows[i]) == k && i < |rows| - 1 { assert front[i] == rows[i]; }
  }

  ghost predicate GroupsOf(w: World, keys: seq<nat>, rows: seq<Row>, ks: seq<seq<Val>>) {
    && (forall i, j :: 0 <= i < j < |ks| ==> ks[i] != ks[j])
    && (forall k :: k in ks <==> (keys == [] && k == []) || HasKey(w, keys, rows, k))
  }

  lemma GroupsPush(w: World, keys: seq<nat>, rows: seq<Row>, g: seq<seq<Val>>, k: seq<Val>)
    requires rows != [] && GroupsOf(w, keys, rows[..|rows| - 1], g) && k == KeyOf(w, keys, rows[|rows| - 1])
    ensures GroupsOf(w, keys, rows, if k in g then g else g + [k])
  {
    hide KeyOf, HasKey;
    forall j ensures HasKey(w, keys, rows, j) <==> HasKey(w, keys, rows[..|rows| - 1], j) || k == j {
      HasKeyPush(w, keys, rows, j);
    }
    var ks := if k in g then g else g + [k];
    assert forall j :: j in ks <==> j in g || j == k;
  }

  /** There is one group for each key a row has; without keys one in any case. */
  lemma {:induction false} GroupsAre(w: World, keys: seq<nat>, rows: seq<Row>)
    ensures GroupsOf(w, keys, rows, GroupKeys(w, keys, rows))
  {
    if rows == [] {
      NoKey(w, keys);
    } else {
      hide KeyOf, GroupsOf;
      GroupsAre(w, keys, rows[..|rows| - 1]);
      GroupsPush(w, keys, rows, GroupKeys(w, keys, rows[..|rows| - 1]), KeyOf(w, keys, rows[|rows| - 1]));
    }
  }

  lemma NoKey(w: World, keys: seq<nat>)
    ensures GroupsOf(w, keys, [], if keys == [] then [[]] else [])
  {
    forall k: seq<Val> ensures k in [[]] <==> k == [] { if k == [] { assert [[]][0] == k; } }
  }

  function PerGroup(w: World, others: (Agg, seq<Row>) -> Val, keys: seq<nat>, aggs: seq<Agg>, rows: seq<Row>, ks: seq<seq<Val>>)
    : seq<(seq<Val>, seq<(string, Val, nat)>)>
  {
    if ks == [] then []
    else [(ks[0], Results(w, others, aggs, GroupOf(w, keys, rows, ks[0])))] + PerGroup(w, others, keys, aggs, rows, ks[1..])
  }

  function Output(w: World, others: (Agg, seq<Row>) -> Val, keys: seq<nat>, aggs: seq<Agg>, child: Plan, base: Row)
    : seq<(seq<Val>, seq<(string, Val, nat)>)>
  {
    var rows := RowsOf(w, child, base);
    PerGroup(w, others, keys, aggs, rows, GroupKeys(w, keys, rows))
  }

  /** count(v) is count(*) on exactly the groups in which v is nowhere null. */
  lemma {:induction false} CountsAgree(w: World, a: Agg, rows: seq<Row>)
    requires Candidate(a) != ""
    ensures CountNonNull(w, a, rows) <= |rows|
    ensures CountNonNull(w, a, rows) == |rows| <==> AllHold(rows, Candidate(a))
  {
    if rows != [] {
      CountsAgree(w, a, rows[1..]);
      assert AllHold(rows, Candidate(a)) <==> NonNull(rows[0], Candidate(a)) && AllHold(rows[1..], Candidate(a)) by {
        assert forall i :: 1 <= i < |rows| ==> rows[i] == rows[1..][i - 1];
      }
    }
  }

  // ------------------------------------------------------------------ the rewrite

  function Rewritten(a: Agg, child: Plan): Agg {
    if Candidate(a) != "" && NeverNull(child, Candidate(a)) then a.(argument := "", expr := NoExpr) else a
  }

  /** "count", in whatever case. */
  predicate SpellsCount(f: string) {
    |f| == 5 && f[0] in "cC" && f[1] in "oO" && f[2] in "uU" && f[3] in "nN" && f[4] in "tT"
  }

  lemma LowerIsCount(f: string)
    ensures Lower(f) == "count" <==> SpellsCount(f)
  {
    LowerEach(f);
    if |f| == 5 {
      assert Lower(f) == "count" <==> forall i :: 0 <= i < 5 ==> Lower(f)[i] == "count"[i];
      assert forall c: char, i :: 0 <= i < 5 ==> (LowerChar(c) == "count"[i] <==> c == "count"[i] || c == "COUNT"[i]);
    }
  }

  lemma {:induction false} LowerEach(f: string)
    ensures |Lower(f)| == |f| && forall i :: 0 <= i < |f| ==> Lower(f)[i] == LowerChar(f[i])
  {
    if f != "" { LowerEach(f[1..]); }
  }

  /** count(v) over a bare variable, without DISTINCT. */
  predicate PlainCount(a: Agg, v: string) { SpellsCount(a.func) && !a.distinct && a.expr == VarExpr(v) && a.argument == v != "" }

  /** An aggregate becomes count(*) exactly when it is a plain count of a variable the guard accepts. */
  lemma RewrittenIff(a: Agg, child: Plan)
    ensures PlainCount(a, a.argument) && NeverNull(child, a.argument) ==>
              Rewritten(a, child) == Agg(a.func, "", NoExpr, false, a.output) != a
    ensures !(PlainCount(a, a.argument) && NeverNull(child, a.argument)) ==> Rewritten(a, child) == a
  {
    LowerIsCount(a.func);
  }

  function RewrittenAll(aggs: seq<Agg>, child: Plan): (r: seq<Agg>)
    ensures |r| == |aggs|
    ensures forall i :: 0 <= i < |aggs| ==> r[i] == Rewritten(aggs[i], child)
  {
    if aggs == [] then [] else [Rewritten(aggs[0], child)] + RewrittenAll(aggs[1..], child)
  }

  lemma {:induction false} GroupHolds(w: World, keys: seq<nat>, rows: seq<Row>, k: seq<Val>, v: string)
    requires AllHold(rows, v)
    ensures AllHold(GroupOf(w, keys, rows, k), v)
  {
    if rows != [] { GroupHolds(w, keys, rows[1..], k, v); }
  }

  lemma {:induction false} ResultsAgree(w: World, others: (Agg, seq<Row>) -> Val, aggs: seq<Agg>, child: Plan, rows: seq<Row>)
    requires forall v :: NeverNull(child, v) ==> AllHold(rows, v)
    ensures Results(w, others, RewrittenAll(aggs, child), rows) == Results(w, others, aggs, rows)
  {
    if aggs != [] {
      ResultsAgree(w, others, aggs[1..], child, rows);
      if Candidate(aggs[0]) != "" { CountsAgree(w, aggs[0], rows); }
    }
  }

  lemma {:induction false} PerGroupAgrees(w: World, others: (Agg, seq<Row>) -> Val, keys: seq<nat>, aggs: seq<Agg>, child: Plan,
                                          rows: seq<Row>, ks: seq<seq<Val>>)
    requires forall v :: NeverNull(child, v) ==> AllHold(rows, v)
    ensures PerGroup(w, others, keys, RewrittenAll(aggs, child), rows, ks) == PerGroup(w, others, keys, aggs, rows, ks)
  {
    if ks != [] {
      PerGroupAgrees(w, others, keys, aggs, child, rows, ks[1..]);
      forall v | NeverNull(child, v) ensures AllHold(GroupOf(w, keys, rows, ks[0]), v) {
        GroupHolds(w, keys, rows, ks[0], v);
      }
      ResultsAgree(w, others, aggs, child, GroupOf(w, keys, rows, ks[0]));
    }
  }

  /** The rewritten aggregation emits the same groups, columns and values on every graph. */
  lemma RewriteKeepsOutput(w: World, others: (Agg, seq<Row>) -> Val, keys: seq<nat>, aggs: seq<Agg>, child: Plan, base: Row)
    ensures Output(w, others, keys, RewrittenAll(aggs, child), child, base) == Output(w, others, keys, aggs, child, base)
  {
    var rows := RowsOf(w, child, base);
    forall v | NeverNull(child, v) ensures AllHold(rows, v) { NeverNullHolds(w, child, v, base); }
    PerGroupAgrees(w, others, keys, aggs, child, rows, GroupKeys(w, keys, rows));
  }

  function OneNode(): World {
    World([0], id => [], (id, r) => [], (id, r) => [], (id, r) => true, (id, b, rows) => rows, (id, r) => Null)
  }

  /** Each refusal by name is needed: an optional hop, an optional subplan and an argument can each emit a
      row in which the variable is null, and then the two counts differ. */
  lemma OptionalHopIsNull()
    ensures !AllHold(RowsOf(OneNode(), OptionalExpand("r", "b", 0, AllNodesScan("a")), map[]), "b")
  {
    var w, row: Row := OneNode(), map[]["a" := NodeRef(0)];
    ScanOfOne();
    assert [row][1..] == [];
    assert OptionallyExpanded(w, OptionalExpand("r", "b", 0, AllNodesScan("a")), [row]) == [Named(Named(row, "r", Null), "b", Null)];
    assert !NonNull(RowsOf(w, OptionalExpand("r", "b", 0, AllNodesScan("a")), map[])[0], "b");
  }

  lemma OptionalSubplanIsNull()
    ensures !AllHold(RowsOf(OneNode(), OptionalApply(AllNodesScan("a"), NodeByLabelScan("b", 0), ["b"]), map[]), "b")
  {
    var w, row: Row := OneNode(), map[]["a" := NodeRef(0)];
    ScanOfOne();
    assert RowsOf(w, NodeByLabelScan("b", 0), row) == [];
    assert [row][1..] == [] && ["b"][1..] == [];
    assert OptionallyApplied(w, NodeByLabelScan("b", 0), ["b"], [row]) == [Nulled(row, ["b"])];
    assert !NonNull(RowsOf(w, OptionalApply(AllNodesScan("a"), NodeByLabelScan("b", 0), ["b"]), map[])[0], "b");
  }

  lemma ArgumentIsNull()
    ensures !AllHold(RowsOf(OneNode(), Argument, map["b" := Null]), "b")
  {
    assert !NonNull(RowsOf(OneNode(), Argument, map["b" := Null])[0], "b");
  }

  lemma ScanOfOne()
    ensures RowsOf(OneNode(), AllNodesScan("a"), map[]) == [map[]["a" := NodeRef(0)]]
  {
    assert [0][1..] == [];
    assert Scanned("a", [0][1..], map[]) == [];
  }

  // ------------------------------------------------------------------ the shared plan is not touched

  /** A plan node: shared by every execution of the query, so its slice is never written. */
  class EagerAggregation {
    const keys: seq<nat>
    const child: Plan
    const aggregates: array<Agg>

    constructor (keys: seq<nat>, child: Plan, aggregates: array<Agg>)
      ensures this.keys == keys && this.child == child && this.aggregates == aggregates
    {
      this.keys, this.child, this.aggregates := keys, child, aggregates;
    }
  }

  /** q is what p should be rewritten to. */
  ghost predicate IsRewriteOf(q: EagerAggregation, p: EagerAggregation)
    reads q.aggregates, p.aggregates
  {
    q.keys == p.keys && q.child == p.child && q.aggregates[..] == RewrittenAll(p.aggregates[..], p.child)
  }

  /** The node itself when nothing is rewritten, else a fresh node over a fresh slice. */
  method Rewrite(p: EagerAggregation) returns (q: EagerAggregation)
    ensures IsRewriteOf(q, p)
    ensures q == p || (fresh(q) && fresh(q.aggregates))
    ensures q == p <==> RewrittenAll(p.aggregates[..], p.child) == p.aggregates[..]
  {
    hide NeverNull, RewrittenAll;
    q := p;
    var n := p.aggregates.Length;
    var verdict: map<string, bool> := map[];
    var out: array?<Agg> := null;
    for i := 0 to n
      invariant forall v :: v in verdict ==> verdict[v] == NeverNull(p.child, v)
      invariant out == null ==> forall j :: 0 <= j < i ==> Rewritten(p.aggregates[j], p.child) == p.aggregates[j]
      invariant out != null ==> fresh(out) && out.Length == n
      invariant out != null ==> exists j :: 0 <= j < i && Rewritten(p.aggregates[j], p.child) != p.aggregates[j]
      invariant out != null ==> forall j :: 0 <= j < i ==> out[j] == Rewritten(p.aggregates[j], p.child)
      invariant out != null ==> forall j :: i <= j < n ==> out[j] == p.aggregates[j]
    {
      var v := Candidate(p.aggregates[i]);
      if v == "" { continue; }
      if v !in verdict {
        var fact := IsNonNullPatternBound(p.child, v);
        verdict := verdict[v := fact];
      }
      if !verdict[v] { continue; }
      if out == null {
        out := new Agg[n](j requires 0 <= j < n reads p.aggregates => p.aggregates[j]);
      }
      out[i] := p.aggregates[i].(argument := "", expr := NoExpr);
    }
    if out != null { q := new EagerAggregation(p.keys, p.child, out); }
  }

  const MaxEntries := 256

  /** The rewrites remembered for one cached plan, at most 256 of them. */
  class RewriteMemo {
    var m: map<EagerAggregation, EagerAggregation>

    ghost predicate Valid()
      reads this, set p | p in m :: p.aggregates, set p | p in m :: m[p].aggregates
    {
      && |m| <= MaxEntries
      && forall p :: p in m ==> IsRewriteOf(m[p], p)
    }

    constructor ()
      ensures Valid() && m == map[]
    {
      m := map[];
    }

    /** The rewrite of p, the same node to every caller once it is stored. */
    method Get(p: EagerAggregation) returns (q: EagerAggregation)
      requires Valid()
      modifies this
      ensures Valid() && IsRewriteOf(q, p)
      ensures p in old(m) ==> q == old(m)[p] && m == old(m)
      ensures p !in old(m) ==> m == if |old(m)| < MaxEntries then old(m)[p := q] else old(m)
    {
      hide RewrittenAll, IsRewriteOf;
      if p in m { return m[p]; }
      q := Rewrite(p);
      assert Valid();
      if |m| >= MaxEntries { return; }
      m := m[p := q];
    }
  }
}
