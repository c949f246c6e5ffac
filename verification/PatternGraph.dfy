/** The graph a pattern is matched over, the relationships a hop may cross, and what a match is:
    one path per step, no relationship crossed twice anywhere in the pattern. */
module PatternGraph {

  type Node = nat

  datatype Option<T> = None | Some(value: T)

  /** A relationship's identity in the view: its stored source and its slot there. */
  datatype Rel = Rel(src: Node, slot: nat)

  /** One stored relationship. `types` is what the stores record for it; `byHandle` says whether it
      has a record of its own, rather than only its pair's. */
  datatype Slot = Slot(dst: Node, types: set<string>, byHandle: bool)

  datatype Graph = Graph(adj: seq<seq<Slot>>)
  {
    ghost predicate Valid() {
      forall s, i :: 0 <= s < |adj| && 0 <= i < |adj[s]| ==> adj[s][i].dst < |adj|
    }

    predicate Has(r: Rel) { r.src < |adj| && r.slot < |adj[r.src]| }

    function At(r: Rel): Slot
      requires Has(r)
    {
      adj[r.src][r.slot]
    }

    function Entry(n: Node): seq<Slot> { if n < |adj| then adj[n] else [] }

    function Rels(): set<Rel> {
      set s, i | 0 <= s < |adj| && 0 <= i < |adj[s]| :: Rel(s, i)
    }
  }

  datatype Dir = Out | In | Both

  /** The bounds of a variable-length hop as written; either may be omitted. */
  datatype Range = Range(min: Option<int>, max: Option<int>)

  const MaxInt64 := 0x7FFF_FFFF_FFFF_FFFF

  /** What a row may hold: a value that denotes a node (an interned node's integer does too), the
      relationships a pattern binds, or anything else. */
  datatype Value = NodeValue(id: Node) | RelValue(rel: Rel) | RelList(rels: seq<Rel>) | OtherValue

  type Row = map<string, Value>

  /** One hop of a pattern. `types` empty admits every type; `props` holds the relationships that
      satisfy the hop's property map, when it has one; `ends` the nodes that satisfy its end-node
      pattern, and `endVar` and `relVar` the variables the hop names. */
  datatype Step = Step(dir: Dir, range: Option<Range>, types: set<string>, props: Option<set<Rel>>,
                       ends: set<Node>, endVar: Option<string>, relVar: Option<string>)
  {
    function Lo(): nat {
      if range.None? then 1
      else match range.value.min case None => 1 case Some(m) => if m < 0 then 0 else m
    }

    /** No search goes deeper than this; a negative bound stops it at once, as 0 does. */
    function Hi(): nat {
      if range.None? then 1
      else match range.value.max case None => MaxInt64 case Some(m) => if m < 0 then 0 else m
    }

    /** Whether the end-node pattern and the row accept n as the hop's end. */
    predicate Accepts(row: Row, n: Node) {
      BoundTo(row, n) && n in ends
    }

    predicate BoundTo(row: Row, n: Node) {
      endVar.Some? && endVar.value in row ==> row[endVar.value] == NodeValue(n)
    }

    /** The row with the hop's end node bound, then its relationship or relationships. */
    function Bind(row: Row, n: Node, t: Path): Row {
      var r := if endVar.Some? then row[endVar.value := NodeValue(n)] else row;
      if relVar.Some? then r[relVar.value := RelsOf(t)] else r
    }

    /** A fixed hop binds its relationship, a variable-length one the list of those it crossed. */
    function RelsOf(t: Path): Value {
      if range.None? && |t| == 1 then RelValue(t[0].rel) else RelList(seq(|t|, i requires 0 <= i < |t| => t[i].rel))
    }
  }

  // ------------------------------------------------------------------ crossings

  /** A relationship crossed in one direction; `dst` is its stored destination. */
  datatype Crossing = Crossing(rel: Rel, dst: Node, forward: bool)
  {
    function From(): Node { if forward then rel.src else dst }
    function To(): Node { if forward then dst else rel.src }
  }

  type Path = seq<Crossing>

  /** The pair's verdict: some relationship between the two carries an accepted type. */
  predicate PairMatches(g: Graph, src: Node, dst: Node, types: set<string>) {
    exists i :: 0 <= i < |g.Entry(src)| && g.Entry(src)[i].dst == dst
             && (types == {} || g.Entry(src)[i].types * types != {})
  }

  /** The verdict on one relationship: its pair matches, and it does itself where it has its own
      type record and its own properties. */
  predicate Qualifies(g: Graph, s: Step, r: Rel)
    requires g.Has(r)
  {
    && PairMatches(g, r.src, g.At(r).dst, s.types)
    && (s.types == {} || !g.At(r).byHandle || g.At(r).types == {} || g.At(r).types * s.types != {})
    && (s.props.Some? ==> r in s.props.value)
  }

  /** Whether the hop may cross c from cur in direction dir. A self-loop of an undirected hop is
      crossed forward only, so that it is one crossing. */
  predicate CanCross(g: Graph, s: Step, dir: Dir, cur: Node, c: Crossing) {
    && g.Has(c.rel) && g.At(c.rel).dst == c.dst && c.From() == cur
    && (dir == Out ==> c.forward)
    && (dir == In ==> !c.forward)
    && (dir == Both && c.dst == c.rel.src ==> c.forward)
    && Qualifies(g, s, c.rel)
  }

  function Crossed(t: Path): set<Rel> { set i | 0 <= i < |t| :: t[i].rel }

  function End(cur: Node, t: Path): Node { if t == [] then cur else t[|t| - 1].To() }

  /** A walk of the hop from cur. */
  ghost predicate IsWalk(g: Graph, s: Step, dir: Dir, cur: Node, t: Path)
    decreases |t|
  {
    if t == [] then true
    else CanCross(g, s, dir, cur, t[0]) && IsWalk(g, s, dir, t[0].To(), t[1..])
  }

  predicate Distinct(t: Path) { forall i, j :: 0 <= i < j < |t| ==> t[i].rel != t[j].rel }

  /** A walk that crosses no relationship twice, nor one already used. */
  ghost predicate IsTrail(g: Graph, s: Step, dir: Dir, cur: Node, used: set<Rel>, t: Path) {
    IsWalk(g, s, dir, cur, t) && Distinct(t) && Crossed(t) !! used
  }

  // ------------------------------------------------------------------ matches

  /** One path per step. */
  type Match = seq<Path>

  /** m matches the steps from cur, given the row and the relationships already used. */
  ghost predicate IsMatch(g: Graph, steps: seq<Step>, row: Row, cur: Node, used: set<Rel>, m: Match)
    decreases |steps|
  {
    if steps == [] then m == []
    else
      && m != []
      && var s, t := steps[0], m[0];
      && IsTrail(g, s, s.dir, cur, used, t)
      && s.Lo() <= |t| <= s.Hi()
      && s.Accepts(row, End(cur, t))
      && IsMatch(g, steps[1..], s.Bind(row, End(cur, t), t), End(cur, t), used + Crossed(t), m[1..])
  }

  ghost predicate Matches(g: Graph, steps: seq<Step>, row: Row, cur: Node, used: set<Rel>) {
    exists m :: IsMatch(g, steps, row, cur, used, m)
  }

  function Flatten(m: Match): Path { if m == [] then [] else m[0] + Flatten(m[1..]) }

  /** Relationship isomorphism over the whole pattern: no relationship fills two places of a match,
      whatever hops the two places belong to. */
  lemma {:induction false} MatchIsIsomorphic(g: Graph, steps: seq<Step>, row: Row, cur: Node, used: set<Rel>, m: Match)
    requires IsMatch(g, steps, row, cur, used, m)
    ensures Distinct(Flatten(m)) && Crossed(Flatten(m)) !! used
    decreases |steps|
  {
    if steps != [] {
      var t := m[0];
      var rest := Flatten(m[1..]);
      MatchIsIsomorphic(g, steps[1..], steps[0].Bind(row, End(cur, t), t), End(cur, t), used + Crossed(t), m[1..]);
      var all := t + rest;
      assert Flatten(m) == all;
      forall i | 0 <= i < |all| ensures all[i].rel !in used {
        if i < |t| { assert t[i].rel in Crossed(t); } else { assert all[i] == rest[i - |t|]; assert all[i].rel in Crossed(rest); }
      }
      forall i, j | 0 <= i < j < |all| ensures all[i].rel != all[j].rel {
        if i < |t| <= j {
          assert t[i].rel in Crossed(t);
          assert all[j] == rest[j - |t|];
          assert rest[j - |t|].rel in Crossed(rest);
        } else if |t| <= i {
          assert all[i] == rest[i - |t|] && all[j] == rest[j - |t|];
        }
      }
    }
  }

  /** No relationship variable is on the row yet, nor named twice: a bound one stands for one
      relationship, which is not modelled. */
  predicate RelVarsFree(steps: seq<Step>, row: Row) {
    forall i :: 0 <= i < |steps| && steps[i].relVar.Some? ==>
      && steps[i].relVar.value !in row
      && (forall j :: 0 <= j < |steps| ==> steps[j].endVar != steps[i].relVar)
      && (forall j :: 0 <= j < |steps| && j != i ==> steps[j].relVar != steps[i].relVar)
  }

  lemma RelVarsStayFree(steps: seq<Step>, row: Row, n: Node, t: Path)
    requires steps != [] && RelVarsFree(steps, row)
    ensures RelVarsFree(steps[1..], steps[0].Bind(row, n, t))
  {
    var rest := steps[1..];
    forall i | 0 <= i < |rest| && rest[i].relVar.Some?
      ensures && rest[i].relVar.value !in steps[0].Bind(row, n, t)
              && (forall j :: 0 <= j < |rest| ==> rest[j].endVar != rest[i].relVar)
              && (forall j :: 0 <= j < |rest| && j != i ==> rest[j].relVar != rest[i].relVar)
    {
      assert steps[i + 1] == rest[i] && steps[0].endVar != rest[i].relVar && steps[0].relVar != rest[i].relVar;
      forall j | 0 <= j < |rest| ensures rest[j].endVar != rest[i].relVar && (j != i ==> rest[j].relVar != rest[i].relVar) {
        assert steps[j + 1] == rest[j];
      }
    }
  }

  // ------------------------------------------------------------------ the row a predicate reads

  /** A variable one step binds is read by a later one only if the row already holds it: a bare
      pattern predicate introduces no variable. */
  predicate Introduces(steps: seq<Step>, row: Row, i: nat, name: Option<string>)
    requires i < |steps|
  {
    name.Some? && name.value !in row && exists j :: i < j < |steps| && steps[j].endVar == name
  }

  predicate ReadsOnly(steps: seq<Step>, row: Row) {
    forall i :: 0 <= i < |steps| ==> !Introduces(steps, row, i, steps[i].endVar)
  }

  /** The two rows agree on every end node the steps name. */
  predicate Agree(steps: seq<Step>, a: Row, b: Row) {
    forall i :: 0 <= i < |steps| && steps[i].endVar.Some? ==>
      var v := steps[i].endVar.value; (v in a <==> v in b) && (v in a ==> a[v] == b[v])
  }

  lemma {:induction false} SameMatches(g: Graph, steps: seq<Step>, a: Row, b: Row, cur: Node, used: set<Rel>, m: Match)
    requires RelVarsFree(steps, a) && RelVarsFree(steps, b) && Agree(steps, a, b)
    requires IsMatch(g, steps, a, cur, used, m)
    ensures IsMatch(g, steps, b, cur, used, m)
    decreases |steps|
  {
    if steps != [] {
      var s, t, rest := steps[0], m[0], steps[1..];
      var n := End(cur, t);
      RelVarsStayFree(steps, a, n, t);
      RelVarsStayFree(steps, b, n, t);
      forall i | 0 <= i < |rest| && rest[i].endVar.Some?
        ensures var v := rest[i].endVar.value; var x, y := s.Bind(a, n, t), s.Bind(b, n, t);
                (v in x <==> v in y) && (v in x ==> x[v] == y[v])
      {
        assert steps[i + 1] == rest[i];
      }
      SameMatches(g, rest, s.Bind(a, n, t), s.Bind(b, n, t), n, used + Crossed(t), m[1..]);
    }
  }

  lemma RestReady(steps: seq<Step>, row: Row)
    requires steps != [] && RelVarsFree(steps, row) && ReadsOnly(steps, row)
    ensures RelVarsFree(steps[1..], row) && ReadsOnly(steps[1..], row)
  {
    var rest := steps[1..];
    forall i | 0 <= i < |rest| && rest[i].relVar.Some?
      ensures && rest[i].relVar.value !in row
              && (forall j :: 0 <= j < |rest| ==> rest[j].endVar != rest[i].relVar)
              && (forall j :: 0 <= j < |rest| && j != i ==> rest[j].relVar != rest[i].relVar)
    {
      assert steps[i + 1] == rest[i];
      forall j | 0 <= j < |rest| ensures rest[j].endVar != rest[i].relVar && (j != i ==> rest[j].relVar != rest[i].relVar) {
        assert steps[j + 1] == rest[j];
      }
    }
    forall i | 0 <= i < |rest| ensures !Introduces(rest, row, i, rest[i].endVar) {
      assert !Introduces(steps, row, i + 1, steps[i + 1].endVar);
      assert forall j :: 0 <= j < |rest| ==> rest[j] == steps[j + 1];
    }
  }

  /** A predicate may be matched without extending the row. */
  lemma BindIsIdle(g: Graph, steps: seq<Step>, row: Row, cur: Node, used: set<Rel>, t: Path)
    requires steps != [] && RelVarsFree(steps, row) && ReadsOnly(steps, row)
    requires steps[0].BoundTo(row, cur)
    ensures Matches(g, steps[1..], steps[0].Bind(row, cur, t), cur, used) <==> Matches(g, steps[1..], row, cur, used)
  {
    var s, rest := steps[0], steps[1..];
    var bound := s.Bind(row, cur, t);
    RelVarsStayFree(steps, row, cur, t);
    RestReady(steps, row);
    forall i | 0 <= i < |rest| && rest[i].endVar.Some?
      ensures var v := rest[i].endVar.value; (v in bound <==> v in row) && (v in bound ==> bound[v] == row[v])
    {
      assert steps[i + 1] == rest[i];
      assert !Introduces(steps, row, 0, s.endVar);
    }
    if m :| IsMatch(g, rest, bound, cur, used, m) { SameMatches(g, rest, bound, row, cur, used, m); }
    if m :| IsMatch(g, rest, row, cur, used, m) { SameMatches(g, rest, row, bound, cur, used, m); }
  }

  // ------------------------------------------------------------------ walks and trails

  lemma {:induction false} WalkAppend(g: Graph, s: Step, dir: Dir, cur: Node, t: Path, c: Crossing)
    requires IsWalk(g, s, dir, cur, t) && CanCross(g, s, dir, End(cur, t), c)
    ensures IsWalk(g, s, dir, cur, t + [c])
    decreases |t|
  {
    if t == [] {
      assert [c][1..] == [];
    } else {
      assert (t + [c])[1..] == t[1..] + [c];
      WalkAppend(g, s, dir, t[0].To(), t[1..], c);
    }
  }

  lemma {:induction false} WalkSplit(g: Graph, s: Step, dir: Dir, cur: Node, t: Path, k: nat)
    requires IsWalk(g, s, dir, cur, t) && k <= |t|
    ensures IsWalk(g, s, dir, cur, t[..k])
    ensures k < |t| ==> CanCross(g, s, dir, End(cur, t[..k]), t[k])
    decreases |t|
  {
    if k > 0 {
      WalkSplit(g, s, dir, t[0].To(), t[1..], k - 1);
      assert t[..k][1..] == t[1..][..k - 1];
    }
  }

  lemma {:induction false} WalkInGraph(g: Graph, s: Step, dir: Dir, cur: Node, t: Path)
    requires IsWalk(g, s, dir, cur, t)
    ensures Crossed(t) <= g.Rels()
  {
    forall i | 0 <= i < |t| ensures t[i].rel in g.Rels() {
      WalkSplit(g, s, dir, cur, t, i);
    }
  }

  lemma {:induction false} DistinctSize(t: Path)
    requires Distinct(t)
    ensures |Crossed(t)| == |t|
  {
    if t != [] {
      var front := t[..|t| - 1];
      DistinctSize(front);
      assert Crossed(t) == Crossed(front) + {t[|t| - 1].rel};
    }
  }

  /** No trail is longer than the graph has relationships left: why a hop without an upper bound
      still ends. */
  lemma TrailBounded(g: Graph, s: Step, dir: Dir, cur: Node, used: set<Rel>, t: Path)
    requires IsTrail(g, s, dir, cur, used, t)
    ensures |t| <= |g.Rels() - used|
  {
    WalkInGraph(g, s, dir, cur, t);
    DistinctSize(t);
    SubsetSize(Crossed(t), g.Rels() - used);
  }

  lemma {:induction false} SubsetSize<T>(a: set<T>, b: set<T>)
    requires a <= b
    ensures |a| <= |b|
  {
    if a != {} {
      var x :| x in a;
      SubsetSize(a - {x}, b - {x});
    }
  }
}
