/** The property index as a candidate filter for MERGE: when it answers, no matching node is missing. */
module MergeProbe {

  import opened PendingDelta

  // ------------------------------------------------------------------ values and the graph

  /** A stored value; a float is the real it denotes, or not a number. */
  datatype Val = Str(s: string) | IntV(i: int) | FloatV(x: real) | NaN | OtherV(id: nat)

  /** Equality of two stored values: integers and floats by value, not a number equal to nothing. */
  predicate Same(a: Val, b: Val) {
    if a.NaN? || b.NaN? then false
    else if a.IntV? && b.FloatV? then a.i as real == b.x
    else if a.FloatV? && b.IntV? then a.x == b.i as real
    else a == b
  }

  datatype NodeState = NodeState(labels: set<Id>, props: map<Id, Val>)

  type Graph = map<nat, NodeState>

  function At(g: Graph, n: nat): NodeState { if n in g then g[n] else NodeState({}, map[]) }

  /** What a change does to the node it names; a set property's value is whatever the writer stored. */
  ghost predicate Wrote(before: Graph, c: Change, after: Graph) {
    forall m: nat {:trigger At(after, m)} ::
      var s, t := At(before, m), At(after, m);
      match c
      case SetNodeProperty(n, p) => if m == n then t.labels == s.labels && t.props - {p} == s.props - {p} && p in t.props else t == s
      case DelNodeProperty(n, p) => if m == n then t == s.(props := s.props - {p}) else t == s
      case AddNodeLabel(n, l) => if m == n then t == s.(labels := s.labels + {l}) else t == s
      case RemoveNodeLabel(n, l) => if m == n then t == s.(labels := s.labels - {l}) else t == s
      case EdgeChange(_) => t == s
  }

  /** The transaction's view: the graphs its buffered writes lead through, from its snapshot. */
  ghost predicate Leads(views: seq<Graph>, buf: seq<Change>) {
    |views| == |buf| + 1 && forall i :: 0 <= i < |buf| ==> Wrote(views[i], buf[i], views[i + 1])
  }

  /** The value an index on the pair files the node under, if any. */
  function Entry(g: Graph, n: nat, lab: Id, prop: Id): Option<Val> {
    if lab in At(g, n).labels && prop in At(g, n).props then Some(At(g, n).props[prop]) else None
  }

  predicate Touch(buf: seq<Change>, lab: Id, prop: Id) { exists i :: 0 <= i < |buf| && Concerns(buf[i], lab, prop) }

  lemma TouchGrows(buf: seq<Change>, k: nat, lab: Id, prop: Id)
    requires k <= |buf|
    ensures Touch(buf[..k], lab, prop) ==> Touch(buf, lab, prop)
  {
    if i :| 0 <= i < k && Concerns(buf[..k][i], lab, prop) { assert Concerns(buf[i], lab, prop); }
  }

  lemma StepKeepsEntry(g: Graph, c: Change, h: Graph, n: nat, lab: Id, prop: Id)
    requires Wrote(g, c, h) && !Concerns(c, lab, prop)
    ensures Entry(h, n, lab, prop) == Entry(g, n, lab, prop)
  {
    var s, t := At(g, n), At(h, n);
    if c.SetNodeProperty? && c.node == n {
      assert prop in t.props <==> prop in t.props - {c.prop};
      assert prop in s.props <==> prop in s.props - {c.prop};
      assert prop in t.props ==> (t.props - {c.prop})[prop] == t.props[prop];
    }
  }

  /** Writes that do not concern the pair leave every node's entry as the snapshot has it. */
  lemma {:induction false} UntouchedEntries(views: seq<Graph>, buf: seq<Change>, n: nat, lab: Id, prop: Id)
    requires Leads(views, buf) && !Touch(buf, lab, prop)
    ensures Entry(views[|buf|], n, lab, prop) == Entry(views[0], n, lab, prop)
    decreases |buf|
  {
    if buf != [] {
      var k := |buf| - 1;
      var front := buf[..k];
      forall i | 0 <= i < |front| ensures Wrote(views[..k + 1][i], front[i], views[..k + 1][i + 1]) {
        assert front[i] == buf[i];
      }
      TouchGrows(buf, k, lab, prop);
      UntouchedEntries(views[..k + 1], front, n, lab, prop);
      StepKeepsEntry(views[k], buf[k], views[k + 1], n, lab, prop);
    }
  }

  // ------------------------------------------------------------------ the two companions

  /** How the float companion keys a number: a float by itself, an integer rounded, exactly when it can be. */
  datatype Rounding = Rounding(round: int -> real, float: real -> bool)
  {
    ghost predicate Valid() { forall i: int :: float(i as real) ==> round(i) == i as real }
  }

  function NumericKey(k: Rounding, v: Val): Option<real> {
    match v case IntV(i) => Some(k.round(i)) case FloatV(x) => Some(x) case _ => None
  }

  /** Equal numbers have one key, so the companion's rounding can only add candidates. */
  lemma EqualSameKey(k: Rounding, a: Val, b: Val)
    requires k.Valid() && Same(a, b) && NumericKey(k, a).Some?
    requires (a.FloatV? ==> k.float(a.x)) && (b.FloatV? ==> k.float(b.x))
    ensures NumericKey(k, b) == NumericKey(k, a)
  {
  }

  /** The contents of the two indexes on a pair, as of a graph: a string filed unless it is a tagged
      temporal value, a number under its key. */
  ghost predicate Describes(g: Graph, lab: Id, prop: Id, k: Rounding, temporal: string -> bool,
                            strs: map<string, seq<nat>>, nums: map<real, seq<nat>>) {
    forall n: nat {:trigger Entry(g, n, lab, prop)} ::
      var e := Entry(g, n, lab, prop);
      && (e.Some? && e.value.Str? && !temporal(e.value.s) ==> e.value.s in strs && n in strs[e.value.s])
      && (e.Some? && NumericKey(k, e.value).Some? ==>
            NumericKey(k, e.value).value in nums && n in nums[NumericKey(k, e.value).value])
  }

  ghost predicate FloatsOnly(g: Graph, k: Rounding) {
    forall n, p :: n in g && p in g[n].props && g[n].props[p].FloatV? ==> k.float(g[n].props[p].x)
  }

  // ------------------------------------------------------------------ the probe

  class MergeIndexProbe {
    const labelID: Id
    const propID: Id
    const hasStr: bool
    const hasNum: bool
    var scanned: nat
    var dirty: bool

    constructor (lab: Id, prop: Id, hasStr: bool, hasNum: bool)
      ensures labelID == lab && propID == prop && this.hasStr == hasStr && this.hasNum == hasNum && Tracks([])
    {
      labelID, propID, this.hasStr, this.hasNum := lab, prop, hasStr, hasNum;
      scanned, dirty := 0, false;
    }

    /** The probe has looked at the whole of a buffer, or at as much of it as it took to find a change. */
    predicate Tracks(seen: seq<Change>)
      reads this
    {
      dirty == Touch(seen, labelID, propID) && scanned <= |seen| && (!dirty ==> scanned == |seen|)
    }

    /** Looking only at what is new since the last call gives what a full rescan of the grown buffer would; a
        buffer that has shrunk is refused, and stays refused. */
    method OwnWritesTouch(pend: seq<Change>, ghost seen: seq<Change>) returns (touch: bool)
      modifies this
      ensures old(Tracks(seen)) && seen <= pend ==> touch == Touch(pend, labelID, propID) && Tracks(pend)
      ensures old(dirty) || |pend| < old(scanned) ==> touch && dirty
    {
      ghost var grown := Tracks(seen) && seen <= pend;
      assert grown ==> forall i :: 0 <= i < |seen| ==> pend[i] == seen[i];
      if dirty { return true; }
      if |pend| < scanned {
        dirty := true;
        return true;
      }
      for j := scanned to |pend|
        invariant !dirty && scanned == old(scanned)
        invariant grown ==> forall i :: 0 <= i < j ==> !Concerns(pend[i], labelID, propID)
      {
        match pend[j] {
          case SetNodeProperty(_, p) => if p == propID { dirty := true; }
          case DelNodeProperty(_, p) => if p == propID { dirty := true; }
          case AddNodeLabel(_, l) => if l == labelID { dirty := true; }
          case RemoveNodeLabel(_, l) => if l == labelID { dirty := true; }
          case EdgeChange(_) =>
        }
        if dirty {
          assert Concerns(pend[j], labelID, propID);
          return true;
        }
      }
      scanned := |pend|;
      return false;
    }

    /** When the probe answers, every node of the transaction's own view that carries the label and holds an
        equal value is among the candidates; views is the path from its snapshot to that view. */
    method Candidates(v: Val, pend: seq<Change>, strs: map<string, seq<nat>>, nums: map<real, seq<nat>>, k: Rounding,
                      temporal: string -> bool, describes: bool, ghost seen: seq<Change>, ghost views: seq<Graph>)
      returns (ids: seq<nat>, ok: bool)
      requires Tracks(seen) && seen <= pend && Leads(views, pend) && k.Valid()
      requires describes ==> Describes(views[0], labelID, propID, k, temporal, strs, nums)
      requires FloatsOnly(views[|pend|], k) && (v.FloatV? ==> k.float(v.x))
      modifies this
      ensures Tracks(pend)
      ensures ok ==> forall n: nat ::
        var e := Entry(views[|pend|], n, labelID, propID);
        e.Some? && Same(e.value, v) ==> n in ids
      ensures ok <==> describes && !Touch(pend, labelID, propID) && Probed(v, k, temporal)
    {
      ids := [];
      var touch := OwnWritesTouch(pend, seen);
      if touch { return [], false; }
      match v {
        case Str(s) =>
          if !hasStr || temporal(s) { return [], false; }
          ids := if s in strs then strs[s] else [];
        case IntV(_) =>
          if !hasNum { return [], false; }
          var key := NumericKey(k, v).value;
          ids := if key in nums then nums[key] else [];
        case FloatV(x) =>
          if !hasNum { return [], false; }
          ids := if x in nums then nums[x] else [];
        case _ => return [], false;
      }
      if !describes { return [], false; }
      forall n: nat | Entry(views[|pend|], n, labelID, propID).Some? && Same(Entry(views[|pend|], n, labelID, propID).value, v)
        ensures n in ids
      {
        var e := Entry(views[|pend|], n, labelID, propID);
        UntouchedEntries(views, pend, n, labelID, propID);
        assert Entry(views[0], n, labelID, propID) == e;
        if v.IntV? || v.FloatV? { EqualSameKey(k, v, e.value); }
      }
      return ids, true;
    }

    /** The kinds of value an index on the pair can answer for. */
    predicate Probed(v: Val, k: Rounding, temporal: string -> bool) {
      if v.Str? then hasStr && !temporal(v.s) else (v.IntV? || v.FloatV?) && hasNum
    }
  }
}
