/** Which property indexes a write transaction's unflushed changes, or its own statement's writes, may have
    made stale, and so may not be sought. */
module PendingDelta {

  datatype Option<T> = None | Some(value: T)

  // ------------------------------------------------------------------ changes

  type Id = nat

  datatype Change =
    | SetNodeProperty(node: nat, prop: Id)
    | DelNodeProperty(node: nat, prop: Id)
    | AddNodeLabel(node: nat, lab: Id)
    | RemoveNodeLabel(node: nat, lab: Id)
    | EdgeChange(kind: nat)

  /** The interned names; an id or a name is in a table at most once. */
  datatype Registry = Registry(props: map<Id, string>, labels: map<Id, string>)
  {
    ghost predicate Valid() {
      && (forall a, b :: a in props && b in props && props[a] == props[b] ==> a == b)
      && (forall a, b :: a in labels && b in labels && labels[a] == labels[b] ==> a == b)
    }

    predicate PropertyNamed(p: Id) { p in props && props[p] != "" }

    predicate LabelNamed(l: Id) { l in labels && labels[l] != "" }
  }

  /** An index bound to the label and property consumes the change. */
  predicate Concerns(c: Change, lab: Id, prop: Id) {
    match c
    case SetNodeProperty(_, p) => p == prop
    case DelNodeProperty(_, p) => p == prop
    case AddNodeLabel(_, l) => l == lab
    case RemoveNodeLabel(_, l) => l == lab
    case EdgeChange(_) => false
  }

  /** lab and prop are the ids of an index a seek on (label, property) may use; a seek without a label may
      use an index on any. */
  predicate Serves(reg: Registry, lab: Id, prop: Id, l: string, p: string) {
    && reg.PropertyNamed(prop) && reg.props[prop] == p
    && reg.LabelNamed(lab) && (l != "" ==> reg.labels[lab] == l)
  }

  // ------------------------------------------------------------------ plans that write

  datatype NodeWriteKind = CreateNode | SetAllProperties | DeleteNode | DetachDelete | Merge | MergePattern

  datatype Plan =
    | Nil
    | LabelScan(v: string, lab: string)
    | Selection(id: nat, child: Plan)
    | SetProperty(key: string, child: Plan)
    | RemoveProperty(key: string, child: Plan)
    | SetLabels(labs: seq<string>, child: Plan)
    | RemoveLabels(labs: seq<string>, child: Plan)
    | NodeWrite(kind: NodeWriteKind, child: Plan)
    | RelWrite(child: Plan)
    | Other(children: seq<Plan>)

  /** One operator, of whatever its input, may write the change. A key or label that is not known before
      the run may turn out to be any. */
  ghost predicate Emits(reg: Registry, p: Plan, c: Change) {
    match p
    case SetProperty(key, _) => (c.SetNodeProperty? || c.DelNodeProperty?) && c.prop in reg.props && (key == "" || reg.props[c.prop] == key)
    case RemoveProperty(key, _) => c.DelNodeProperty? && c.prop in reg.props && (key == "" || reg.props[c.prop] == key)
    case SetLabels(labs, _) => c.AddNodeLabel? && c.lab in reg.labels && ("" in labs || reg.labels[c.lab] in labs)
    case RemoveLabels(labs, _) => c.RemoveNodeLabel? && c.lab in reg.labels && ("" in labs || reg.labels[c.lab] in labs)
    case NodeWrite(_, _) => true
    case RelWrite(_) => c.EdgeChange?
    case _ => false
  }

  function Children(p: Plan): (cs: seq<Plan>)
    ensures forall i :: 0 <= i < |cs| ==> cs[i] < p
  {
    match p
    case Nil => []
    case LabelScan(_, _) => []
    case Other(cs) => cs
    case _ => [p.child]
  }

  ghost predicate MayEmit(reg: Registry, p: Plan, c: Change)
    decreases p
  {
    Emits(reg, p, c) || exists i :: 0 <= i < |Children(p)| && MayEmit(reg, Children(p)[i], c)
  }

  // ------------------------------------------------------------------ the summary

  /** What one operator's own write covers, whatever its input. */
  predicate CoversHere(plan: Plan, l: string, p: string) {
    match plan
    case SetProperty(key, _) => key == "" || key == p
    case RemoveProperty(key, _) => key == "" || key == p
    case SetLabels(labs, _) => "" in labs || l in labs || (l == "" && labs != [])
    case RemoveLabels(labs, _) => "" in labs || l in labs || (l == "" && labs != [])
    case NodeWrite(_, _) => true
    case _ => false
  }

  predicate Covers(plan: Plan, l: string, p: string)
    decreases plan
  {
    CoversHere(plan, l, p) || exists i :: 0 <= i < |Children(plan)| && Covers(Children(plan)[i], l, p)
  }

  class PendingIndexDelta {
    var props: set<string>
    var labels: set<string>
    var all: bool
    var buffered: PendingIndexDelta?
    var ownLeaf: Option<nat>

    constructor ()
      ensures props == {} && labels == {} && !all && buffered == null && ownLeaf == None
    {
      props, labels, all, buffered, ownLeaf := {}, {}, false, null, None;
    }

    predicate Blocks(l: string, p: string)
      reads this
    {
      all || p in props || (if l == "" then labels != {} else l in labels)
    }

    predicate Empty()
      reads this
    {
      !all && props == {} && labels == {}
    }

    method AddProp(name: string)
      modifies this`props, this`all
      ensures forall l, p :: Blocks(l, p) <==> old(Blocks(l, p)) || name == "" || name == p
      ensures name == "" ==> all
      ensures old(all) ==> all
    {
      if name == "" { all := true; return; }
      props := props + {name};
    }

    method AddLabel(name: string)
      modifies this`labels, this`all
      ensures forall l, p :: Blocks(l, p) <==> old(Blocks(l, p)) || name == "" || name == l || l == ""
      ensures name == "" ==> all
      ensures old(all) ==> all
    {
      if name == "" { all := true; return; }
      labels := labels + {name};
    }

    method AddLabels(labs: seq<string>)
      modifies this`labels, this`all
      ensures forall l, p :: Blocks(l, p) <==> old(Blocks(l, p)) || "" in labs || l in labs || (l == "" && labs != [])
      ensures old(all) ==> all
    {
      for i := 0 to |labs|
        invariant forall l, p :: Blocks(l, p) <==> old(Blocks(l, p)) || "" in labs[..i] || l in labs[..i] || (l == "" && i > 0)
        invariant old(all) ==> all
      {
        assert labs[..i + 1] == labs[..i] + [labs[i]];
        AddLabel(labs[i]);
      }
      assert labs[..|labs|] == labs;
    }

    /** Folds in what the statement's own write clauses may touch: exactly their coordinates, or, once one
        of them is not known before the run, everything. */
    method AddPlanWrites(plan: Plan)
      modifies this`props, this`labels, this`all
      ensures forall l, p :: Blocks(l, p) <==> old(Blocks(l, p)) || Covers(plan, l, p)
      ensures old(all) ==> all
      decreases plan
    {
      if plan.Nil? || all { return; }
      match plan {
        case SetProperty(key, _) => AddProp(key);
        case RemoveProperty(key, _) => AddProp(key);
        case SetLabels(labs, _) => AddLabels(labs);
        case RemoveLabels(labs, _) => AddLabels(labs);
        case NodeWrite(_, _) =>
          all := true;
          return;
        case _ =>
      }
      assert forall l, p :: Blocks(l, p) <==> old(Blocks(l, p)) || CoversHere(plan, l, p);
      var cs := Children(plan);
      for i := 0 to |cs|
        invariant old(all) ==> all
        invariant forall l, p :: Blocks(l, p) <==>
                    old(Blocks(l, p)) || CoversHere(plan, l, p) || exists j :: 0 <= j < i && Covers(cs[j], l, p)
      {
        AddPlanWrites(cs[i]);
      }
    }
  }

  /** The empty pointer blocks nothing. */
  predicate BlocksNodeIndex(d: PendingIndexDelta?, l: string, p: string)
    reads d
  {
    d != null && d.Blocks(l, p)
  }

  /** One buffered change makes the summary block the pair. */
  predicate Touches(reg: Registry, c: Change, l: string, p: string) {
    match c
    case SetNodeProperty(_, k) => !reg.PropertyNamed(k) || reg.props[k] == p
    case DelNodeProperty(_, k) => !reg.PropertyNamed(k) || reg.props[k] == p
    case AddNodeLabel(_, k) => !reg.LabelNamed(k) || reg.labels[k] == l || l == ""
    case RemoveNodeLabel(_, k) => !reg.LabelNamed(k) || reg.labels[k] == l || l == ""
    case EdgeChange(_) => false
  }

  predicate TouchedBy(reg: Registry, buf: seq<Change>, l: string, p: string) {
    exists i :: 0 <= i < |buf| && Touches(reg, buf[i], l, p)
  }

  method NewPendingIndexDelta(buf: seq<Change>, reg: Registry) returns (r: PendingIndexDelta?)
    ensures r != null ==> fresh(r) && r.buffered == null && r.ownLeaf == None
    ensures forall l, p :: BlocksNodeIndex(r, l, p) <==> TouchedBy(reg, buf, l, p)
  {
    if buf == [] { return null; }
    var d := new PendingIndexDelta();
    for i := 0 to |buf|
      invariant d.buffered == null && d.ownLeaf == None
      invariant forall l, p :: d.Blocks(l, p) <==> TouchedBy(reg, buf[..i], l, p)
    {
      Extend(reg, buf, i);
      var c := buf[i];
      if c.SetNodeProperty? || c.DelNodeProperty? {
        d.AddProp(if c.prop in reg.props then reg.props[c.prop] else "");
      } else if c.AddNodeLabel? || c.RemoveNodeLabel? {
        d.AddLabel(if c.lab in reg.labels then reg.labels[c.lab] else "");
      }
    }
    assert buf[..|buf|] == buf;
    if d.Empty() { return null; }
    return d;
  }

  lemma Extend(reg: Registry, buf: seq<Change>, i: nat)
    requires i < |buf|
    ensures forall l, p :: TouchedBy(reg, buf[..i + 1], l, p) <==> TouchedBy(reg, buf[..i], l, p) || Touches(reg, buf[i], l, p)
  {
    assert buf[..i + 1] == buf[..i] + [buf[i]];
    forall l, p ensures TouchedBy(reg, buf[..i + 1], l, p) <==> TouchedBy(reg, buf[..i], l, p) || Touches(reg, buf[i], l, p) {
      if TouchedBy(reg, buf[..i], l, p) {
        var j :| 0 <= j < i && Touches(reg, buf[..i][j], l, p);
        assert buf[..i + 1][j] == buf[..i][j];
      }
      if Touches(reg, buf[i], l, p) { assert buf[..i + 1][i] == buf[i]; }
      if TouchedBy(reg, buf[..i + 1], l, p) {
        var j :| 0 <= j < i + 1 && Touches(reg, buf[..i + 1][j], l, p);
        assert j < i ==> buf[..i][j] == buf[..i + 1][j];
      }
    }
  }

  // ------------------------------------------------------------------ the statement's sole seek leaf

  function InitOnceChild(p: Plan): Option<Plan> {
    if p.SetProperty? || p.RemoveProperty? || p.SetLabels? || p.RemoveLabels? then Some(p.child) else None
  }

  function SoleSeekLeaf(p: Plan): Option<nat> {
    if p.Selection? then if p.child.LabelScan? then Some(p.id) else None
    else match InitOnceChild(p) case Some(c) => SoleSeekLeaf(c) case None => None
  }

  /** The loop of the source. */
  method FindSoleSeekLeaf(p: Plan) returns (r: Option<nat>)
    ensures r == SoleSeekLeaf(p)
  {
    var q := p;
    while !q.Nil?
      invariant SoleSeekLeaf(q) == SoleSeekLeaf(p)
      decreases q
    {
      if q.Selection? { return if q.child.LabelScan? then Some(q.id) else None; }
      var c := InitOnceChild(q);
      if c.None? { return None; }
      q := c.value;
    }
    return None;
  }

  /** Any number of the four plain writes over a selection on a labelled scan. */
  predicate PlainChain(p: Plan, sel: nat) {
    match p
    case Selection(_, _) => p.id == sel && p.child.LabelScan?
    case SetProperty(_, _) => PlainChain(p.child, sel)
    case RemoveProperty(_, _) => PlainChain(p.child, sel)
    case SetLabels(_, _) => PlainChain(p.child, sel)
    case RemoveLabels(_, _) => PlainChain(p.child, sel)
    case _ => false
  }

  /** The sole seek leaf is a chain's selection, and nothing but a chain has one. */
  lemma {:induction false} LeafOfChain(p: Plan, sel: nat)
    ensures SoleSeekLeaf(p) == Some(sel) <==> PlainChain(p, sel)
    decreases p
  {
    if InitOnceChild(p).Some? { LeafOfChain(p.child, sel); }
  }

  /** The summary a write statement's build must respect, and what a seek replacing one selection must. */
  method MutatorIndexDelta(buf: seq<Change>, reg: Registry, indexes: nat, plan: Plan) returns (d: PendingIndexDelta?)
    ensures indexes == 0 ==> d == null
    ensures indexes > 0 ==> forall l, p :: BlocksNodeIndex(d, l, p) <==> TouchedBy(reg, buf, l, p) || Covers(plan, l, p)
    ensures indexes > 0 ==> forall sel: nat, l, p ::
      BlocksNodeIndex(ForSeekFrom(d, sel), l, p) <==>
      TouchedBy(reg, buf, l, p) || (SoleSeekLeaf(plan) != Some(sel) && Covers(plan, l, p))
  {
    if indexes == 0 { return null; }
    var half := NewPendingIndexDelta(buf, reg);
    var own := new PendingIndexDelta();
    own.AddPlanWrites(plan);
    if own.Empty() {
      assert forall l, p :: !own.Blocks(l, p);
      return half;
    }
    d := own;
    if half != null {
      d := new PendingIndexDelta();
      d.props, d.labels, d.all := half.props + own.props, half.labels + own.labels, own.all || half.all;
      assert forall l, p :: d.Blocks(l, p) <==> half.Blocks(l, p) || own.Blocks(l, p);
    }
    var leaf := FindSoleSeekLeaf(plan);
    d.buffered, d.ownLeaf := half, leaf;
    assert d != half;
  }

  function ForSeekFrom(d: PendingIndexDelta?, sel: nat): PendingIndexDelta?
    reads d
  {
    if d == null || d.ownLeaf != Some(sel) then d else d.buffered
  }

  // ------------------------------------------------------------------ sound, and no coarser than it need be

  /** What one operator may write reaches an index on the pair exactly when the summary covers it. */
  lemma CoversHereExact(reg: Registry, plan: Plan, lab: Id, prop: Id, l: string, p: string)
    requires reg.Valid() && Serves(reg, lab, prop, l, p)
    ensures (exists c :: Emits(reg, plan, c) && Concerns(c, lab, prop)) ==> CoversHere(plan, l, p)
    ensures l != "" && CoversHere(plan, l, p) ==> exists c :: Emits(reg, plan, c) && Concerns(c, lab, prop)
  {
    var d, a, r := DelNodeProperty(0, prop), AddNodeLabel(0, lab), RemoveNodeLabel(0, lab);
    assert Concerns(d, lab, prop) && Concerns(a, lab, prop) && Concerns(r, lab, prop);
    if l != "" && CoversHere(plan, l, p) {
      assert Emits(reg, plan, d) || Emits(reg, plan, a) || Emits(reg, plan, r);
    }
  }

  /** No run of the plan writes what an index on an uncovered pair would consume; and a covered pair is one
      some run could write. */
  lemma {:induction false} CoversExact(reg: Registry, plan: Plan, lab: Id, prop: Id, l: string, p: string)
    requires reg.Valid() && Serves(reg, lab, prop, l, p)
    ensures (exists c :: MayEmit(reg, plan, c) && Concerns(c, lab, prop)) ==> Covers(plan, l, p)
    ensures l != "" && Covers(plan, l, p) ==> exists c :: MayEmit(reg, plan, c) && Concerns(c, lab, prop)
    decreases plan
  {
    CoversHereExact(reg, plan, lab, prop, l, p);
    if exists c :: MayEmit(reg, plan, c) && Concerns(c, lab, prop) {
      var c :| MayEmit(reg, plan, c) && Concerns(c, lab, prop);
      if !Emits(reg, plan, c) {
        var i :| 0 <= i < |Children(plan)| && MayEmit(reg, Children(plan)[i], c);
        CoversExact(reg, Children(plan)[i], lab, prop, l, p);
      }
    }
    if l != "" && Covers(plan, l, p) {
      if CoversHere(plan, l, p) {
        var c :| Emits(reg, plan, c) && Concerns(c, lab, prop);
        assert MayEmit(reg, plan, c);
      } else {
        var i :| 0 <= i < |Children(plan)| && Covers(Children(plan)[i], l, p);
        CoversExact(reg, Children(plan)[i], lab, prop, l, p);
        var c :| MayEmit(reg, Children(plan)[i], c) && Concerns(c, lab, prop);
        assert MayEmit(reg, plan, c);
      }
    }
  }

  /** A buffered change an index on the pair would consume always blocks it; and, every id resolving, only
      such a change does. */
  lemma TouchedExact(reg: Registry, buf: seq<Change>, lab: Id, prop: Id, l: string, p: string)
    requires reg.Valid() && Serves(reg, lab, prop, l, p)
    ensures (exists i :: 0 <= i < |buf| && Concerns(buf[i], lab, prop)) ==> TouchedBy(reg, buf, l, p)
    ensures l != "" && (forall i :: 0 <= i < |buf| ==> Resolves(reg, buf[i])) ==>
      (TouchedBy(reg, buf, l, p) ==> exists i :: 0 <= i < |buf| && Concerns(buf[i], lab, prop))
  {
    if exists i :: 0 <= i < |buf| && Concerns(buf[i], lab, prop) {
      var i :| 0 <= i < |buf| && Concerns(buf[i], lab, prop);
      assert Touches(reg, buf[i], l, p);
    }
  }

  predicate Resolves(reg: Registry, c: Change) {
    match c
    case SetNodeProperty(_, k) => reg.PropertyNamed(k)
    case DelNodeProperty(_, k) => reg.PropertyNamed(k)
    case AddNodeLabel(_, k) => reg.LabelNamed(k)
    case RemoveNodeLabel(_, k) => reg.LabelNamed(k)
    case EdgeChange(_) => true
  }

  // ------------------------------------------------------------------ runs

  datatype Event = Lookup(sel: nat) | Write(c: Change)

  /** A run's initialisation and its rows. A seek replacing a selection over a labelled scan drains its
      postings when initialised; the four plain write operators initialise their input once and write as
      rows come; of any other operator only what it may write is known. */
  ghost predicate Run(reg: Registry, p: Plan, init: seq<Event>, rows: seq<Event>)
    decreases p
  {
    if p.Selection? && p.child.LabelScan? then (init == [] || init == [Lookup(p.id)]) && rows == []
    else if InitOnceChild(p).Some? then
      exists below: seq<Event> :: Run(reg, p.child, init, below) &&
        forall i :: 0 <= i < |rows| ==> rows[i] in below || (rows[i].Write? && Emits(reg, p, rows[i].c))
    else forall i :: 0 <= i < |init + rows| && (init + rows)[i].Write? ==> MayEmit(reg, p, (init + rows)[i].c)
  }

  lemma {:induction false} WritesMayBeEmitted(reg: Registry, p: Plan, init: seq<Event>, rows: seq<Event>, e: Event)
    requires Run(reg, p, init, rows) && e.Write? && (e in init || e in rows)
    ensures MayEmit(reg, p, e.c)
    decreases p
  {
    if p.Selection? && p.child.LabelScan? {
      assert false;
    } else if InitOnceChild(p).Some? {
      var below :| Run(reg, p.child, init, below) &&
                   forall i :: 0 <= i < |rows| ==> rows[i] in below || (rows[i].Write? && Emits(reg, p, rows[i].c));
      if e in init || e in below {
        WritesMayBeEmitted(reg, p.child, init, below, e);
        assert Children(p)[0] == p.child;
      }
    } else {
      assert e in init + rows;
    }
  }

  /** The sole seek leaf looks up before the statement writes anything, and never again. */
  lemma {:induction false} SoleLeafLooksFirst(reg: Registry, p: Plan, init: seq<Event>, rows: seq<Event>)
    requires SoleSeekLeaf(p).Some? && Run(reg, p, init, rows)
    ensures forall i :: 0 <= i < |init| ==> init[i].Lookup?
    ensures forall i :: 0 <= i < |rows| ==> rows[i].Write?
    decreases p
  {
    if !p.Selection? {
      var below :| Run(reg, p.child, init, below) &&
                   forall i :: 0 <= i < |rows| ==> rows[i] in below || (rows[i].Write? && Emits(reg, p, rows[i].c));
      SoleLeafLooksFirst(reg, p.child, init, below);
    }
  }

  /** A seek the summary does not block reads an index that is not stale: at the moment of the lookup, in
      any run, no change the transaction has buffered or the statement has written is one the index would
      consume. */
  lemma UnblockedSeekIsFresh(reg: Registry, buf: seq<Change>, plan: Plan, init: seq<Event>, rows: seq<Event>, k: nat,
                             l: string, p: string, lab: Id, prop: Id)
    requires reg.Valid() && Serves(reg, lab, prop, l, p) && Run(reg, plan, init, rows)
    requires k < |init + rows| && (init + rows)[k].Lookup?
    requires !(TouchedBy(reg, buf, l, p) || (SoleSeekLeaf(plan) != Some((init + rows)[k].sel) && Covers(plan, l, p)))
    ensures forall i :: 0 <= i < |buf| ==> !Concerns(buf[i], lab, prop)
    ensures forall i :: 0 <= i < k && (init + rows)[i].Write? ==> !Concerns((init + rows)[i].c, lab, prop)
  {
    TouchedExact(reg, buf, lab, prop, l, p);
    var all := init + rows;
    forall i | 0 <= i < k && all[i].Write? ensures !Concerns(all[i].c, lab, prop) {
      if SoleSeekLeaf(plan).Some? {
        SoleLeafLooksFirst(reg, plan, init, rows);
      } else {
        WritesMayBeEmitted(reg, plan, init, rows, all[i]);
        CoversExact(reg, plan, lab, prop, l, p);
      }
    }
  }
}
