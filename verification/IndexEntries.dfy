/** One node against one index bound to a label and a property: what a transaction's writes buffer, and
    what the index's maintenance rules make of it. */
module IndexEntries {

  datatype Option<T> = None | Some(value: T)

  /** A property value; only strings are indexed. */
  datatype Val = Str(text: string) | Num(n: int)

  function Project(v: Option<Val>): Option<string> {
    if v.Some? && v.value.Str? then Some(v.value.text) else None
  }

  /** What the index reads of a node: whether it lives, carries the label, and its property. */
  datatype NodeState = NodeState(live: bool, labelled: bool, prop: Option<Val>)
  {
    predicate Eligible() { live && labelled }

    /** The value a commit-time read finds: none on a node that does not exist. */
    function Current(): Option<string> { if live then Project(prop) else None }
  }

  /** A node that does not live is bare. */
  predicate Possible(s: NodeState) { s.live || s == Absent }

  const Absent := NodeState(false, false, None)

  /** The entries the index must hold for the node. */
  function Entries(s: NodeState): set<string> {
    if s.Eligible() && Project(s.prop).Some? then {Project(s.prop).value} else {}
  }

  /** A write that takes effect: one that changes nothing writes no version and buffers nothing. */
  datatype Write = Create | SetProp(v: Val) | DelProp | AddLabel | RemoveLabel | Delete

  /** A deletion comes after the node has been stripped. */
  predicate TakesEffect(s: NodeState, w: Write) {
    match w
    case Create => !s.live
    case SetProp(v) => s.live && s.prop != Some(v)
    case DelProp => s.live && s.prop.Some?
    case AddLabel => s.live && !s.labelled
    case RemoveLabel => s.live && s.labelled
    case Delete => s.live && !s.labelled && s.prop.None?
  }

  function Effect(s: NodeState, w: Write): NodeState {
    match w
    case Create => NodeState(true, false, None)
    case SetProp(v) => s.(prop := Some(v))
    case DelProp => s.(prop := None)
    case AddLabel => s.(labelled := true)
    case RemoveLabel => s.(labelled := false)
    case Delete => Absent
  }

  /** What takes effect is what changes a live node, what creates one that is not, or what removes a stripped one. */
  lemma TakesEffectIff(s: NodeState, w: Write)
    ensures TakesEffect(s, w) <==>
      match w
      case Create => !s.live
      case Delete => s == NodeState(true, false, None)
      case _ => s.live && Effect(s, w) != s
  {
  }

  function Run(s: NodeState, ws: seq<Write>): NodeState
    decreases |ws|
  {
    if ws == [] then s else Run(Effect(s, ws[0]), ws[1..])
  }

  predicate Valid(s: NodeState, ws: seq<Write>)
    decreases |ws|
  {
    ws == [] || (TakesEffect(s, ws[0]) && Valid(Effect(s, ws[0]), ws[1..]))
  }

  /** What DELETE writes: the labels stripped, then the properties, then the tombstone. */
  function Deletion(s: NodeState): seq<Write> {
    (if s.labelled then [RemoveLabel] else []) + (if s.prop.Some? then [DelProp] else []) + [Delete]
  }

  lemma DeletionRuns(s: NodeState)
    requires s.live
    ensures Valid(s, Deletion(s)) && Run(s, Deletion(s)) == Absent
  {
    var a, b := if s.labelled then [RemoveLabel] else [], if s.prop.Some? then [DelProp] else [];
    RunAppend(s, a, b);
    RunAppend(s, a + b, [Delete]);
    assert forall w: Write :: [w][1..] == [];
  }

  lemma {:induction false} RunAppend(s: NodeState, a: seq<Write>, b: seq<Write>)
    ensures Run(s, a + b) == Run(Run(s, a), b)
    ensures Valid(s, a + b) <==> Valid(s, a) && Valid(Run(s, a), b)
    decreases |a|
  {
    if a == [] {
      assert a + b == b;
    } else {
      assert (a + b)[1..] == a[1..] + b;
      RunAppend(Effect(s, a[0]), a[1..], b);
    }
  }

  // ------------------------------------------------------------------ stores

  /** Where a write is versioned. Conflicts are found per store, and the node's life is checked against both
      of the others. */
  datatype Store = Life | Labels | Props

  function StoreOf(w: Write): Store {
    if w.Create? || w.Delete? then Life else if w.AddLabel? || w.RemoveLabel? then Labels else Props
  }

  predicate Clash(a: Write, b: Write) { StoreOf(a) == StoreOf(b) || StoreOf(a).Life? || StoreOf(b).Life? }

  predicate Apart(a: seq<Write>, b: seq<Write>) { forall i, j :: 0 <= i < |a| && 0 <= j < |b| ==> !Clash(a[i], b[j]) }

  predicate Only(ws: seq<Write>, st: Store) { forall i :: 0 <= i < |ws| ==> StoreOf(ws[i]) == st }

  lemma ApartOnly(a: seq<Write>, b: seq<Write>)
    requires Apart(a, b) && a != [] && b != []
    ensures (Only(a, Labels) && Only(b, Props)) || (Only(a, Props) && Only(b, Labels))
  {
    assert !Clash(a[0], b[0]);
    forall i | 0 <= i < |a| ensures StoreOf(a[i]) == StoreOf(a[0]) { assert !Clash(a[i], b[0]); }
    forall j | 0 <= j < |b| ensures StoreOf(b[j]) == StoreOf(b[0]) { assert !Clash(a[0], b[j]); }
  }

  lemma {:induction false} LabelRun(s: NodeState, p: Option<Val>, ws: seq<Write>)
    requires Only(ws, Labels)
    ensures Run(s.(prop := p), ws) == Run(s, ws).(prop := p) && Run(s, ws).prop == s.prop
    ensures Valid(s.(prop := p), ws) <==> Valid(s, ws)
    decreases |ws|
  {
    if ws != [] {
      assert StoreOf(ws[0]) == Labels;
      assert forall i :: 0 <= i < |ws[1..]| ==> ws[1..][i] == ws[i + 1];
      LabelRun(Effect(s, ws[0]), p, ws[1..]);
    }
  }

  lemma {:induction false} PropRun(s: NodeState, l: bool, ws: seq<Write>)
    requires Only(ws, Props)
    ensures Run(s.(labelled := l), ws) == Run(s, ws).(labelled := l) && Run(s, ws).labelled == s.labelled
    ensures Valid(s.(labelled := l), ws) <==> Valid(s, ws)
    decreases |ws|
  {
    if ws != [] {
      assert StoreOf(ws[0]) == Props;
      assert forall i :: 0 <= i < |ws[1..]| ==> ws[1..][i] == ws[i + 1];
      PropRun(Effect(s, ws[0]), l, ws[1..]);
    }
  }

  lemma {:induction false} OnlyKeepsLife(s: NodeState, ws: seq<Write>, st: Store)
    requires Only(ws, st) && st != Life
    ensures Run(s, ws).live == s.live
    decreases |ws|
  {
    if ws != [] {
      assert StoreOf(ws[0]) == st;
      assert forall i :: 0 <= i < |ws[1..]| ==> ws[1..][i] == ws[i + 1];
      OnlyKeepsLife(Effect(s, ws[0]), ws[1..], st);
    }
  }

  /** What two transactions write to different stores of a node takes effect in either order, alike. */
  lemma Commute(s: NodeState, a: seq<Write>, b: seq<Write>)
    requires Apart(a, b)
    ensures Run(Run(s, a), b) == Run(Run(s, b), a)
    ensures Valid(s, b) ==> Valid(Run(s, a), b)
  {
    if a != [] && b != [] {
      ApartOnly(a, b);
      if StoreOf(a[0]) == Labels { LabelsFirst(s, a, b); } else { LabelsFirst(s, b, a); }
    }
  }

  lemma LabelsFirst(s: NodeState, a: seq<Write>, b: seq<Write>)
    requires Only(a, Labels) && Only(b, Props)
    ensures Run(Run(s, a), b) == Run(Run(s, b), a)
    ensures (Valid(s, b) <==> Valid(Run(s, a), b)) && (Valid(s, a) <==> Valid(Run(s, b), a))
  {
    var l, p := Run(s, a), Run(s, b);
    LabelRun(s, p.prop, a);
    PropRun(s, l.labelled, b);
    OnlyKeepsLife(s, a, Labels);
    OnlyKeepsLife(s, b, Props);
    assert l == s.(labelled := l.labelled) && p == s.(prop := p.prop);
  }

  // ------------------------------------------------------------------ changes

  datatype Change =
    | SetNodeProperty(before: Option<Val>, after: Val)
    | DelNodeProperty(before: Option<Val>)
    | AddNodeLabel
    | RemoveNodeLabel

  /** What a write buffers. */
  function Buffered(s: NodeState, w: Write): seq<Change> {
    match w
    case Create => []
    case SetProp(v) => [SetNodeProperty(s.prop, v)]
    case DelProp => [DelNodeProperty(s.prop)]
    case AddLabel => [AddNodeLabel]
    case RemoveLabel => [RemoveNodeLabel]
    case Delete => []
  }

  function Changes(s: NodeState, ws: seq<Write>): seq<Change>
    decreases |ws|
  {
    if ws == [] then [] else Buffered(s, ws[0]) + Changes(Effect(s, ws[0]), ws[1..])
  }

  /** The maintenance rules, against the state the commit produces. */
  function Apply(c: Change, final: NodeState, x: set<string>): set<string> {
    match c
    case SetNodeProperty(before, after) =>
      var y := x - Keys(Project(before));
      if final.Eligible() then y + Keys(Project(Some(after))) else y
    case DelNodeProperty(before) => x - Keys(Project(before))
    case AddNodeLabel => if final.Eligible() then x + Keys(final.Current()) else x
    case RemoveNodeLabel => x - Keys(final.Current())
  }

  function Keys(k: Option<string>): set<string> { if k.Some? then {k.value} else {} }

  function ApplyAll(cs: seq<Change>, final: NodeState, x: set<string>): set<string> {
    if cs == [] then x else ApplyAll(cs[1..], final, Apply(cs[0], final, x))
  }

  lemma {:induction false} ApplyAppend(a: seq<Change>, b: seq<Change>, final: NodeState, x: set<string>)
    ensures ApplyAll(a + b, final, x) == ApplyAll(b, final, ApplyAll(a, final, x))
  {
    if a == [] {
      assert a + b == b;
    } else {
      assert (a + b)[1..] == a[1..] + b;
      ApplyAppend(a[1..], b, final, Apply(a[0], final, x));
    }
  }

  /** What a delivery of the writes makes of the entries x. */
  function Delivered(s: NodeState, ws: seq<Write>, x: set<string>): set<string> {
    ApplyAll(Changes(s, ws), Run(s, ws), x)
  }

  // ------------------------------------------------------------------ what a delivery achieves

  function Step(s: NodeState, w: Write, final: NodeState, x: set<string>): set<string> {
    ApplyAll(Buffered(s, w), final, x)
  }

  /** The values whose entries a write's change removes or inserts. */
  function Acts(s: NodeState, w: Write, final: NodeState): set<string> {
    match w
    case Create => {}
    case SetProp(v) => Keys(Project(s.prop)) + if final.Eligible() then Keys(Project(Some(v))) else {}
    case DelProp => Keys(Project(s.prop))
    case AddLabel => if final.Eligible() then Keys(final.Current()) else {}
    case RemoveLabel => Keys(final.Current())
    case Delete => {}
  }

  function ActsAll(s: NodeState, ws: seq<Write>, final: NodeState): set<string>
    decreases |ws|
  {
    if ws == [] then {} else Acts(s, ws[0], final) + ActsAll(Effect(s, ws[0]), ws[1..], final)
  }

  /** The values the delivery of the writes names. */
  function Touched(s: NodeState, ws: seq<Write>): set<string> { ActsAll(s, ws, Run(s, ws)) }

  lemma DeliverHead(s: NodeState, ws: seq<Write>, final: NodeState, x: set<string>)
    requires ws != []
    ensures ApplyAll(Changes(s, ws), final, x) == ApplyAll(Changes(Effect(s, ws[0]), ws[1..]), final, Step(s, ws[0], final, x))
  {
    ApplyAppend(Buffered(s, ws[0]), Changes(Effect(s, ws[0]), ws[1..]), final, x);
  }

  lemma StepAlone(s: NodeState, w: Write, final: NodeState, x: set<string>)
    ensures x - Acts(s, w, final) <= Step(s, w, final, x) <= x + Acts(s, w, final)
    ensures w.SetProp? ==> Step(s, w, final, x) == Apply(SetNodeProperty(s.prop, w.v), final, x)
    ensures w.DelProp? || w.RemoveLabel? ==> Step(s, w, final, x) == x - Acts(s, w, final)
    ensures w.AddLabel? ==> Step(s, w, final, x) == x + Acts(s, w, final)
    ensures w.Create? || w.Delete? ==> Step(s, w, final, x) == x
  {
    match w
    case Create =>
    case SetProp(v) => ApplyOne(SetNodeProperty(s.prop, v), final, x);
    case DelProp => ApplyOne(DelNodeProperty(s.prop), final, x);
    case AddLabel => ApplyOne(AddNodeLabel, final, x);
    case RemoveLabel => ApplyOne(RemoveNodeLabel, final, x);
    case Delete =>
  }

  lemma ApplyOne(c: Change, final: NodeState, x: set<string>)
    ensures ApplyAll([c], final, x) == Apply(c, final, x)
  {
    assert [c][1..] == [];
  }

  /** The value a node has is named by whatever the commit does to its property; if it does nothing to it,
      the node ends with it. */
  lemma {:induction false} ValueNamed(s: NodeState, ws: seq<Write>, final: NodeState)
    requires s.live && Valid(s, ws) && final == Run(s, ws)
    ensures Keys(Project(s.prop)) <= ActsAll(s, ws, final) || (final.live && final.prop == s.prop)
    decreases |ws|
  {
    if ws != [] && !ws[0].SetProp? && !ws[0].DelProp? && !ws[0].Delete? { ValueNamed(Effect(s, ws[0]), ws[1..], final); }
  }

  /** Of the values it names a delivery leaves exactly the entry the node ends with, whatever was held. */
  lemma {:induction false} NamedAreFinal(s: NodeState, ws: seq<Write>, final: NodeState, x: set<string>)
    requires Possible(s) && Valid(s, ws) && final == Run(s, ws)
    ensures var z := ApplyAll(Changes(s, ws), final, x);
      && z * ActsAll(s, ws, final) <= Entries(final)
      && x - ActsAll(s, ws, final) <= z <= x + ActsAll(s, ws, final)
    decreases |ws|
  {
    if ws != [] {
      var w, t, y := ws[0], Effect(s, ws[0]), Step(s, ws[0], final, x);
      DeliverHead(s, ws, final, x);
      StepAlone(s, w, final, x);
      NamedAreFinal(t, ws[1..], final, y);
      if w.SetProp? { ValueNamed(t, ws[1..], final); }
    }
  }

  /** And names it, if anything was written. */
  lemma {:induction false} FinalIsHeld(s: NodeState, ws: seq<Write>, final: NodeState, x: set<string>)
    requires Valid(s, ws) && ws != [] && final == Run(s, ws)
    ensures Entries(final) <= ApplyAll(Changes(s, ws), final, x) && Entries(final) <= ActsAll(s, ws, final)
    decreases |ws|
  {
    DeliverHead(s, ws, final, x);
    StepAlone(s, ws[0], final, x);
    if |ws| > 1 { FinalIsHeld(Effect(s, ws[0]), ws[1..], final, Step(s, ws[0], final, x)); }
  }

  /** The entry from before is named too: it goes, unless it is the final one. */
  lemma OldIsNamed(s: NodeState, ws: seq<Write>)
    requires Possible(s) && Valid(s, ws) && ws != []
    ensures Entries(s) <= Touched(s, ws)
  {
    if Entries(s) != {} && ws[0].RemoveLabel? { ValueNamed(Effect(s, ws[0]), ws[1..], Run(s, ws)); }
  }

  /** A delivery makes the same of whatever the index held: it takes out every value it names, and puts in
      the entry the node ends with. Both the entry from before and the final one are named. */
  lemma DeliveredIs(s: NodeState, ws: seq<Write>, x: set<string>)
    requires Possible(s) && Valid(s, ws) && ws != []
    ensures Delivered(s, ws, x) == (x - Touched(s, ws)) + Entries(Run(s, ws))
    ensures Entries(s) + Entries(Run(s, ws)) <= Touched(s, ws)
  {
    var final := Run(s, ws);
    NamedAreFinal(s, ws, final, x);
    FinalIsHeld(s, ws, final, x);
    OldIsNamed(s, ws);
  }

  /** So a commit keeps an exact index exact. */
  lemma CommitKeepsExact(s: NodeState, ws: seq<Write>)
    requires Possible(s) && Valid(s, ws) && ws != []
    ensures Delivered(s, ws, Entries(s)) == Entries(Run(s, ws))
  {
    DeliveredIs(s, ws, Entries(s));
  }

  lemma {:induction false} RunPossible(s: NodeState, ws: seq<Write>)
    requires Possible(s) && Valid(s, ws)
    ensures Possible(Run(s, ws))
    decreases |ws|
  {
    if ws != [] { RunPossible(Effect(s, ws[0]), ws[1..]); }
  }
}
