/** Exchanging the arms of a disjoint Cartesian: what it keeps, when it is admitted, and why it is then
    never slower. */
module JoinReorder {

  import opened LabelCounts

  // ------------------------------------------------------------------ estimates

  function Weaker(a: Source, b: Source): Source { if a.Rank() > b.Rank() then a else b }

  /** The rows an arm touches to produce its output once, the rows it emits, and the certified absolute
      error of the latter. */
  datatype Cost = Cost(drain: Estimate, rows: Estimate, rowsErr: real)
  {
    function RowsLo(): real { Clamp(rows.rows - rowsErr, drain.rows) }

    function RowsHi(): real { Clamp(rows.rows + rowsErr, drain.rows) }

    predicate HasStats() { drain.source == EstStats || rows.source == EstStats }

    predicate Trusted() { drain.source.Trustworthy() && rows.source.Trustworthy() }
  }

  function Clamp(v: real, drain: real): real { if v < 0.0 then 0.0 else if v > drain then drain else v }

  const Margin := 1.0
  const StatsMargin := 3.0

  /** The nested-loop cost: one drain of the driver, and one of the other arm per row it emits. */
  function NestedLoop(driverDrain: real, driverRows: real, otherDrain: real): real { driverDrain + driverRows * otherDrain }

  /** The emitted-row rule and the drain-aware rule, on the rows each order is charged with. */
  predicate Wins(rOut: real, rIn: real, dOut: real, dIn: real, margin: real) {
    && rIn * Margin <= rOut && rIn < rOut
    && (dOut - dIn) + (rOut * dIn - rIn * dOut) > 0.0
    && (dIn + rIn * dOut) * margin <= dOut + rOut * dIn
  }

  /** The incumbent is charged with the fewest rows its estimate allows, the candidate with the most. */
  predicate SwapWins(outer: Cost, inner: Cost) {
    Wins(outer.RowsLo(), inner.RowsHi(), outer.drain.rows, inner.drain.rows,
         if outer.HasStats() || inner.HasStats() then StatsMargin else Margin)
  }

  // ------------------------------------------------------------------ never slower

  /** The true row count is one the estimate's certified interval allows. */
  predicate Within(c: Cost, rows: real) { c.RowsLo() <= rows <= c.RowsHi() }

  /** The interval is every count of rows, none negative and none above the drain, that differs from the estimate by
      the certified error at most; where there is none, the nearest end. */
  lemma WithinIff(c: Cost, rows: real)
    requires c.drain.rows >= 0.0 && c.rowsErr >= 0.0
    ensures Within(c, rows) <==>
      if c.rows.rows - c.rowsErr > c.drain.rows then rows == c.drain.rows
      else if c.rows.rows + c.rowsErr < 0.0 then rows == 0.0
      else 0.0 <= rows <= c.drain.rows && -c.rowsErr <= rows - c.rows.rows <= c.rowsErr
  {
  }

  lemma Monotone(a: real, b: real, k: real)
    requires a <= b && k >= 0.0
    ensures a * k <= b * k
  {
  }

  /** A win at the interval's ends is a win throughout it. */
  lemma WinThroughout(lo: real, hi: real, dOut: real, dIn: real, rowsOut: real, rowsIn: real)
    requires lo <= rowsOut && rowsIn <= hi && dOut >= 0.0 && dIn >= 0.0
    requires (dOut - dIn) + (lo * dIn - hi * dOut) > 0.0
    ensures NestedLoop(dIn, rowsIn, dOut) < NestedLoop(dOut, rowsOut, dIn)
  {
    calc {
      dIn + rowsIn * dOut;
    <= { Monotone(rowsIn, hi, dOut); }
      dIn + hi * dOut;
    <
      dOut + lo * dIn;
    <= { Monotone(lo, rowsOut, dIn); }
      dOut + rowsOut * dIn;
    }
  }

  lemma MarginThroughout(lo: real, hi: real, dOut: real, dIn: real, rowsOut: real, rowsIn: real, margin: real)
    requires lo <= rowsOut && rowsIn <= hi && dOut >= 0.0 && dIn >= 0.0 && margin >= 0.0
    requires (dIn + hi * dOut) * margin <= dOut + lo * dIn
    ensures NestedLoop(dIn, rowsIn, dOut) * margin <= NestedLoop(dOut, rowsOut, dIn)
  {
    Monotone(rowsIn, hi, dOut);
    calc {
      (dIn + rowsIn * dOut) * margin;
    <= { Monotone(dIn + rowsIn * dOut, dIn + hi * dOut, margin); }
      (dIn + hi * dOut) * margin;
    <=
      dOut + lo * dIn;
    <= { Monotone(lo, rowsOut, dIn); }
      dOut + rowsOut * dIn;
    }
  }

  /** Whatever the true row counts are, within what was certified, an admitted swap costs strictly less
      both when every filtered arm is scanned, so drains its whole label, and when every one is seeked,
      so drains only what it emits. */
  lemma NeverSlower(outer: Cost, inner: Cost, rowsOut: real, rowsIn: real)
    requires SwapWins(outer, inner) && Within(outer, rowsOut) && Within(inner, rowsIn)
    requires outer.drain.rows >= 0.0 && inner.drain.rows >= 0.0
    ensures var dOut, dIn := outer.drain.rows, inner.drain.rows;
      && NestedLoop(dIn, rowsIn, dOut) < NestedLoop(dOut, rowsOut, dIn)
      && NestedLoop(rowsIn, rowsIn, rowsOut) < NestedLoop(rowsOut, rowsOut, rowsIn)
  {
    var margin := if outer.HasStats() || inner.HasStats() then StatsMargin else Margin;
    WinsThroughout(outer.RowsLo(), inner.RowsHi(), outer.drain.rows, inner.drain.rows, rowsOut, rowsIn, margin);
  }

  lemma WinsThroughout(lo: real, hi: real, dOut: real, dIn: real, rowsOut: real, rowsIn: real, margin: real)
    requires Wins(lo, hi, dOut, dIn, margin) && lo <= rowsOut && rowsIn <= hi && dOut >= 0.0 && dIn >= 0.0 && margin >= 0.0
    ensures NestedLoop(dIn, rowsIn, dOut) < NestedLoop(dOut, rowsOut, dIn)
    ensures NestedLoop(dIn, rowsIn, dOut) * margin <= NestedLoop(dOut, rowsOut, dIn)
    ensures NestedLoop(rowsIn, rowsIn, rowsOut) < NestedLoop(rowsOut, rowsOut, rowsIn)
  {
    WinThroughout(lo, hi, dOut, dIn, rowsOut, rowsIn);
    MarginThroughout(lo, hi, dOut, dIn, rowsOut, rowsIn, margin);
    BareTruth(rowsOut, rowsIn);
  }

  /** With a statistic on the path the scanned win is at least threefold. */
  lemma ThreefoldUnderStats(outer: Cost, inner: Cost, rowsOut: real, rowsIn: real)
    requires SwapWins(outer, inner) && Within(outer, rowsOut) && Within(inner, rowsIn)
    requires outer.drain.rows >= 0.0 && inner.drain.rows >= 0.0 && (outer.HasStats() || inner.HasStats())
    ensures NestedLoop(inner.drain.rows, rowsIn, outer.drain.rows) * StatsMargin <= NestedLoop(outer.drain.rows, rowsOut, inner.drain.rows)
  {
    WinsThroughout(outer.RowsLo(), inner.RowsHi(), outer.drain.rows, inner.drain.rows, rowsOut, rowsIn, StatsMargin);
  }

  /** A component read whole: what it drains is what it emits. */
  predicate Bare(c: Cost) { c.drain == c.rows && c.rowsErr == 0.0 && c.rows.rows >= 0.0 }

  /** Over whole components without statistics the gate is the plain comparison. */
  lemma BareGate(outer: Cost, inner: Cost)
    requires Bare(outer) && Bare(inner) && !outer.HasStats() && !inner.HasStats()
    ensures SwapWins(outer, inner) <==> inner.rows.rows < outer.rows.rows
  {
    assert outer.rows.rows * inner.rows.rows == inner.rows.rows * outer.rows.rows;
  }

  /** Both orders' true costs over whole components compare as the true counts do. */
  lemma BareTruth(rowsOut: real, rowsIn: real)
    ensures NestedLoop(rowsIn, rowsIn, rowsOut) < NestedLoop(rowsOut, rowsOut, rowsIn) <==> rowsIn < rowsOut
    ensures NestedLoop(rowsIn, rowsIn, rowsOut) <= NestedLoop(rowsOut, rowsOut, rowsIn) <==> rowsIn <= rowsOut
  {
    assert rowsOut * rowsIn == rowsIn * rowsOut;
  }

  // ------------------------------------------------------------------ two labels counted at one reading

  function LabelCost(rd: Reading, lab: string, n: nat): Cost { Cost(rd.PlanCount(lab, n), rd.PlanCount(lab, n), 0.0) }

  /** Never slower, whatever the labels' true counts the reading leaves open. */
  ghost predicate NeverSlowerAt(rd: Reading, outer: string, inner: string) {
    forall n: nat, m: nat :: rd.AllowsBoth(outer, n, inner, m) ==>
      NestedLoop(m as real, m as real, n as real) <= NestedLoop(n as real, n as real, m as real)
  }

  /** Two labels told by their bounds at one reading: the swap is admitted exactly when the raw counts
      compare so, and is never slower, for every pair of true counts, exactly when they are the churn apart. */
  lemma BoundsIff(rd: Reading, outer: string, inner: string, n: nat, m: nat)
    requires rd.Bounds(outer) && rd.Bounds(inner) && outer != inner
    ensures SwapWins(LabelCost(rd, outer, n), LabelCost(rd, inner, m)) <==> rd.Raw(inner) < rd.Raw(outer)
    ensures NeverSlowerAt(rd, outer, inner) <==> rd.Raw(inner) + rd.churn <= rd.Raw(outer)
  {
    BareGate(LabelCost(rd, outer, n), LabelCost(rd, inner, m));
    var a, b, c := rd.Raw(outer), rd.Raw(inner), rd.churn;
    var x := if a < c then a else c;
    if NeverSlowerAt(rd, outer, inner) {
      assert rd.AllowsBoth(outer, a - x, inner, b + (c - x));
      BareTruth((a - x) as real, (b + (c - x)) as real);
    }
    if b + c <= a {
      forall n: nat, m: nat | rd.AllowsBoth(outer, n, inner, m)
        ensures NestedLoop(m as real, m as real, n as real) <= NestedLoop(n as real, n as real, m as real)
      {
        BareTruth(n as real, m as real);
      }
    }
  }

  /** 5000 records live, 11 of the outer label in its bitmap and 1 at the snapshot, 5 of the inner one in
      both: told 5011 and 5005 the swap is admitted, and slower. */
  lemma BoundMisleads()
    ensures var rd := Reading({"A", "B"}, true, map["A" := 11, "B" := 5], 5000);
      var outer, inner := LabelCost(rd, "A", 1), LabelCost(rd, "B", 5);
      && rd.AllowsBoth("A", 1, "B", 5) && outer.Trusted() && inner.Trusted() && SwapWins(outer, inner)
      && NestedLoop(5.0, 5.0, 1.0) > NestedLoop(1.0, 1.0, 5.0)
  {
  }

  // ------------------------------------------------------------------ arms known within ranges

  datatype Range = Range(least: real, most: real)
  {
    predicate Has(x: real) { least <= x <= most }
  }

  /** What is known of an arm: read whole, what it drains is what it emits; filtered, it emits no more than
      it drains, and within the certified interval. */
  datatype Arm = Whole(drain: Range) | Filtered(drain: Range, rows: Range)
  {
    predicate Valid() {
      && 0.0 <= drain.least <= drain.most
      && (Filtered? ==> 0.0 <= rows.least <= rows.most && rows.least <= drain.most)
    }

    predicate Allows(d: real, r: real) {
      drain.Has(d) && if Whole? then r == d else r <= d && rows.Has(r)
    }

    /** The least it can drain at all, and the fewest and most rows it can emit at that drain. */
    function LeastDrain(): real { if Filtered? && rows.least > drain.least then rows.least else drain.least }

    function Fewest(d: real): real { if Whole? then d else rows.least }

    function Most(d: real): real { if Whole? || d < rows.most then d else rows.most }

    /** Where the most rows it can emit stop growing with its drain. */
    function Knee(): real {
      if Whole? || rows.most > drain.most then drain.most else if rows.most < LeastDrain() then LeastDrain() else rows.most
    }
  }

  /** The written order's cost less the swapped one's, every filtered arm scanned. */
  function Gain(dOut: real, rOut: real, dIn: real, rIn: real): real { NestedLoop(dOut, rOut, dIn) - NestedLoop(dIn, rIn, dOut) }

  ghost predicate NeverSlowerScanned(outer: Arm, inner: Arm) {
    forall dOut, rOut, dIn, rIn :: outer.Allows(dOut, rOut) && inner.Allows(dIn, rIn) ==> Gain(dOut, rOut, dIn, rIn) >= 0.0
  }

  ghost predicate NeverSlowerSeeked(outer: Arm, inner: Arm) {
    forall dOut, rOut, dIn, rIn :: outer.Allows(dOut, rOut) && inner.Allows(dIn, rIn) ==>
      NestedLoop(rIn, rIn, rOut) <= NestedLoop(rOut, rOut, rIn)
  }

  /** The gain with the rows that make it least. */
  function Least(outer: Arm, inner: Arm, dOut: real, dIn: real): real { Gain(dOut, outer.Fewest(dOut), dIn, inner.Most(dIn)) }

  /** At the least and the most the outer arm can drain. */
  predicate Ends(outer: Arm, inner: Arm, dIn: real) {
    Least(outer, inner, outer.LeastDrain(), dIn) >= 0.0 && Least(outer, inner, outer.drain.most, dIn) >= 0.0
  }

  /** And at the least, the knee and the most of the inner one: six comparisons. */
  predicate Corners(outer: Arm, inner: Arm) {
    Ends(outer, inner, inner.LeastDrain()) && Ends(outer, inner, inner.Knee()) && Ends(outer, inner, inner.drain.most)
  }

  /** What is linear and no less than zero at both ends is so between them. */
  function Line(p: real, q: real, x: real): real { p + q * x }

  lemma Between(p: real, q: real, lo: real, hi: real, x: real)
    requires lo <= x <= hi && Line(p, q, lo) >= 0.0 && Line(p, q, hi) >= 0.0
    ensures Line(p, q, x) >= 0.0
  {
    if q >= 0.0 { Monotone(lo, x, q); } else { Monotone(x, hi, -q); }
  }

  lemma FewerRowsGainLess(dOut: real, r: real, rOut: real, dIn: real, rIn: real, s: real)
    requires r <= rOut && rIn <= s && dOut >= 0.0 && dIn >= 0.0
    ensures Gain(dOut, r, dIn, s) <= Gain(dOut, rOut, dIn, rIn)
  {
    var p, p', q, q' := r * dIn, rOut * dIn, rIn * dOut, s * dOut;
    assert p <= p' by { Monotone(r, rOut, dIn); }
    assert q <= q' by { Monotone(rIn, s, dOut); }
    assert NestedLoop(dOut, r, dIn) == dOut + p && NestedLoop(dIn, s, dOut) == dIn + q';
    assert NestedLoop(dOut, rOut, dIn) == dOut + p' && NestedLoop(dIn, rIn, dOut) == dIn + q;
  }

  /** Linear in the outer drain. */
  lemma BetweenOuter(outer: Arm, inner: Arm, dOut: real, dIn: real)
    requires outer.Valid() && outer.LeastDrain() <= dOut <= outer.drain.most && Ends(outer, inner, dIn)
    ensures Least(outer, inner, dOut, dIn) >= 0.0
  {
    var s, lo, hi := inner.Most(dIn), outer.LeastDrain(), outer.drain.most;
    hide Least, Line;
    var p := if outer.Whole? then -dIn else outer.rows.least * dIn - dIn;
    var q := if outer.Whole? then 1.0 + dIn - s else 1.0 - s;
    LinearOuter(outer, inner, dIn, lo);
    LinearOuter(outer, inner, dIn, hi);
    LinearOuter(outer, inner, dIn, dOut);
    Between(p, q, lo, hi, dOut);
  }

  lemma LinearOuter(outer: Arm, inner: Arm, dIn: real, x: real)
    ensures var s := inner.Most(dIn);
      Least(outer, inner, x, dIn) ==
      Line(if outer.Whole? then -dIn else outer.rows.least * dIn - dIn, if outer.Whole? then 1.0 + dIn - s else 1.0 - s, x)
  {
    var s := inner.Most(dIn);
    if outer.Whole? {
      assert (1.0 + dIn - s) * x == x + x * dIn - s * x;
    } else {
      assert (1.0 - s) * x == x - s * x;
    }
  }

  /** Linear in the inner drain, up to the knee and beyond it. */
  lemma BetweenInner(outer: Arm, inner: Arm, dOut: real, dIn: real)
    requires inner.Valid() && inner.LeastDrain() <= dIn <= inner.drain.most
    requires Least(outer, inner, dOut, inner.LeastDrain()) >= 0.0
    requires Least(outer, inner, dOut, inner.Knee()) >= 0.0 && Least(outer, inner, dOut, inner.drain.most) >= 0.0
    ensures Least(outer, inner, dOut, dIn) >= 0.0
  {
    hide Least;
    if dIn <= inner.Knee() && (inner.Whole? || inner.Knee() <= inner.rows.most) {
      BelowKnee(outer, inner, dOut, inner.LeastDrain(), inner.Knee(), dIn);
    } else {
      BeyondKnee(outer, inner, dOut, inner.Knee(), inner.drain.most, dIn);
    }
  }

  lemma BelowKnee(outer: Arm, inner: Arm, dOut: real, lo: real, hi: real, x: real)
    requires lo <= x <= hi && (inner.Whole? || hi <= inner.rows.most)
    requires Least(outer, inner, dOut, lo) >= 0.0 && Least(outer, inner, dOut, hi) >= 0.0
    ensures Least(outer, inner, dOut, x) >= 0.0
  {
    hide Least, Line;
    LinearBelow(outer, inner, dOut, lo);
    LinearBelow(outer, inner, dOut, hi);
    LinearBelow(outer, inner, dOut, x);
    Between(dOut, outer.Fewest(dOut) - 1.0 - dOut, lo, hi, x);
  }

  lemma BeyondKnee(outer: Arm, inner: Arm, dOut: real, lo: real, hi: real, x: real)
    requires lo <= x <= hi && inner.Filtered? && lo >= inner.rows.most
    requires Least(outer, inner, dOut, lo) >= 0.0 && Least(outer, inner, dOut, hi) >= 0.0
    ensures Least(outer, inner, dOut, x) >= 0.0
  {
    hide Least, Line;
    LinearBeyond(outer, inner, dOut, lo);
    LinearBeyond(outer, inner, dOut, hi);
    LinearBeyond(outer, inner, dOut, x);
    Between(dOut - inner.rows.most * dOut, outer.Fewest(dOut) - 1.0, lo, hi, x);
  }

  lemma LinearBelow(outer: Arm, inner: Arm, dOut: real, x: real)
    requires inner.Whole? || x <= inner.rows.most
    ensures Least(outer, inner, dOut, x) == Line(dOut, outer.Fewest(dOut) - 1.0 - dOut, x)
  {
    var r := outer.Fewest(dOut);
    assert (r - 1.0 - dOut) * x == r * x - x - x * dOut;
  }

  lemma LinearBeyond(outer: Arm, inner: Arm, dOut: real, x: real)
    requires inner.Filtered? && x >= inner.rows.most
    ensures Least(outer, inner, dOut, x) == Line(dOut - inner.rows.most * dOut, outer.Fewest(dOut) - 1.0, x)
  {
    var r := outer.Fewest(dOut);
    assert (r - 1.0) * x == r * x - x;
  }

  /** With every arm's drain and rows known only within ranges, counts that are bounds among them: the swap
      is never slower, for every true drain and row count, with every filtered arm scanned, if and only if
      it is not at the six corners. */
  lemma ScannedIff(outer: Arm, inner: Arm)
    requires outer.Valid() && inner.Valid()
    ensures NeverSlowerScanned(outer, inner) <==> Corners(outer, inner)
  {
    if NeverSlowerScanned(outer, inner) {
      CornerAllowed(outer, inner, outer.LeastDrain());
      CornerAllowed(outer, inner, outer.drain.most);
    }
    if Corners(outer, inner) {
      forall dOut, rOut, dIn, rIn | outer.Allows(dOut, rOut) && inner.Allows(dIn, rIn)
        ensures Gain(dOut, rOut, dIn, rIn) >= 0.0
      {
        BetweenOuter(outer, inner, dOut, inner.LeastDrain());
        BetweenOuter(outer, inner, dOut, inner.Knee());
        BetweenOuter(outer, inner, dOut, inner.drain.most);
        BetweenInner(outer, inner, dOut, dIn);
        FewerRowsGainLess(dOut, outer.Fewest(dOut), rOut, dIn, rIn, inner.Most(dIn));
      }
    }
  }

  lemma CornerAllowed(outer: Arm, inner: Arm, dOut: real)
    requires outer.Valid() && inner.Valid() && NeverSlowerScanned(outer, inner)
    requires dOut == outer.LeastDrain() || dOut == outer.drain.most
    ensures Least(outer, inner, dOut, inner.LeastDrain()) >= 0.0
    ensures Least(outer, inner, dOut, inner.Knee()) >= 0.0 && Least(outer, inner, dOut, inner.drain.most) >= 0.0
  {
    assert outer.Allows(dOut, outer.Fewest(dOut));
    assert inner.Allows(inner.LeastDrain(), inner.Most(inner.LeastDrain()));
    assert inner.Allows(inner.Knee(), inner.Most(inner.Knee()));
    assert inner.Allows(inner.drain.most, inner.Most(inner.drain.most));
  }

  /** With every filtered arm seeked, if and only if the most rows the inner arm can emit are no more than
      the fewest the outer one can. */
  lemma SeekedIff(outer: Arm, inner: Arm)
    requires outer.Valid() && inner.Valid()
    ensures NeverSlowerSeeked(outer, inner) <==> inner.Most(inner.drain.most) <= outer.Fewest(outer.drain.least)
  {
    var r, s := outer.Fewest(outer.drain.least), inner.Most(inner.drain.most);
    BareTruth(r, s);
    if NeverSlowerSeeked(outer, inner) {
      assert outer.Allows(outer.LeastDrain(), r) && inner.Allows(inner.drain.most, s);
    } else {
      var dOut, rOut, dIn, rIn :| outer.Allows(dOut, rOut) && inner.Allows(dIn, rIn) &&
                                  NestedLoop(rIn, rIn, rOut) > NestedLoop(rOut, rOut, rIn);
      BareTruth(rOut, rIn);
    }
  }

  // ------------------------------------------------------------------ plans

  type Row = map<string, nat>

  /** What any other operator emits, of the row it is run for and of what its inputs emit, in whatever order. */
  type Ops = (nat, Row, seq<multiset<Row>>) -> seq<Row>

  /** A scan's rows; a filter; a Cartesian with an identity, its outer arm driving; the row a subplan is run
      for; a subplan run for each row of the outer arm; and whatever else a plan is built of. */
  datatype Plan =
    | Scan(vars: set<string>, rows: seq<Row>)
    | Filter(keep: set<Row>, child: Plan)
    | Apply(id: nat, outer: Plan, inner: Plan)
    | Argument
    | Correlated(outer: Plan, inner: Plan)
    | Other(op: nat, children: seq<Plan>)
  {
    /** The variables of a component. */
    function Vars(): set<string> {
      match this
      case Scan(vars, _) => vars
      case Filter(_, child) => child.Vars()
      case Apply(_, outer, inner) => outer.Vars() + inner.Vars()
      case _ => {}
    }

    ghost predicate Valid() {
      match this
      case Scan(vars, rows) => forall i :: 0 <= i < |rows| ==> rows[i].Keys == vars
      case Filter(_, child) => child.Valid()
      case Apply(_, outer, inner) => outer.Valid() && inner.Valid()
      case Argument => true
      case Correlated(outer, inner) => outer.Valid() && inner.Valid()
      case Other(_, children) => forall i :: 0 <= i < |children| ==> children[i].Valid()
    }

    /** The rows the plan emits, in order, run for the row given. */
    function Rows(ops: Ops, arg: Row): seq<Row>
      decreases this, 0
    {
      match this
      case Scan(_, rows) => rows
      case Filter(keep, child) => Kept(keep, child.Rows(ops, arg))
      case Apply(_, outer, inner) => Product(outer.Rows(ops, arg), inner.Rows(ops, arg))
      case Argument => [arg]
      case Correlated(outer, inner) => inner.RowsForEach(outer.Rows(ops, arg), ops)
      case Other(op, children) =>
        ops(op, arg, seq(|children|, i requires 0 <= i < |children| => multiset(children[i].Rows(ops, arg))))
    }

    /** The plan run once for each row, each of which it extends. */
    function RowsForEach(rows: seq<Row>, ops: Ops): seq<Row>
      decreases this, |rows|
    {
      if rows == [] then [] else Beside(rows[0], Rows(ops, rows[0])) + RowsForEach(rows[1..], ops)
    }

    /** The plan with the arms of the chosen candidates exchanged. */
    function Swapped(chosen: set<nat>): Plan {
      match this
      case Scan(_, _) => this
      case Filter(keep, child) => Filter(keep, child.Swapped(chosen))
      case Apply(id, outer, inner) =>
        var o, i := outer.Swapped(chosen), inner.Swapped(chosen);
        if id in chosen && this.IsCandidate() then Apply(id, i, o) else Apply(id, o, i)
      case Argument => this
      case Correlated(outer, inner) => Correlated(outer.Swapped(chosen), inner.Swapped(chosen))
      case Other(op, children) => Other(op, seq(|children|, i requires 0 <= i < |children| => children[i].Swapped(chosen)))
    }

    predicate IsBare() {
      Scan? || (Apply? && outer.IsBare() && inner.IsBare() && outer.Vars() !! inner.Vars())
    }

    predicate IsComponent() { IsBare() || (Filter? && child.Scan?) }

    /** The arms of a candidate are disjoint; nothing is asked of any other operator. */
    predicate IsCandidate() { Apply? && outer.IsComponent() && inner.IsComponent() && outer.Vars() !! inner.Vars() }
  }

  function Kept(keep: set<Row>, rows: seq<Row>): seq<Row> {
    if rows == [] then [] else if rows[0] in keep then [rows[0]] + Kept(keep, rows[1..]) else Kept(keep, rows[1..])
  }

  function Beside(o: Row, rows: seq<Row>): seq<Row> { if rows == [] then [] else [o + rows[0]] + Beside(o, rows[1..]) }

  function Product(a: seq<Row>, b: seq<Row>): seq<Row> { if a == [] then [] else Beside(a[0], b) + Product(a[1..], b) }

  lemma {:induction false} KeptCount(keep: set<Row>, rows: seq<Row>, r: Row)
    ensures multiset(Kept(keep, rows))[r] == if r in keep then multiset(rows)[r] else 0
  {
    if rows != [] {
      KeptCount(keep, rows[1..], r);
      assert rows == [rows[0]] + rows[1..];
    }
  }

  /** How many of the product's rows one pair-merging gives, counted either way. */
  function Pairs(a: multiset<Row>, b: seq<Row>, r: Row): nat {
    if b == [] then 0 else Partners(a, b[0], r) + Pairs(a, b[1..], r)
  }

  /** The rows of `a` that merge with x into r: those are determined by r alone, over disjoint variables. */
  function Partners(a: multiset<Row>, x: Row, r: Row): nat {
    var p := r - x.Keys;
    if p + x == r && p.Keys !! x.Keys then a[p] else 0
  }

  predicate Over(rows: seq<Row>, vars: set<string>) { forall i :: 0 <= i < |rows| ==> rows[i].Keys == vars }

  lemma MergeBack(o: Row, x: Row, r: Row)
    requires o.Keys !! x.Keys
    ensures o + x == x + o
    ensures o + x == r <==> (r - x.Keys) + x == r && (r - x.Keys).Keys !! x.Keys && r - x.Keys == o
  {
    if o + x == r { assert r - x.Keys == o; }
  }

  lemma {:induction false} BesideCount(o: Row, b: seq<Row>, r: Row)
    requires forall i :: 0 <= i < |b| ==> o.Keys !! b[i].Keys
    ensures multiset(Beside(o, b))[r] == Pairs(multiset{o}, b, r)
  {
    if b != [] {
      BesideCount(o, b[1..], r);
      BesidePartners(o, b[0], r);
      PushCount(o + b[0], Beside(o, b[1..]), r);
    }
  }

  lemma BesidePartners(o: Row, x: Row, r: Row)
    requires o.Keys !! x.Keys
    ensures Partners(multiset{o}, x, r) == if o + x == r then 1 else 0
  {
    MergeBack(o, x, r);
  }

  lemma {:induction false} PairsAdd(a: multiset<Row>, c: multiset<Row>, b: seq<Row>, r: Row)
    ensures Pairs(a + c, b, r) == Pairs(a, b, r) + Pairs(c, b, r)
  {
    if b != [] { PairsAdd(a, c, b[1..], r); }
  }

  lemma {:induction false} PairsEmpty(b: seq<Row>, r: Row)
    ensures Pairs(multiset{}, b, r) == 0
  {
    if b != [] { PairsEmpty(b[1..], r); }
  }

  lemma CountAppend<T>(a: seq<T>, b: seq<T>, x: T)
    ensures multiset(a + b)[x] == multiset(a)[x] + multiset(b)[x]
  {
  }

  lemma {:induction false} ProductCount(a: seq<Row>, b: seq<Row>, r: Row)
    requires forall i, j :: 0 <= i < |a| && 0 <= j < |b| ==> a[i].Keys !! b[j].Keys
    ensures multiset(Product(a, b))[r] == Pairs(multiset(a), b, r)
  {
    hide Pairs, Beside;
    if a == [] {
      PairsEmpty(b, r);
    } else {
      ProductCount(a[1..], b, r);
      BesideCount(a[0], b, r);
      CountAppend(Beside(a[0], b), Product(a[1..], b), r);
      PairsAdd(multiset{a[0]}, multiset(a[1..]), b, r);
      assert multiset(a) == multiset{a[0]} + multiset(a[1..]) by { assert a == [a[0]] + a[1..]; }
    }
  }

  lemma PushCount(x: Row, rows: seq<Row>, r: Row)
    ensures multiset([x] + rows)[r] == multiset(rows)[r] + if x == r then 1 else 0
  {
  }

  lemma {:induction false} BesideSwap(x: Row, a: seq<Row>, r: Row)
    requires forall i :: 0 <= i < |a| ==> a[i].Keys !! x.Keys
    ensures multiset(Product(a, [x]))[r] == multiset(Beside(x, a))[r]
  {
    if a != [] {
      BesideSwap(x, a[1..], r);
      assert [x][1..] == [] && Beside(a[0], [x]) == [a[0] + x];
      MergeBack(a[0], x, r);
      PushCount(a[0] + x, Product(a[1..], [x]), r);
      PushCount(x + a[0], Beside(x, a[1..]), r);
    }
  }

  /** A Cartesian of disjoint arms emits the same rows, as often, whichever arm drives. */
  lemma {:induction false} ProductCommutes(a: seq<Row>, b: seq<Row>, r: Row)
    requires forall i, j :: 0 <= i < |a| && 0 <= j < |b| ==> a[i].Keys !! b[j].Keys
    ensures multiset(Product(a, b))[r] == multiset(Product(b, a))[r]
    decreases |b|
  {
    ProductCount(a, b, r);
    if b == [] {
    } else {
      var one, rest := [b[0]], b[1..];
      assert b == one + rest && one[1..] == [];
      ProductCommutes(a, rest, r);
      ProductCount(a, rest, r);
      ProductCount(a, one, r);
      BesideSwap(b[0], a, r);
      assert Pairs(multiset(a), b, r) == Pairs(multiset(a), one, r) + Pairs(multiset(a), rest, r);
    }
  }

  // ------------------------------------------------------------------ what is emitted, but for the order

  lemma {:induction false} BesideAppend(o: Row, a: seq<Row>, b: seq<Row>)
    ensures Beside(o, a + b) == Beside(o, a) + Beside(o, b)
  {
    if a == [] {
      assert a + b == b;
    } else {
      assert (a + b)[1..] == a[1..] + b;
      BesideAppend(o, a[1..], b);
    }
  }

  lemma {:induction false} ProductAppend(a: seq<Row>, c: seq<Row>, b: seq<Row>)
    ensures Product(a + c, b) == Product(a, b) + Product(c, b)
  {
    if a == [] {
      assert a + c == c;
    } else {
      assert (a + c)[1..] == a[1..] + c;
      ProductAppend(a[1..], c, b);
    }
  }

  lemma BagHead<T>(a: seq<T>)
    requires a != []
    ensures multiset(a) == multiset(a[1..]) + multiset{a[0]}
  {
    assert a == [a[0]] + a[1..];
  }

  lemma BagMiddle<T>(u: seq<T>, x: T, v: seq<T>)
    ensures multiset(u + [x] + v) == multiset(u + v) + multiset{x}
  {
    assert multiset(u + [x] + v) == multiset(u) + multiset{x} + multiset(v);
    assert multiset(u + v) == multiset(u) + multiset(v);
  }

  lemma BagCancel<T>(m: multiset<T>, n: multiset<T>, x: T)
    requires m + multiset{x} == n + multiset{x}
    ensures m == n
  {
    assert (m + multiset{x}) - multiset{x} == m;
    assert (n + multiset{x}) - multiset{x} == n;
  }

  /** The first element of a sequence taken out of one with the same elements. */
  lemma TakeOut<T>(a: seq<T>, a': seq<T>) returns (u: seq<T>, v: seq<T>)
    requires a != [] && multiset(a) == multiset(a')
    ensures a' == u + [a[0]] + v && multiset(a[1..]) == multiset(u + v)
  {
    assert a[0] in multiset(a');
    var i :| 0 <= i < |a'| && a'[i] == a[0];
    u, v := a'[..i], a'[i + 1..];
    assert a' == u + [a[0]] + v;
    BagHead(a);
    BagMiddle(u, a[0], v);
    BagCancel(multiset(a[1..]), multiset(u + v), a[0]);
  }

  lemma MiddleSame<T>(x: seq<T>, rest: seq<T>, u: seq<T>, y: seq<T>, v: seq<T>)
    requires multiset(x) == multiset(y) && multiset(rest) == multiset(u + v)
    ensures multiset(x + rest) == multiset(u + y + v)
  {
    assert multiset(u + v) == multiset(u) + multiset(v);
    assert multiset(u + y + v) == multiset(u) + multiset(y) + multiset(v);
  }

  lemma {:induction false} BesideSame(o: Row, b: seq<Row>, b': seq<Row>)
    requires multiset(b) == multiset(b')
    ensures multiset(Beside(o, b)) == multiset(Beside(o, b'))
    decreases |b|
  {
    if b == [] {
      assert |multiset(b')| == 0;
    } else {
      var u, v := TakeOut(b, b');
      BesideSame(o, b[1..], u + v);
      BesideAppend(o, u, v);
      BesideAppend(o, u + [b[0]], v);
      BesideAppend(o, u, [b[0]]);
      var one: seq<Row> := [b[0]];
      assert one[1..] == [] && Beside(o, one) == [o + b[0]];
      MiddleSame([o + b[0]], Beside(o, b[1..]), Beside(o, u), [o + b[0]], Beside(o, v));
    }
  }

  lemma {:induction false} ProductSame(a: seq<Row>, a': seq<Row>, b: seq<Row>, b': seq<Row>)
    requires multiset(a) == multiset(a') && multiset(b) == multiset(b')
    ensures multiset(Product(a, b)) == multiset(Product(a', b'))
    decreases |a|
  {
    if a == [] {
      assert |multiset(a')| == 0;
    } else {
      var u, v := TakeOut(a, a');
      ProductSame(a[1..], u + v, b, b');
      ProductAppend(u, v, b');
      ProductAppend(u + [a[0]], v, b');
      ProductAppend(u, [a[0]], b');
      var one: seq<Row> := [a[0]];
      assert one[1..] == [] && Product(one, b') == Beside(a[0], b') + [];
      BesideSame(a[0], b, b');
      MiddleSame(Beside(a[0], b), Product(a[1..], b), Product(u, b'), Beside(a[0], b'), Product(v, b'));
    }
  }

  lemma {:induction false} ForEachAppend(p: Plan, a: seq<Row>, b: seq<Row>, ops: Ops)
    ensures p.RowsForEach(a + b, ops) == p.RowsForEach(a, ops) + p.RowsForEach(b, ops)
    decreases |a|
  {
    if a == [] {
      assert a + b == b;
    } else {
      assert (a + b)[1..] == a[1..] + b;
      ForEachAppend(p, a[1..], b, ops);
    }
  }

  lemma ForEachHead(p: Plan, a: seq<Row>, ops: Ops)
    requires a != []
    ensures p.RowsForEach(a, ops) == Beside(a[0], p.Rows(ops, a[0])) + p.RowsForEach(a[1..], ops)
  {
  }

  lemma ForEachOne(p: Plan, o: Row, ops: Ops)
    ensures p.RowsForEach([o], ops) == Beside(o, p.Rows(ops, o))
  {
    var one: seq<Row> := [o];
    assert one[1..] == [];
  }

  lemma ForEachNone(p: Plan, ops: Ops)
    ensures p.RowsForEach([], ops) == []
  {
  }

  ghost predicate Alike(p: Plan, p': Plan, ops: Ops) { forall o: Row :: multiset(p.Rows(ops, o)) == multiset(p'.Rows(ops, o)) }

  lemma AlikeAt(p: Plan, p': Plan, ops: Ops, o: Row)
    requires Alike(p, p', ops)
    ensures multiset(p.Rows(ops, o)) == multiset(p'.Rows(ops, o))
  {
  }

  /** A subplan that emits the same for every row it is run for, over outer rows that are the same. */
  lemma {:induction false} ForEachSame(p: Plan, p': Plan, a: seq<Row>, a': seq<Row>, ops: Ops)
    requires multiset(a) == multiset(a') && Alike(p, p', ops)
    ensures multiset(p.RowsForEach(a, ops)) == multiset(p'.RowsForEach(a', ops))
    decreases |a|
  {
    hide Alike, Beside, Plan.Rows, Plan.RowsForEach;
    if a == [] {
      assert |multiset(a')| == 0;
      assert a' == [];
      ForEachNone(p, ops);
      ForEachNone(p', ops);
    } else {
      var u, v := TakeOut(a, a');
      ForEachSame(p, p', a[1..], u + v, ops);
      ForEachHead(p, a, ops);
      ForEachAppend(p', u, v, ops);
      ForEachAppend(p', u + [a[0]], v, ops);
      ForEachAppend(p', u, [a[0]], ops);
      ForEachOne(p', a[0], ops);
      AlikeAt(p, p', ops, a[0]);
      BesideSame(a[0], p.Rows(ops, a[0]), p'.Rows(ops, a[0]));
      MiddleSame(Beside(a[0], p.Rows(ops, a[0])), p.RowsForEach(a[1..], ops), p'.RowsForEach(u, ops), Beside(a[0], p'.Rows(ops, a[0])), p'.RowsForEach(v, ops));
    }
  }

  lemma KeptSame(keep: set<Row>, a: seq<Row>, b: seq<Row>)
    requires multiset(a) == multiset(b)
    ensures multiset(Kept(keep, a)) == multiset(Kept(keep, b))
  {
    forall r ensures multiset(Kept(keep, a))[r] == multiset(Kept(keep, b))[r] {
      KeptCount(keep, a, r);
      KeptCount(keep, b, r);
    }
  }

  // ------------------------------------------------------------------ components

  lemma {:induction false} RowsOver(p: Plan, ops: Ops, arg: Row)
    requires p.Valid() && p.IsComponent()
    ensures Over(p.Rows(ops, arg), p.Vars())
    decreases p
  {
    match p
    case Scan(_, _) =>
    case Filter(keep, child) => KeptOver(keep, child.Rows(ops, arg), child.Vars());
    case Apply(_, outer, inner) =>
      RowsOver(outer, ops, arg);
      RowsOver(inner, ops, arg);
      ProductOver(outer.Rows(ops, arg), inner.Rows(ops, arg), outer.Vars(), inner.Vars());
  }

  lemma {:induction false} KeptOver(keep: set<Row>, rows: seq<Row>, vars: set<string>)
    requires Over(rows, vars)
    ensures Over(Kept(keep, rows), vars)
  {
    if rows != [] { KeptOver(keep, rows[1..], vars); }
  }

  lemma {:induction false} BesideOver(o: Row, rows: seq<Row>, va: set<string>, vb: set<string>)
    requires o.Keys == va && Over(rows, vb)
    ensures Over(Beside(o, rows), va + vb)
  {
    if rows != [] { BesideOver(o, rows[1..], va, vb); }
  }

  lemma {:induction false} ProductOver(a: seq<Row>, b: seq<Row>, va: set<string>, vb: set<string>)
    requires Over(a, va) && Over(b, vb)
    ensures Over(Product(a, b), va + vb)
  {
    if a != [] {
      ProductOver(a[1..], b, va, vb);
      BesideOver(a[0], b, va, vb);
    }
  }

  /** A component stays one, over the same variables. */
  lemma {:induction false} SwappedShape(p: Plan, chosen: set<nat>)
    requires p.Valid() && p.IsComponent()
    ensures var q := p.Swapped(chosen); q.Valid() && q.IsComponent() && q.Vars() == p.Vars() && (p.IsBare() ==> q.IsBare())
    decreases p
  {
    match p
    case Scan(_, _) =>
    case Filter(_, child) => SwappedShape(child, chosen);
    case Apply(_, outer, inner) => SwappedShape(outer, chosen); SwappedShape(inner, chosen);
  }

  /** The arms of a candidate, exchanged. */
  lemma ArmsSwapped(a: seq<Row>, b: seq<Row>, va: set<string>, vb: set<string>)
    requires Over(a, va) && Over(b, vb) && va !! vb
    ensures multiset(Product(a, b)) == multiset(Product(b, a))
  {
    forall r ensures multiset(Product(a, b))[r] == multiset(Product(b, a))[r] { ProductCommutes(a, b, r); }
  }

  /** Exchanging the arms of any set of candidates, at any depth and under whatever operators, keeps every row
      exactly as often. */
  lemma {:induction false} SwapsKeepRows(p: Plan, chosen: set<nat>, ops: Ops, arg: Row)
    requires p.Valid()
    ensures multiset(p.Swapped(chosen).Rows(ops, arg)) == multiset(p.Rows(ops, arg))
    decreases p
  {
    match p
    case Scan(_, _) =>
    case Argument =>
    case Filter(keep, child) =>
      SwapsKeepRows(child, chosen, ops, arg);
      KeptSame(keep, child.Swapped(chosen).Rows(ops, arg), child.Rows(ops, arg));
    case Apply(id, outer, inner) =>
      var o, i := outer.Swapped(chosen), inner.Swapped(chosen);
      SwapsKeepRows(outer, chosen, ops, arg);
      SwapsKeepRows(inner, chosen, ops, arg);
      ProductSame(o.Rows(ops, arg), outer.Rows(ops, arg), i.Rows(ops, arg), inner.Rows(ops, arg));
      if id in chosen && p.IsCandidate() {
        SwappedShape(outer, chosen);
        SwappedShape(inner, chosen);
        RowsOver(o, ops, arg);
        RowsOver(i, ops, arg);
        ArmsSwapped(o.Rows(ops, arg), i.Rows(ops, arg), outer.Vars(), inner.Vars());
      }
    case Correlated(outer, inner) =>
      SwapsKeepRows(outer, chosen, ops, arg);
      forall o: Row { SwapsKeepRows(inner, chosen, ops, o); }
      ForEachSame(inner.Swapped(chosen), inner, outer.Swapped(chosen).Rows(ops, arg), outer.Rows(ops, arg), ops);
    case Other(op, children) =>
      forall i | 0 <= i < |children| { SwapsKeepRows(children[i], chosen, ops, arg); }
      var q := p.Swapped(chosen);
      assert seq(|q.children|, i requires 0 <= i < |q.children| => multiset(q.children[i].Rows(ops, arg))) ==
             seq(|children|, i requires 0 <= i < |children| => multiset(children[i].Rows(ops, arg)));
  }

  // ------------------------------------------------------------------ the gate over a plan

  /** The cost of a component, given what is estimated of each scan and of each filtered one. */
  function CostOf(p: Plan, counts: map<Plan, Estimate>, filtered: map<Plan, (Estimate, real)>): Option<Cost> {
    match p
    case Scan(_, _) => if p in counts then Some(Cost(counts[p], counts[p], 0.0)) else None
    case Filter(_, child) =>
      if child.Scan? && child in counts && p in filtered then Some(Cost(counts[child], filtered[p].0, filtered[p].1)) else None
    case Apply(_, outer, inner) =>
      var o, i := CostOf(outer, counts, filtered), CostOf(inner, counts, filtered);
      if o.None? || i.None? || o.value.rowsErr != 0.0 || i.value.rowsErr != 0.0 then None
      else Some(Cost(Times(o.value.drain, i.value.drain), Times(o.value.rows, i.value.rows), 0.0))
    case _ => None
  }

  function Times(a: Estimate, b: Estimate): Estimate { Estimate(a.rows * b.rows, Weaker(a.source, b.source)) }

  datatype Option<T> = None | Some(value: T)

  /** The scans a component is made of, filtered or not. */
  function Scans(p: Plan): seq<Plan> {
    match p
    case Scan(_, _) => [p]
    case Filter(_, _) => [p]
    case Apply(_, outer, inner) => Scans(outer) + Scans(inner)
    case _ => []
  }

  /** Both estimates of one scan, of what it reads and of what it emits, have the property. */
  predicate OfScan(q: Plan, counts: map<Plan, Estimate>, filtered: map<Plan, (Estimate, real)>, has: Source -> bool) {
    if q.Filter? then q.child in counts && q in filtered && has(counts[q.child].source) && has(filtered[q].0.source)
    else q in counts && has(counts[q].source)
  }

  /** Scans, filtered or not, and products of them. */
  predicate Component(p: Plan) {
    match p
    case Scan(_, _) => true
    case Filter(_, _) => true
    case Apply(_, outer, inner) => Component(outer) && Component(inner)
    case _ => false
  }

  predicate Estimated(q: Plan, counts: map<Plan, Estimate>, filtered: map<Plan, (Estimate, real)>) {
    if q.Filter? then q.child.Scan? && q.child in counts && q in filtered else q in counts
  }

  predicate ErrorFree(q: Plan, filtered: map<Plan, (Estimate, real)>) { q.Filter? && q in filtered ==> filtered[q].1 == 0.0 }

  /** A component has a cost exactly when every scan in it has its estimates, and, where it is a product, each of
      them without an error. */
  lemma {:induction false} CostKnownIff(p: Plan, counts: map<Plan, Estimate>, filtered: map<Plan, (Estimate, real)>)
    ensures CostOf(p, counts, filtered).Some? <==>
      && Component(p)
      && (forall q :: q in Scans(p) ==> Estimated(q, counts, filtered))
      && (p.Apply? ==> forall q :: q in Scans(p) ==> ErrorFree(q, filtered))
    ensures CostOf(p, counts, filtered).Some? ==>
      (CostOf(p, counts, filtered).value.rowsErr == 0.0 <==> forall q :: q in Scans(p) ==> ErrorFree(q, filtered))
    decreases p
  {
    match p
    case Scan(_, _) => assert p in Scans(p);
    case Filter(_, _) => assert p in Scans(p);
    case Apply(_, outer, inner) =>
      CostKnownIff(outer, counts, filtered);
      CostKnownIff(inner, counts, filtered);
      assert forall q :: q in Scans(p) <==> q in Scans(outer) || q in Scans(inner);
    case _ =>
  }

  lemma WeakerIs(a: Source, b: Source)
    ensures Weaker(a, b).Trustworthy() <==> a.Trustworthy() && b.Trustworthy()
    ensures Weaker(a, b).Trustworthy() ==> (Weaker(a, b).EstStats? <==> a.EstStats? || b.EstStats?)
    ensures Weaker(a, b).EstExact? <==> a.EstExact? && b.EstExact?
  {
  }

  /** However a component is put together, its cost is trusted exactly when every estimate of every scan in it
      is; exact exactly when all of them are; and, trusted, a statistic exactly when one of them is. */
  lemma {:induction false} CostProvenance(p: Plan, counts: map<Plan, Estimate>, filtered: map<Plan, (Estimate, real)>)
    requires CostOf(p, counts, filtered).Some?
    ensures var c := CostOf(p, counts, filtered).value;
      && (c.Trusted() <==> forall q :: q in Scans(p) ==> OfScan(q, counts, filtered, (s: Source) => s.Trustworthy()))
      && (c.drain.source.EstExact? && c.rows.source.EstExact? <==>
            forall q :: q in Scans(p) ==> OfScan(q, counts, filtered, (s: Source) => s.EstExact?))
      && (c.Trusted() ==> (!c.HasStats() <==> forall q :: q in Scans(p) ==> OfScan(q, counts, filtered, (s: Source) => !s.EstStats?)))
    decreases p
  {
    match p
    case Scan(_, _) => assert p in Scans(p);
    case Filter(_, child) => assert p in Scans(p);
    case Apply(_, outer, inner) =>
      CostProvenance(outer, counts, filtered);
      CostProvenance(inner, counts, filtered);
      var o, i := CostOf(outer, counts, filtered).value, CostOf(inner, counts, filtered).value;
      WeakerIs(o.drain.source, i.drain.source);
      WeakerIs(o.rows.source, i.rows.source);
      assert forall q :: q in Scans(p) <==> q in Scans(outer) || q in Scans(inner);
    case _ =>
  }

  lemma {:induction false} ProductSize(a: seq<Row>, b: seq<Row>)
    ensures |Product(a, b)| == |a| * |b|
  {
    if a != [] {
      ProductSize(a[1..], b);
      BesideSize(a[0], b);
      assert |a| * |b| == |b| + (|a| - 1) * |b|;
    }
  }

  lemma {:induction false} BesideSize(o: Row, b: seq<Row>)
    ensures |Beside(o, b)| == |b|
  {
    if b != [] { BesideSize(o, b[1..]); }
  }

  function Counted(n: nat): Estimate { Estimate(n as real, EstExact) }

  lemma ExactTimes(a: nat, b: nat)
    ensures Times(Counted(a), Counted(b)) == Counted(a * b)
  {
  }

  /** With exact scan counts the number computed for a whole component is the number of rows it emits. */
  lemma {:induction false} BareCostIsTrue(p: Plan, counts: map<Plan, Estimate>, filtered: map<Plan, (Estimate, real)>, ops: Ops, arg: Row)
    requires p.IsBare() && forall q :: q in counts ==> q.Scan? && counts[q] == Counted(|q.rows|)
    ensures var c := CostOf(p, counts, filtered);
      c.Some? ==> c.value == Cost(Counted(|p.Rows(ops, arg)|), Counted(|p.Rows(ops, arg)|), 0.0)
    decreases p
  {
    if p.Apply? {
      BareCostIsTrue(p.outer, counts, filtered, ops, arg);
      BareCostIsTrue(p.inner, counts, filtered, ops, arg);
      ProductSize(p.outer.Rows(ops, arg), p.inner.Rows(ops, arg));
      ExactTimes(|p.outer.Rows(ops, arg)|, |p.inner.Rows(ops, arg)|);
    }
  }

  /** The candidates whose arms are exchanged: those with both costs known and trusted that win. */
  method ComputeSwaps(cands: seq<Plan>, counts: map<Plan, Estimate>, filtered: map<Plan, (Estimate, real)>) returns (swaps: set<nat>)
    requires forall i :: 0 <= i < |cands| ==> cands[i].Apply? && cands[i].IsCandidate()
    ensures forall k :: k in swaps <==> exists i :: 0 <= i < |cands| && cands[i].id == k && Admitted(cands[i], counts, filtered)
  {
    swaps := {};
    for i := 0 to |cands|
      invariant forall k :: k in swaps <==> exists j :: 0 <= j < i && cands[j].id == k && Admitted(cands[j], counts, filtered)
    {
      var outer, inner := CostOf(cands[i].outer, counts, filtered), CostOf(cands[i].inner, counts, filtered);
      if outer.None? || inner.None? { continue; }
      if !outer.value.Trusted() || !inner.value.Trusted() { continue; }
      if !SwapWins(outer.value, inner.value) { continue; }
      swaps := swaps + {cands[i].id};
    }
  }

  predicate Admitted(p: Plan, counts: map<Plan, Estimate>, filtered: map<Plan, (Estimate, real)>)
    requires p.Apply?
  {
    var outer, inner := CostOf(p.outer, counts, filtered), CostOf(p.inner, counts, filtered);
    outer.Some? && inner.Some? && outer.value.Trusted() && inner.value.Trusted() && SwapWins(outer.value, inner.value)
  }

  /** With exact counts, an admitted swap of two whole components emits the same rows from the smaller
      driver, so strictly fewer rows are touched. */
  lemma AdmittedIsCheaper(p: Plan, counts: map<Plan, Estimate>, filtered: map<Plan, (Estimate, real)>, ops: Ops, arg: Row)
    requires p.Apply? && p.outer.IsBare() && p.inner.IsBare() && Admitted(p, counts, filtered)
    requires forall q :: q in counts ==> q.Scan? && counts[q] == Counted(|q.rows|)
    ensures |p.inner.Rows(ops, arg)| < |p.outer.Rows(ops, arg)|
    ensures var o, i := |p.outer.Rows(ops, arg)| as real, |p.inner.Rows(ops, arg)| as real; NestedLoop(i, i, o) < NestedLoop(o, o, i)
  {
    BareCostIsTrue(p.outer, counts, filtered, ops, arg);
    BareCostIsTrue(p.inner, counts, filtered, ops, arg);
    BareGate(CostOf(p.outer, counts, filtered).value, CostOf(p.inner, counts, filtered).value);
    BareTruth(|p.outer.Rows(ops, arg)| as real, |p.inner.Rows(ops, arg)| as real);
  }
}
