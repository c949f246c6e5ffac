/** The counts a plan choice reads: an estimate with its provenance, and what one reading of a label's
    counters gives it. */
module LabelCounts {

  /** Provenances, the more trustworthy first. */
  datatype Source = EstExact | EstBound | EstStats | EstHeuristic | EstFallback
  {
    function Rank(): nat {
      match this case EstExact => 0 case EstBound => 1 case EstStats => 2 case EstHeuristic => 3 case EstFallback => 4
    }

    predicate Trustworthy() { EstExact? || EstBound? || EstStats? }
  }

  datatype Estimate = Estimate(rows: real, source: Source)
  {
    predicate Trusted() { source.Trustworthy() }
  }

  /** Up to this backlog of history a plan choice computes the exact count. */
  const ExactBacklog := 4096

  function Diff(a: nat, b: nat): nat { if a > b then a - b else 0 }

  /** One reading of the counters: the labels interned, whether any history is live, the raw sizes of the
      label bitmaps, and the history records not yet reclaimed, of the whole graph. */
  datatype Reading = Reading(known: set<string>, live: bool, raw: map<string, nat>, churn: nat)
  {
    function Raw(lab: string): nat { if lab in raw then raw[lab] else 0 }

    /** What a plan choice is told of the label, n being how many nodes carry it at the snapshot. */
    function PlanCount(lab: string, n: nat): Estimate {
      if lab !in known then Estimate(0.0, EstExact)
      else if !live then Estimate(Raw(lab) as real, EstExact)
      else if churn <= ExactBacklog then Estimate(n as real, EstExact)
      else Estimate((Raw(lab) + churn) as real, EstBound)
    }

    predicate Bounds(lab: string) { lab in known && live && churn > ExactBacklog }

    /** The bitmap can differ from the snapshot only in what the history records tell of. */
    predicate Allows(lab: string, n: nat) {
      if lab !in known then n == 0
      else if !live then n == Raw(lab)
      else Diff(Raw(lab), n) <= churn && Diff(n, Raw(lab)) <= churn
    }

    /** And of two labels: a label record tells of one of them, and the birth or death of a node moves the two
        counts the same way, so no record makes one bitmap too large and the other too small. */
    predicate AllowsBoth(a: string, n: nat, b: string, m: nat) {
      && Allows(a, n) && Allows(b, m)
      && (a == b ==> n == m)
      && (a != b && a in known && b in known && live ==>
            Diff(Raw(a), n) + Diff(m, Raw(b)) <= churn && Diff(Raw(b), m) + Diff(n, Raw(a)) <= churn)
    }

    /** An estimate never counts too few, and is the number where it says exact. */
    lemma NeverUnder(lab: string, n: nat)
      requires Allows(lab, n)
      ensures var e := PlanCount(lab, n); e.rows >= n as real && (e.source == EstExact ==> e.rows == n as real)
      ensures PlanCount(lab, n).source == EstExact <==> !Bounds(lab)
    {
    }

    /** The counts that go with the estimate: itself where exact, else within the churn of the bitmap. */
    function Least(lab: string, n: nat): nat { if Bounds(lab) then Diff(Raw(lab), churn) else n }

    function Most(lab: string, n: nat): nat { if Bounds(lab) then Raw(lab) + churn else n }

    /** Every count the bitmap allows is in the range, and no other; and all of it is told alike. */
    lemma RangeIsAllowed(lab: string, n: nat, m: nat)
      requires Bounds(lab)
      ensures Least(lab, n) <= m <= Most(lab, n) <==> Allows(lab, m)
      ensures PlanCount(lab, m) == PlanCount(lab, n)
    {
    }
  }
}
