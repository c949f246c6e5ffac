/** When a count may be offered to the planner as exact. */
module CountEstimate {
  import opened CountCells

  datatype Source = EstExact | EstFallback

  datatype Estimate = Estimate(rows: int, source: Source)

  const Unavailable := Estimate(0, EstFallback)

  /** What a planner sees: the interned names, and the store's cells and dirty families if it has one. */
  datatype CountSource = CountSource(names: map<string, Id>, counts: Option<(map<Cell, int>, Dirt)>)
  {
    /** The store, with nothing pending, is exact for g where it claims to be. */
    ghost predicate Trusts(g: Graph) {
      counts.Some? ==> Exact(counts.value.0, counts.value.1, [], [], g)
    }

    function RelCardinality(relType: string): Estimate {
      if counts.None? then Unavailable
      else if relType !in names then Estimate(0, EstExact)
      else Estimate(Value(counts.value.0, E(names[relType])), EstExact)
    }

    function DegreeCardinality(lab: string, relType: string, dir: Dir): Estimate {
      if counts.None? then Unavailable
      else if lab !in names || relType !in names then Estimate(0, EstExact)
      else
        var c := D(names[lab], names[relType], dir);
        if counts.value.1.Has(c) then Unavailable else Estimate(Value(counts.value.0, c), EstExact)
    }

    function TripleCardinality(labelA: string, relType: string, labelB: string): Estimate {
      if counts.None? then Unavailable
      else if labelA !in names || relType !in names || labelB !in names then Estimate(0, EstExact)
      else
        var c := T(names[labelA], names[relType], names[labelB]);
        if counts.value.1.Has(c) then Unavailable else Estimate(Value(counts.value.0, c), EstExact)
    }

    // ---------------------------------------------------------------- the truth, by name

    predicate Is(id: Id, name: string) { name in names && names[name] == id }

    predicate Carries(g: Graph, n: Node, lab: string) { exists l :: l in g.Labels(n) && Is(l, lab) }

    function Typed(g: Graph, relType: string): set<Handle> {
      set h | h in g.edges && g.Alive(g.edges[h]) && g.edges[h].rt.Some? && Is(g.edges[h].rt.value, relType)
    }

    /** Exact always: E is never dirty. */
    lemma RelIsTrue(g: Graph, relType: string)
      requires Trusts(g)
      ensures RelCardinality(relType).source == EstExact <==> counts.Some?
      ensures counts.Some? ==> RelCardinality(relType).rows == |Typed(g, relType)|
    {
      if counts.Some? {
        if relType in names {
          assert !counts.value.1.Absorb([]).Has(E(names[relType]));
          assert Sum([], E(names[relType])) == 0;
          assert Typed(g, relType) == g.Counted(E(names[relType]));
        } else {
          assert Typed(g, relType) == {};
        }
      }
    }

    /** Exact unless the label's family in that direction is dirty; and what it then says is the number
        of relationships of the type with that end on a node carrying the label. */
    lemma DegreeIsTrue(g: Graph, lab: string, relType: string, dir: Dir)
      requires Trusts(g)
      ensures var e := DegreeCardinality(lab, relType, dir);
        && (e.source == EstExact <==> counts.Some? && (lab in names && relType in names ==>
              names[lab] !in (if dir == Out then counts.value.1.dOut else counts.value.1.dIn)))
        && (e.source == EstExact ==>
              e.rows == |set h | h in Typed(g, relType) && Carries(g, if dir == Out then g.edges[h].src else g.edges[h].dst, lab)|)
    {
      var truth := set h | h in Typed(g, relType) && Carries(g, if dir == Out then g.edges[h].src else g.edges[h].dst, lab);
      if counts.Some? {
        if lab in names && relType in names {
          var c := D(names[lab], names[relType], dir);
          assert counts.value.1.Absorb([]) == counts.value.1 && Sum([], c) == 0;
          assert truth == g.Counted(c);
        } else {
          assert truth == {};
        }
      }
    }

    lemma TripleIsTrue(g: Graph, labelA: string, relType: string, labelB: string)
      requires Trusts(g)
      ensures var e := TripleCardinality(labelA, relType, labelB);
        && (e.source == EstExact <==> counts.Some? && (labelA in names && relType in names && labelB in names ==>
              names[labelA] !in counts.value.1.tA && names[labelB] !in counts.value.1.tB))
        && (e.source == EstExact ==>
              e.rows == |set h | h in Typed(g, relType) && Carries(g, g.edges[h].src, labelA) && Carries(g, g.edges[h].dst, labelB)|)
    {
      var truth := set h | h in Typed(g, relType) && Carries(g, g.edges[h].src, labelA) && Carries(g, g.edges[h].dst, labelB);
      if counts.Some? {
        if labelA in names && relType in names && labelB in names {
          var c := T(names[labelA], names[relType], names[labelB]);
          assert counts.value.1.Absorb([]) == counts.value.1 && Sum([], c) == 0;
          assert truth == g.Counted(c);
        } else {
          assert truth == {};
        }
      }
    }
  }
}
