/** Refusals traced back to the input: to a fault that can be reached, to cells
    that overlap, or to a cost that exceeds a budget. */
module CloneCauses {
  import opened CloneGraph
  import opened CloneFaults
  import opened CloneCost
  import opened CloneInvariant

  /** `reach` holds every cell that following references from its cells leads to. */
  ghost predicate Closed(g: Graph, reach: set<Loc>) {
    && LaidOut(g) && reach <= g.cells.Keys
    && forall l :: l in reach ==> CoveredAll(reach, Contents(g.cells[l]))
  }

  ghost predicate Covered(reach: set<Loc>, v: Val) {
    forall l :: Leads(v, l) ==> l in reach
  }

  ghost predicate CoveredAll(reach: set<Loc>, vs: seq<Val>) {
    forall i :: 0 <= i < |vs| ==> Covered(reach, vs[i])
  }

  ghost predicate Clash(g: Graph, reach: set<Loc>)
    requires LaidOut(g) && reach <= g.cells.Keys
  {
    exists a, b :: a in reach && b in reach && a != b && !Apart(SpanOf(g, a), SpanOf(g, b))
  }

  /** Spending `cost` on top of what is due exceeds the budget that `why` names. */
  ghost predicate Overdrawn(g: Graph, reach: set<Loc>, s: Snapshot, cost: Cost, why: Refusal)
    requires LaidOut(g) && reach <= g.cells.Keys
  {
    || (why.NodesSpent? && Due(g, reach, s).nodes + cost.nodes > MAX_NODES)
    || (why.BytesSpent? && Due(g, reach, s).bytes + cost.bytes > MAX_BYTES)
  }

  /** A cell that can be reached shows the fault, or two of them overlap. */
  ghost predicate CellFault(g: Graph, reach: set<Loc>, why: Refusal)
    requires LaidOut(g) && reach <= g.cells.Keys
  {
    || (why.OverlappingCell? && Clash(g, reach))
    || exists l :: l in reach && CellShows(g, l, why)
  }

  /** `why` names a fault of `v` or of a cell. */
  ghost predicate Faulty(g: Graph, reach: set<Loc>, v: Val, why: Refusal)
    requires LaidOut(g) && reach <= g.cells.Keys
  {
    Shows(v, why) || CellFault(g, reach, why)
  }

  /** The same for a field. */
  ghost predicate FieldFaulty(g: Graph, reach: set<Loc>, f: Field, why: Refusal)
    requires LaidOut(g) && reach <= g.cells.Keys
  {
    FieldShows(f, why) || CellFault(g, reach, why)
  }

  /** Looking through a value in an unexported field stops for `why`. */
  predicate HiddenStops(v: Val, depth: nat, why: Refusal) {
    || (why.TooDeep? && why.depth > MAX_DEPTH && depth <= why.depth && HiddenDeep(v, why.depth - depth))
    || (why.TooManyElements? && HiddenWide(v, why.count))
  }

  /** A budget is exceeded, or a fault is there. */
  ghost predicate Cause(g: Graph, reach: set<Loc>, s: Snapshot, v: Val, why: Refusal)
    requires LaidOut(g) && reach <= g.cells.Keys
  {
    Overdrawn(g, reach, s, CostOf(v), why) || Faulty(g, reach, v, why)
  }

  // ----- causes move up and back in time -----

  /** What comes due after `paid` was paid for comes due in the whole. */
  lemma OverdrawnBefore(g: Graph, reach: set<Loc>, s: Snapshot, t: Snapshot, paid: Cost, cost: Cost, whole: Cost, why: Refusal)
    requires LaidOut(g) && reach <= g.cells.Keys
    requires Due(g, reach, t) == Due(g, reach, s).Plus(paid)
    requires paid.Plus(cost).nodes <= whole.nodes && paid.Plus(cost).bytes <= whole.bytes
    requires Overdrawn(g, reach, t, cost, why)
    ensures Overdrawn(g, reach, s, whole, why)
  {
  }

  /** A fault below a box or in an array is a fault of the whole. */
  lemma FaultyPart(g: Graph, reach: set<Loc>, v: Val, c: Val, why: Refusal)
    requires LaidOut(g) && reach <= g.cells.Keys
    requires (v.Box? && c == v.content) || (v.Array? && c in v.elems)
    requires Faulty(g, reach, c, why)
    ensures Faulty(g, reach, v, why)
  {
    if v.Array? {
      var i :| 0 <= i < |v.elems| && v.elems[i] == c;
    }
  }

  lemma FaultyField(g: Graph, reach: set<Loc>, v: Val, f: Field, why: Refusal)
    requires LaidOut(g) && reach <= g.cells.Keys
    requires v.Struct? && f in v.fields && FieldFaulty(g, reach, f, why)
    ensures Faulty(g, reach, v, why)
  {
    var i :| 0 <= i < |v.fields| && v.fields[i] == f;
  }

  /** A fault in the contents of a cell is a fault of the reference to it. */
  lemma FaultyContent(g: Graph, reach: set<Loc>, l: Loc, c: Val, why: Refusal)
    requires LaidOut(g) && reach <= g.cells.Keys && l in reach && c in Contents(g.cells[l])
    requires Faulty(g, reach, c, why)
    ensures Faulty(g, reach, Ref(l), why)
  {
    if Shows(c, why) {
      var i :| 0 <= i < |Contents(g.cells[l])| && Contents(g.cells[l])[i] == c;
      assert CellShows(g, l, why);
    }
  }
}
