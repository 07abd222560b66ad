/** An object graph whose clone shares memory with it. */
module CloneWitness {
  import opened Wrappers
  import opened CloneGraph
  import opened CloneFaults
  import opened CloneCost
  import opened CloneCauses
  import opened CloneReach
  import opened CloneMemory
  import opened CloneTheorems

  /** A record that refers to a client whose cached key set is cell 2. */
  const NESTED := Graph(
    map[0 := Pointee(Struct([Exported(Ref(1))], 8)), 1 := Pointee(Struct([Cached(Ref(2))], 8)), 2 := Pointee(Plain(7))],
    map[0 := Layout(8, 8), 1 := Layout(16, 8), 2 := Layout(24, 8)])

  /** The clone accepts it, and every clone of it holds cell 2 of the source. */
  lemma NestedCacheIsShared(heap: map<Loc, Cell>, m: map<Loc, Loc>, w: Val)
    requires Iso(NESTED, heap, m) && Corr(m, Ref(0), w)
    ensures WellFormed(NESTED) && Fits(NESTED, [Ref(0)]) && WithinDepth(NESTED, [Ref(0)])
    ensures 1 in m && CellHolds(heap[m[1]], 2)
  {
    hide Iso, Fits, Shallow, WithinDepth, WellFormed, CellHolds, CostOf;
    NestedWellFormed();
    NestedFits();
    NestedShallow();
    ShallowIsWithinDepth(NESTED, [Ref(0)]);
    NestedPath();
    var path := [0, 0];
    SameShape(NESTED, heap, m, Ref(0), w, path);
    var c := NESTED.cells[1];
    assert Contents(c)[0].fields[0] == Cached(Ref(2));
    assert CacheHolds(Contents(c)[0], 2);
    CellsSharedExactly(NESTED, heap, m, 1, 2);
  }

  lemma NestedPath()
    ensures Follow(NESTED.cells, Ref(0), []) == Some(Ref(0))
    ensures Follow(NESTED.cells, Ref(0), [0, 0]) == Some(Ref(1))
  {
    assert [0, 0][1..] == [0] && [0][1..] == [];
    assert Children(NESTED.cells, Ref(0)) == [NESTED.cells[0].v];
    assert Children(NESTED.cells, NESTED.cells[0].v)[0] == Ref(1);
  }

  lemma NestedWellFormed()
    ensures WellFormed(NESTED)
  {
    var cells := NESTED.cells;
    forall l, i | l in cells && 0 <= i < |Contents(cells[l])| ensures InGraph(NESTED, Contents(cells[l])[i]) {
      var v := Contents(cells[l])[i];
      forall k | Holds(v, k) ensures k in cells {
        if v.Struct? { assert Holds(v.fields[0].v, k); }
      }
    }
  }

  lemma NestedReach()
    ensures LaidOut(NESTED) && Reach(NESTED, [Ref(0)]) == {0, 1}
  {
    hide Follow, Leads, Children;
    var vs, cells := [Ref(0)], NESTED.cells;
    NestedClosed();
    ReachLeast(NESTED, vs, {0, 1});
    NestedPath();
    assert Follow(cells, vs[0], []) == Some(Ref(0)) && Follow(cells, vs[0], [0, 0]) == Some(Ref(1));
    assert Reached(NESTED, vs, 0) && Reached(NESTED, vs, 1);
  }

  lemma NestedClosed()
    ensures Closed(NESTED, {0, 1}) && CoveredAll({0, 1}, [Ref(0)])
  {
    var cells := NESTED.cells;
    forall l, i, k | l in {0, 1} && 0 <= i < |Contents(cells[l])| && Leads(Contents(cells[l])[i], k) ensures k in {0, 1} {
      var v := Contents(cells[l])[i];
      assert v.fields[0].Exported? && Leads(v.fields[0].v, k);
    }
  }

  lemma NestedFits()
    ensures LaidOut(NESTED) && Fits(NESTED, [Ref(0)])
  {
    hide Rest, Total, Reach, Clean, CleanCell, CellCost;
    NestedReach();
    NestedCost();
    TotalOne([Ref(0)]);
    NestedClean(0);
    NestedClean(1);
    assert CostOf(Ref(0)) == Cost(1, 0);
    assert Clean(Ref(0)) by { NestedClean(0); }
    NestedApart();
  }

  lemma NestedApart()
    ensures LaidOut(NESTED) && !Clash(NESTED, {0, 1})
  {
    assert SpanOf(NESTED, 0) == Some(Span(8, 16)) && SpanOf(NESTED, 1) == Some(Span(16, 24));
  }

  lemma NestedClean(l: Loc)
    requires l in {0, 1}
    ensures CleanCell(NESTED, l) && Clean(Ref(0))
  {
    var v := NESTED.cells[l].v;
    forall why ensures !Shows(v, why) {
      assert |v.fields| == 1;
    }
    assert RimOk(NESTED, l);
  }

  lemma TotalOne(vs: seq<Val>)
    requires |vs| == 1
    ensures Total(Costs(vs)) == CostOf(vs[0])
  {
    hide Total, CostOf;
    TotalNone(Costs(vs));
    TotalNext(Costs(vs), 0);
    assert Costs(vs)[..1] == Costs(vs);
  }

  lemma NestedCost()
    ensures LaidOut(NESTED) && Rest(NESTED, {0, 1}) == Cost(3, 32)
  {
    hide Rest, CellCost;
    RestSplit(NESTED, {0, 1}, 0);
    assert {0, 1} - {0} == {1} && {1} - {1} == {};
    RestSplit(NESTED, {1}, 1);
    RestNothing(NESTED);
    NestedCellCost(0);
    NestedCellCost(1);
  }

  lemma RefCost()
    ensures forall l :: CostOf(Ref(l)) == Cost(1, 0)
  {
  }

  lemma OneField(v: Val)
    requires v.Struct? && |v.fields| == 1
    ensures CostOf(v) == Cost(1, v.size).Plus(FieldCost(v.fields[0]))
  {
    hide Total, CostOf, HiddenNodes, Sum, FieldCost;
    StructCost(v);
    var cs := FieldCosts(v.fields);
    TotalNone(cs);
    TotalNext(cs, 0);
    assert cs[..1] == cs;
  }

  lemma NestedCellCost(l: Loc)
    requires l in {0, 1}
    ensures CellCost(NESTED, l) == Cost(if l == 0 then 2 else 1, 16)
  {
    hide Total, CostOf, Costs;
    RefCost();
    var v := NESTED.cells[l].v;
    assert Contents(NESTED.cells[l]) == [v];
    TotalOne([v]);
    OneField(v);
  }

  lemma NestedShallow()
    ensures Shallow(NESTED, [Ref(0)])
  {
    var n := MAX_DEPTH + 1;
    assert !Deep(NESTED, Ref(0), n, {}) by {
      var a, b := NESTED.cells[0].v, NESTED.cells[1].v;
      assert !Deep(NESTED, b, n - 3, {0, 1});
      assert {} + {0} == {0} && {0} + {1} == {0, 1};
      assert Contents(NESTED.cells[1]) == [b] && Contents(NESTED.cells[0]) == [a];
      assert !Deep(NESTED, Ref(1), n - 2, {0});
      assert !Deep(NESTED, a, n - 1, {0});
    }
  }

  /** What cloning NESTED costs: the reference, two records with one field each of
      which one is a cache, and their two targets of eight bytes, twice. */
  lemma NestedPrice()
    ensures LaidOut(NESTED) && Price(NESTED, [Ref(0)]) == Cost(4, 32)
  {
    hide Rest, Total, Reach, CostOf;
    NestedReach();
    NestedCost();
    TotalOne([Ref(0)]);
    RefCost();
  }

  /** NESTED with the first record laid out over the second. */
  const OVERLAID := NESTED.(layout := NESTED.layout[0 := Layout(8, 16)])

  /** A pointer into the middle of another target: the clone refuses it. */
  lemma OverlaidIsRefused()
    ensures WellFormed(OVERLAID) && Occupies(OVERLAID, 0, 16) && Occupies(OVERLAID, 1, 16)
    ensures 0 in Reach(OVERLAID, [Ref(0)]) && 1 in Reach(OVERLAID, [Ref(0)]) && !Fits(OVERLAID, [Ref(0)])
  {
    hide Fits;
    NestedWellFormed();
    OverlaidWellFormed();
    NestedReach();
    assert Reached(NESTED, [Ref(0)], 0) && Reached(NESTED, [Ref(0)], 1);
    assert Reached(OVERLAID, [Ref(0)], 0) && Reached(OVERLAID, [Ref(0)], 1);
    if Fits(OVERLAID, [Ref(0)]) {
      FitsIsDisjoint(OVERLAID, [Ref(0)]);
    }
  }

  lemma OverlaidWellFormed()
    requires WellFormed(NESTED)
    ensures WellFormed(OVERLAID)
  {
    forall l, i | l in OVERLAID.cells && 0 <= i < |Contents(OVERLAID.cells[l])|
      ensures InGraph(OVERLAID, Contents(OVERLAID.cells[l])[i])
    {
      assert InGraph(NESTED, Contents(NESTED.cells[l])[i]);
    }
  }

  /** One field of each kind. */
  const SAMPLE_FIELDS := [
    Exported(Array([Plain(1), Ref(3)], 16)), Exported(Box(Plain(2), 8)), Exported(Box(BigInt(3, 9, true), 40)),
    Exported(Box(Curve(256), 16)), Exported(BigInt(4, 17, true)),
    Hidden(Struct([Exported(Plain(1)), Hidden(Box(BigInt(0, 0, false), 8))], 8)), Cached(Ref(5))]

  const SAMPLE_CELLS := Graph(
    map[0 := Pointee(Struct(SAMPLE_FIELDS, 96)), 1 := Table([(Plain(1), Ref(3)), (Plain(2), Null)]), 2 := Buffer([Plain(1), Plain(2), Null], 1)],
    map[0 := Layout(64, 96), 1 := Layout(1, 24), 2 := Layout(256, 8)])

  /** What they cost: a node for each value that is entered, the size of each
      struct, array and ordinary interface content, the digits of big integers, a
      node for each part of an unexported field, and nothing for a cache. */
  lemma SampleFields()
    ensures Total(FieldCosts(SAMPLE_FIELDS)) == Cost(14, 29)
  {
    hide Total, FieldCosts, FieldCost, HiddenNodes, CostOf, Sum;
    var fs := SAMPLE_FIELDS;
    SampleField(0); SampleField(1); SampleField(2); SampleField(3); SampleField(4); SampleField(5); SampleField(6);
    FieldsNone(fs);
    FieldsNext(fs, 0); FieldsNext(fs, 1); FieldsNext(fs, 2); FieldsNext(fs, 3); FieldsNext(fs, 4); FieldsNext(fs, 5); FieldsNext(fs, 6);
    assert fs[..7] == fs;
  }

  lemma FieldsNone(fs: seq<Field>)
    ensures Total(FieldCosts(fs[..0])) == FREE
  {
  }

  lemma FieldsNext(fs: seq<Field>, i: nat)
    requires i < |fs|
    ensures Total(FieldCosts(fs[..i + 1])) == Total(FieldCosts(fs[..i])).Plus(FieldCost(fs[i]))
  {
    hide FieldCost, CostOf, HiddenNodes;
    assert FieldCosts(fs[..i + 1])[..i] == FieldCosts(fs[..i]);
  }

  lemma SampleField(i: nat)
    requires i < 7
    ensures FieldCost(SAMPLE_FIELDS[i]) == [Cost(3, 16), Cost(2, 8), Cost(1, 2), Cost(1, 0), Cost(1, 3), Cost(6, 0), FREE][i]
  {
    hide HiddenNodes, CostOf, Sum, Total;
    var f := SAMPLE_FIELDS[i];
    LeafCosts(f.v);
    if i == 0 { SampleArray(f.v); }
    if i == 5 { SampleHidden(f.v); }
  }

  lemma LeafCosts(v: Val)
    ensures v.Plain? || v.Null? || v.Ref? ==> CostOf(v) == Cost(1, 0) && HiddenNodes(v) == 1
    ensures v.BigInt? ==> CostOf(v) == Cost(1, DigitBytes(v.bits)) && HiddenNodes(v) == 3
    ensures v.Box? && v.content.BigInt? ==> CostOf(v) == Cost(1, DigitBytes(v.content.bits)) && HiddenNodes(v) == 4
    ensures v.Box? && v.content.Curve? ==> CostOf(v) == Cost(1, 0)
    ensures v.Box? && v.content.Plain? ==> CostOf(v) == Cost(2, v.size)
  {
  }

  lemma SampleArray(v: Val)
    requires v == Array([Plain(1), Ref(3)], 16)
    ensures CostOf(v) == Cost(3, 16)
  {
    hide Total, HiddenNodes, CostOf, Sum;
    ArrayCost(v);
    LeavesCost(v.elems);
  }

  lemma SampleHidden(v: Val)
    requires v == Struct([Exported(Plain(1)), Hidden(Box(BigInt(0, 0, false), 8))], 8)
    ensures HiddenNodes(v) == 6
  {
    hide Total, HiddenNodes, CostOf, Sum;
    StructCost(v);
    var ns := HiddenCosts(Values(v.fields));
    LeafCosts(v.fields[0].v); LeafCosts(v.fields[1].v);
    SumNone(ns);
    SumNext(ns, 0); SumNext(ns, 1);
    assert ns[..2] == ns;
  }

  /** A pointer's target costs its size and its contents; a map and a slice the
      size of an entry or element for each, up to the slice's capacity. */
  lemma SampleCells()
    ensures CellCost(SAMPLE_CELLS, 0) == Cost(15, 221)
    ensures CellCost(SAMPLE_CELLS, 1) == Cost(4, 48)
    ensures CellCost(SAMPLE_CELLS, 2) == Cost(3, 24)
  {
    hide Total, HiddenNodes, CostOf, Sum, FieldCosts;
    var v := SAMPLE_CELLS.cells[0].v;
    SampleFields();
    StructCost(v);
    TotalOne([v]);
    assert Contents(SAMPLE_CELLS.cells[0]) == [v];
    var entries, elems := Contents(SAMPLE_CELLS.cells[1]), Contents(SAMPLE_CELLS.cells[2]);
    LeavesCost(entries);
    LeavesCost(elems);
  }

  lemma {:induction false} LeavesCost(vs: seq<Val>)
    requires forall i :: 0 <= i < |vs| ==> vs[i].Plain? || vs[i].Null? || vs[i].Ref?
    ensures Total(Costs(vs)) == Cost(|vs|, 0)
  {
    hide CostOf;
    if vs != [] {
      var n := |vs| - 1;
      LeavesCost(vs[..n]);
      LeafCosts(vs[n]);
      assert Costs(vs)[..n] == Costs(vs[..n]);
    }
  }
}
