/** What cloning costs: a value is charged for all its parts, a reference for
    itself only, and each cell for its contents, once. */
module CloneCost {
  import opened CloneGraph

  datatype Cost = Cost(nodes: nat, bytes: nat) {
    function Plus(other: Cost): Cost {
      Cost(nodes + other.nodes, bytes + other.bytes)
    }
  }

  const FREE := Cost(0, 0)

  function Sum(xs: seq<nat>): nat {
    if xs == [] then 0 else Sum(xs[..|xs| - 1]) + xs[|xs| - 1]
  }

  function Total(cs: seq<Cost>): Cost {
    if cs == [] then FREE else Total(cs[..|cs| - 1]).Plus(cs[|cs| - 1])
  }

  lemma SumNone(xs: seq<nat>)
    ensures Sum(xs[..0]) == 0
  {
  }

  lemma SumNext(xs: seq<nat>, i: nat)
    requires i < |xs|
    ensures Sum(xs[..i + 1]) == Sum(xs[..i]) + xs[i]
  {
    assert xs[..i + 1][..i] == xs[..i];
  }

  lemma {:induction false} SumPrefix(xs: seq<nat>, i: nat)
    requires i <= |xs|
    ensures Sum(xs[..i]) <= Sum(xs)
    decreases |xs| - i
  {
    if i < |xs| {
      SumNext(xs, i);
      SumPrefix(xs, i + 1);
    } else {
      assert xs[..i] == xs;
    }
  }

  lemma TotalNone(cs: seq<Cost>)
    ensures Total(cs[..0]) == FREE
  {
  }

  lemma TotalNext(cs: seq<Cost>, i: nat)
    requires i < |cs|
    ensures Total(cs[..i + 1]) == Total(cs[..i]).Plus(cs[i])
  {
    assert cs[..i + 1][..i] == cs[..i];
  }

  lemma {:induction false} TotalPrefix(cs: seq<Cost>, i: nat)
    requires i <= |cs|
    ensures Total(cs[..i]).nodes <= Total(cs).nodes && Total(cs[..i]).bytes <= Total(cs).bytes
    decreases |cs| - i
  {
    if i < |cs| {
      TotalNext(cs, i);
      TotalPrefix(cs, i + 1);
    } else {
      assert cs[..i] == cs;
    }
  }

  /** Nodes for looking through an unexported field. */
  function HiddenNodes(v: Val): nat {
    match v
    case BigInt(_, _, _) => 3
    case Box(c, _) => 1 + HiddenNodes(c)
    case Array(es, _) => 1 + Sum(seq(|es|, i requires 0 <= i < |es| => HiddenNodes(es[i])))
    case Struct(fs, _) => 1 + Sum(seq(|fs|, i requires 0 <= i < |fs| => HiddenNodes(fs[i].v)))
    case _ => 1
  }

  /** The least number of bytes that hold so many bits. */
  function DigitBytes(bits: nat): (bytes: nat)
    ensures bits <= 8 * bytes < bits + 8
  {
    bits / 8 + if bits % 8 != 0 then 1 else 0
  }

  function CostOf(v: Val): (c: Cost)
    ensures c.nodes >= 1
  {
    match v
    case BigInt(_, bits, _) => Cost(1, DigitBytes(bits))
    case Box(c, size) =>
      if c.BigInt? then Cost(1, DigitBytes(c.bits))
      else if c.Curve? then Cost(1, 0)
      else Cost(1, size).Plus(CostOf(c))
    case Array(es, size) => Cost(1, size).Plus(Total(seq(|es|, i requires 0 <= i < |es| => CostOf(es[i]))))
    case Struct(fs, size) => Cost(1, size).Plus(Total(seq(|fs|, i requires 0 <= i < |fs| =>
        if fs[i].Exported? then CostOf(fs[i].v) else if fs[i].Hidden? then Cost(HiddenNodes(fs[i].v), 0) else FREE)))
    case _ => Cost(1, 0)
  }

  function Costs(vs: seq<Val>): (cs: seq<Cost>)
    ensures |cs| == |vs| && forall i :: 0 <= i < |vs| ==> cs[i] == CostOf(vs[i])
  {
    seq(|vs|, i requires 0 <= i < |vs| => CostOf(vs[i]))
  }

  function FieldCost(f: Field): Cost {
    match f
    case Exported(v) => CostOf(v)
    case Hidden(v) => Cost(HiddenNodes(v), 0)
    case Cached(_) => FREE
  }

  function FieldCosts(fs: seq<Field>): (cs: seq<Cost>)
    ensures |cs| == |fs| && forall i :: 0 <= i < |fs| ==> cs[i] == FieldCost(fs[i])
  {
    seq(|fs|, i requires 0 <= i < |fs| => FieldCost(fs[i]))
  }

  function HiddenCosts(vs: seq<Val>): (ns: seq<nat>)
    ensures |ns| == |vs| && forall i :: 0 <= i < |vs| ==> ns[i] == HiddenNodes(vs[i])
  {
    seq(|vs|, i requires 0 <= i < |vs| => HiddenNodes(vs[i]))
  }

  function Values(fs: seq<Field>): (vs: seq<Val>)
    ensures |vs| == |fs| && forall i :: 0 <= i < |fs| ==> vs[i] == fs[i].v
  {
    seq(|fs|, i requires 0 <= i < |fs| => fs[i].v)
  }

  lemma ArrayCost(v: Val)
    requires v.Array?
    ensures CostOf(v) == Cost(1, v.size).Plus(Total(Costs(v.elems)))
    ensures HiddenNodes(v) == 1 + Sum(HiddenCosts(v.elems))
  {
    var es := v.elems;
    assert Costs(es) == seq(|es|, i requires 0 <= i < |es| => CostOf(es[i]));
    assert HiddenCosts(es) == seq(|es|, i requires 0 <= i < |es| => HiddenNodes(es[i]));
  }

  lemma StructCost(v: Val)
    requires v.Struct?
    ensures CostOf(v) == Cost(1, v.size).Plus(Total(FieldCosts(v.fields)))
    ensures HiddenNodes(v) == 1 + Sum(HiddenCosts(Values(v.fields)))
  {
    var fs := v.fields;
    assert FieldCosts(fs) == seq(|fs|, i requires 0 <= i < |fs| =>
        if fs[i].Exported? then CostOf(fs[i].v) else if fs[i].Hidden? then Cost(HiddenNodes(fs[i].v), 0) else FREE);
    assert HiddenCosts(Values(fs)) == seq(|fs|, i requires 0 <= i < |fs| => HiddenNodes(fs[i].v));
  }

  // ----- cells -----

  /** The bytes reserved for a cell itself. */
  function CellBytes(g: Graph, l: Loc): nat
    requires l in g.cells && l in g.layout
  {
    match g.cells[l]
    case Pointee(_) => g.layout[l].size
    case Table(es) => |es| * g.layout[l].size
    case Buffer(es, _) => |es| * g.layout[l].size
  }

  function CellCost(g: Graph, l: Loc): Cost
    requires l in g.cells && l in g.layout
  {
    Cost(0, CellBytes(g, l)).Plus(Total(Costs(Contents(g.cells[l]))))
  }

  /** The cost of the cells in a set. */
  ghost function Rest(g: Graph, cells: set<Loc>): Cost
    requires LaidOut(g) && cells <= g.cells.Keys
  {
    if cells == {} then FREE
    else
      var l :| l in cells;
      CellCost(g, l).Plus(Rest(g, cells - {l}))
  }

  /** It does not matter which cell is taken out first. */
  lemma {:induction false} RestSplit(g: Graph, cells: set<Loc>, l: Loc)
    requires LaidOut(g) && cells <= g.cells.Keys && l in cells
    ensures Rest(g, cells) == CellCost(g, l).Plus(Rest(g, cells - {l}))
    decreases cells
  {
    hide CellCost;
    var k :| k in cells && Rest(g, cells) == CellCost(g, k).Plus(Rest(g, cells - {k}));
    if k != l {
      RestSplit(g, cells - {k}, l);
      RestSplit(g, cells - {l}, k);
      var others := cells - {k} - {l};
      assert others == cells - {l} - {k};
      var a, b, r := CellCost(g, l), CellCost(g, k), Rest(g, others);
      assert Rest(g, cells - {k}) == a.Plus(r) && Rest(g, cells - {l}) == b.Plus(r);
      assert b.Plus(a.Plus(r)) == a.Plus(b.Plus(r));
    }
  }
}
