/** What makes the clone refuse a value: the limits, the memory spans, and the
    faults that a value or a cell can show. */
module CloneFaults {
  import opened Wrappers
  import opened CloneGraph

  const MAX_DEPTH: nat := 64
  const MAX_NODES: nat := 16_384
  const MAX_ELEMENTS: nat := 4_096
  const MAX_BYTES: nat := 0x10_0000
  const ADDRESS_SPACE: nat := 0x1_0000_0000_0000_0000

  /** Half-open: `end` is the first address after the span. */
  datatype Span = Span(start: nat, end: nat)

  predicate Overlaps(a: Span, b: Span) {
    a.start < b.end && b.start < a.end
  }

  predicate StandardCurve(id: nat) {
    id in {256, 384, 521}
  }

  /** The memory a cell occupies; maps and empty slices have no span of their own. */
  function SpanOf(g: Graph, l: Loc): Option<Span>
    requires l in g.cells && l in g.layout
  {
    var Layout(start, size) := g.layout[l];
    match g.cells[l]
    case Pointee(_) => Some(Span(start, start + size))
    case Table(_) => None
    case Buffer(es, _) => if |es| == 0 || size == 0 then None else Some(Span(start, start + |es| * size))
  }

  predicate Apart(a: Option<Span>, b: Option<Span>) {
    a.Some? && b.Some? ==> !Overlaps(a.value, b.value)
  }

  function CellWidth(c: Cell): nat {
    match c
    case Pointee(_) => 1
    case Table(es) => |es|
    case Buffer(es, _) => |es|
  }

  // ----- refusals -----

  datatype Refusal =
    | TooDeep(depth: nat)
    | NodesSpent
    | BytesSpent(bytes: nat)
    | TooManyElements(count: nat)
    | BadSpan(start: nat, length: nat)
    | OverlappingCell(loc: Loc)
    | UnknownCurve(id: nat)
    | HiddenMemory(v: Val)
    | UnsupportedKind(v: Val)
    | NonzeroAddress(address: nat)

  datatype Attempt<+T> = Done(value: T) | Refused(why: Refusal)

  // ----- faults of values -----

  /** A value in an unexported field holds a container of `count` parts, too many. */
  predicate HiddenWide(v: Val, count: nat) {
    match v
    case Box(c, _) => HiddenWide(c, count)
    case Array(es, _) =>
      (|es| > MAX_ELEMENTS && count == |es|) || exists i :: 0 <= i < |es| && HiddenWide(es[i], count)
    case Struct(fs, _) =>
      (|fs| > MAX_ELEMENTS && count == |fs|) || exists i :: 0 <= i < |fs| && HiddenWide(fs[i].v, count)
    case _ => false
  }

  predicate HiddenShows(h: Val, why: Refusal) {
    (SharesMemory(h) && why == HiddenMemory(h)) || (why.TooManyElements? && HiddenWide(h, why.count))
  }

  /** The clone meets fault `why` in `v`, without following references. */
  predicate Shows(v: Val, why: Refusal) {
    match v
    case Opaque(_) => why == UnsupportedKind(v)
    case Address(n) => n != 0 && why == NonzeroAddress(n)
    case Curve(id) => !StandardCurve(id) && why == UnknownCurve(id)
    case Box(c, _) => Shows(c, why)
    case Array(es, _) => exists i :: 0 <= i < |es| && Shows(es[i], why)
    case Struct(fs, _) =>
      exists i :: (0 <= i < |fs| && ((fs[i].Exported? && Shows(fs[i].v, why)) || (fs[i].Hidden? && HiddenShows(fs[i].v, why))))
    case _ => false
  }

  predicate FieldShows(f: Field, why: Refusal) {
    (f.Exported? && Shows(f.v, why)) || (f.Hidden? && HiddenShows(f.v, why))
  }

  ghost predicate Clean(v: Val) {
    forall why :: !Shows(v, why)
  }

  // ----- faults of cells -----

  /** A cell lies in a proper span of the address space and is not too wide. */
  predicate RimOk(g: Graph, l: Loc)
    requires l in g.cells && l in g.layout
  {
    && (SpanOf(g, l).Some? ==> 0 < SpanOf(g, l).value.start < SpanOf(g, l).value.end < ADDRESS_SPACE)
    && (!g.cells[l].Pointee? ==> CellWidth(g.cells[l]) <= MAX_ELEMENTS)
  }

  predicate RimShows(g: Graph, l: Loc, why: Refusal)
    requires l in g.cells && l in g.layout
  {
    match why
    case BadSpan(start, length) =>
      && SpanOf(g, l) == Some(Span(start, start + length))
      && (start == 0 || length == 0 || start + length >= ADDRESS_SPACE)
    case TooManyElements(count) => !g.cells[l].Pointee? && count == CellWidth(g.cells[l]) && count > MAX_ELEMENTS
    case _ => false
  }

  predicate CellShows(g: Graph, l: Loc, why: Refusal)
    requires l in g.cells && l in g.layout
  {
    RimShows(g, l, why) || exists i :: 0 <= i < |Contents(g.cells[l])| && Shows(Contents(g.cells[l])[i], why)
  }

  ghost predicate CleanCell(g: Graph, l: Loc)
    requires l in g.cells && l in g.layout
  {
    RimOk(g, l) && forall i :: 0 <= i < |Contents(g.cells[l])| ==> Clean(Contents(g.cells[l])[i])
  }

  lemma SpanForward(g: Graph, l: Loc)
    requires l in g.cells && l in g.layout && SpanOf(g, l).Some?
    ensures SpanOf(g, l).value.start <= SpanOf(g, l).value.end
  {
    var Layout(start, size) := g.layout[l];
    match g.cells[l]
    case Buffer(es, _) =>
      var n := |es|;
      assert n * size >= 0;
      assert SpanOf(g, l) == Some(Span(start, start + n * size));
    case Pointee(_) =>
      assert SpanOf(g, l) == Some(Span(start, start + size));
    case Table(_) =>
  }

  /** A cell is clean exactly when it shows no fault. */
  lemma CleanCellShowsNothing(g: Graph, l: Loc)
    requires l in g.cells && l in g.layout
    ensures CleanCell(g, l) <==> forall why :: !CellShows(g, l, why)
  {
    if forall why :: !CellShows(g, l, why) {
      if SpanOf(g, l).Some? {
        var span := SpanOf(g, l).value;
        SpanForward(g, l);
        assert !CellShows(g, l, BadSpan(span.start, span.end - span.start));
      }
      assert !CellShows(g, l, TooManyElements(CellWidth(g.cells[l])));
      forall i | 0 <= i < |Contents(g.cells[l])| ensures Clean(Contents(g.cells[l])[i]) {
        forall why ensures !Shows(Contents(g.cells[l])[i], why) { assert !CellShows(g, l, why); }
      }
    }
  }

  // ----- depth -----

  /** `n` levels can be descended into a value in an unexported field; a big
      integer has a level of its own there, its sign and digits. */
  predicate HiddenDeep(v: Val, n: nat)
    decreases v
  {
    n == 0 ||
    match v
    case BigInt(_, _, _) => n == 1
    case Box(c, _) => HiddenDeep(c, n - 1)
    case Array(es, _) => exists i :: 0 <= i < |es| && HiddenDeep(es[i], n - 1)
    case Struct(fs, _) => exists i :: 0 <= i < |fs| && HiddenDeep(fs[i].v, n - 1)
    case _ => false
  }

  /** `n` levels can be descended from `v` without entering a cell of `visited`
      and without entering any cell twice. */
  ghost predicate Deep(g: Graph, v: Val, n: nat, visited: set<Loc>)
    decreases n
  {
    n == 0 ||
    match v
    case Ref(l) => l in g.cells && l !in visited && exists c :: c in Contents(g.cells[l]) && Deep(g, c, n - 1, visited + {l})
    case Box(c, _) => !c.BigInt? && !c.Curve? && Deep(g, c, n - 1, visited)
    case Array(es, _) => exists c :: c in es && Deep(g, c, n - 1, visited)
    case Struct(fs, _) =>
      exists f :: (f in fs && ((f.Exported? && Deep(g, f.v, n - 1, visited)) || (f.Hidden? && HiddenDeep(f.v, n - 1))))
    case _ => false
  }

  /** Fewer forbidden cells, no fewer descents. */
  lemma {:induction false} DeepWithFewer(g: Graph, v: Val, n: nat, visited: set<Loc>, fewer: set<Loc>)
    requires Deep(g, v, n, visited) && fewer <= visited
    ensures Deep(g, v, n, fewer)
    decreases n
  {
    if n > 0 {
      match v
      case Ref(l) =>
        var c :| c in Contents(g.cells[l]) && Deep(g, c, n - 1, visited + {l});
        DeepWithFewer(g, c, n - 1, visited + {l}, fewer + {l});
      case Box(c, _) => DeepWithFewer(g, c, n - 1, visited, fewer);
      case Array(es, _) =>
        var c :| c in es && Deep(g, c, n - 1, visited);
        DeepWithFewer(g, c, n - 1, visited, fewer);
      case Struct(fs, _) =>
        var f :| f in fs && ((f.Exported? && Deep(g, f.v, n - 1, visited)) || (f.Hidden? && HiddenDeep(f.v, n - 1)));
        if f.Exported? { DeepWithFewer(g, f.v, n - 1, visited, fewer); }
      case _ =>
    }
  }
}
