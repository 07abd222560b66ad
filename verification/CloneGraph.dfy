/** Object graphs as the strict-admission clone sees them: values that may hold
    references, cells the references lead to, and what it means for a copy to
    have the same shape and the same sharing as its source. */
module CloneGraph {
  type Loc = nat

  /** `Hidden` fields are unexported; `Cached` is the unexported key-set cache of
      a client record, which the clone skips. */
  datatype Field = Exported(v: Val) | Hidden(v: Val) | Cached(v: Val)

  /** `Plain`: booleans, numbers, strings. `Address`: a uintptr. `Opaque`: a
      channel, function or unsafe pointer. `BigInt`: a big integer, with its bit
      length and whether its digit slice is allocated. `Null`: a nil pointer, map, slice or
      interface. `Ref`: a non-nil pointer, map or slice. `Box`: a non-nil
      interface. Sizes are those of the Go types. */
  datatype Val =
    | Plain(n: int)
    | Address(address: nat)
    | Opaque(isNil: bool)
    | BigInt(n: int, bits: nat, digits: bool)
    | Curve(id: nat)
    | Null
    | Ref(loc: Loc)
    | Box(content: Val, size: nat)
    | Array(elems: seq<Val>, size: nat)
    | Struct(fields: seq<Field>, size: nat)

  /** What a pointer, map or slice leads to; a slice up to its capacity. */
  datatype Cell =
    | Pointee(v: Val)
    | Table(entries: seq<(Val, Val)>)
    | Buffer(elems: seq<Val>, len: nat)

  /** Where the cell lies: `size` is the size of the pointed-to type, of a slice
      element, or of a map entry. */
  datatype Layout = Layout(start: nat, size: nat)

  datatype Graph = Graph(cells: map<Loc, Cell>, layout: map<Loc, Layout>)

  // ----- children and references -----

  /** The values one step below a value, through a reference if it is one. */
  function Children(cells: map<Loc, Cell>, v: Val): seq<Val> {
    match v
    case Ref(l) => if l in cells then Contents(cells[l]) else []
    case Box(c, _) => [c]
    case Array(es, _) => es
    case Struct(fs, _) => Shown(fs)
    case _ => []
  }

  function Contents(c: Cell): seq<Val> {
    match c
    case Pointee(v) => [v]
    case Table(es) => Flatten(es)
    case Buffer(es, _) => es
  }

  function Flatten(es: seq<(Val, Val)>): (r: seq<Val>)
    ensures |r| == 2 * |es|
    ensures forall i :: 0 <= i < |es| ==> r[2 * i] == es[i].0 && r[2 * i + 1] == es[i].1
  {
    seq(2 * |es|, i requires 0 <= i < 2 * |es| => if i % 2 == 0 then es[i / 2].0 else es[i / 2].1)
  }

  /** The exported fields; the others hold nothing that can be followed. */
  function Shown(fs: seq<Field>): (r: seq<Val>)
    ensures |r| == |fs|
    ensures forall i :: 0 <= i < |fs| ==> r[i] == if fs[i].Exported? then fs[i].v else Null
  {
    seq(|fs|, i requires 0 <= i < |fs| => if fs[i].Exported? then fs[i].v else Null)
  }

  /** `l` occurs in `v` without following references. */
  predicate Holds(v: Val, l: Loc) {
    match v
    case Ref(r) => r == l
    case Box(c, _) => Holds(c, l)
    case Array(es, _) => exists i :: 0 <= i < |es| && Holds(es[i], l)
    case Struct(fs, _) => exists i :: 0 <= i < |fs| && Holds(fs[i].v, l)
    case _ => false
  }

  /** `l` occurs in `v` where the clone follows it: not in unexported fields. */
  predicate Leads(v: Val, l: Loc) {
    match v
    case Ref(r) => r == l
    case Box(c, _) => Leads(c, l)
    case Array(es, _) => exists i :: 0 <= i < |es| && Leads(es[i], l)
    case Struct(fs, _) => exists i :: 0 <= i < |fs| && fs[i].Exported? && Leads(fs[i].v, l)
    case _ => false
  }

  lemma {:induction false} LeadsHolds(v: Val, l: Loc)
    requires Leads(v, l)
    ensures Holds(v, l)
  {
    match v
    case Box(c, _) => LeadsHolds(c, l);
    case Array(es, _) =>
      var i :| 0 <= i < |es| && Leads(es[i], l);
      LeadsHolds(es[i], l);
    case Struct(fs, _) =>
      var i :| 0 <= i < |fs| && fs[i].Exported? && Leads(fs[i].v, l);
      LeadsHolds(fs[i].v, l);
    case _ =>
  }

  predicate CellHolds(c: Cell, l: Loc) {
    exists i :: 0 <= i < |Contents(c)| && Holds(Contents(c)[i], l)
  }

  /** Go memory is safe: every reference leads to a cell. */
  ghost predicate InGraph(g: Graph, v: Val) {
    forall l :: Holds(v, l) ==> l in g.cells
  }

  predicate LaidOut(g: Graph) {
    g.layout.Keys == g.cells.Keys
  }

  ghost predicate WellFormed(g: Graph) {
    && LaidOut(g)
    && forall l :: l in g.cells ==> forall i :: 0 <= i < |Contents(g.cells[l])| ==> InGraph(g, Contents(g.cells[l])[i])
  }

  /** `mutableCloneValueIsShared`: a value in an unexported field that reaches
      mutable memory. */
  predicate SharesMemory(v: Val) {
    match v
    case Plain(_) => false
    case Null => false
    case Address(n) => n != 0
    case Opaque(isNil) => !isNil
    case BigInt(_, _, digits) => digits
    case Curve(_) => true
    case Ref(_) => true
    case Box(c, _) => SharesMemory(c)
    case Array(es, _) => exists i :: 0 <= i < |es| && SharesMemory(es[i])
    case Struct(fs, _) => exists i :: 0 <= i < |fs| && SharesMemory(fs[i].v)
  }

  lemma {:induction false} UnsharedHoldsNothing(v: Val, l: Loc)
    requires !SharesMemory(v)
    ensures !Holds(v, l)
  {
    match v
    case Box(c, _) => UnsharedHoldsNothing(c, l);
    case Array(es, _) =>
      forall i | 0 <= i < |es| ensures !Holds(es[i], l) { UnsharedHoldsNothing(es[i], l); }
    case Struct(fs, _) =>
      forall i | 0 <= i < |fs| ensures !Holds(fs[i].v, l) { UnsharedHoldsNothing(fs[i].v, l); }
    case _ =>
  }

  // ----- correspondence -----

  /** `w` is `v` with every reference sent through `m` and every big integer
      copied digit by digit, so that a zero has no digits allocated. Unexported
      fields are copied as they are: hidden ones reach no memory, cached ones may. */
  predicate Corr(m: map<Loc, Loc>, v: Val, w: Val)
    decreases v
  {
    match v
    case Ref(l) => w.Ref? && l in m && w.loc == m[l]
    case BigInt(n, bits, _) => w == BigInt(n, bits, n != 0)
    case Box(c, size) => w.Box? && w.size == size && Corr(m, c, w.content)
    case Array(es, size) =>
      && w.Array? && w.size == size && |w.elems| == |es|
      && forall i :: 0 <= i < |es| ==> Corr(m, es[i], w.elems[i])
    case Struct(fs, size) =>
      && w.Struct? && w.size == size && |w.fields| == |fs|
      && (forall i :: 0 <= i < |fs| ==>
            if fs[i].Exported? then w.fields[i].Exported? && Corr(m, fs[i].v, w.fields[i].v)
            else w.fields[i] == fs[i] && (fs[i].Hidden? ==> !SharesMemory(fs[i].v)))
    case _ => w == v
  }

  predicate CorrField(m: map<Loc, Loc>, f: Field, d: Field) {
    if f.Exported? then d.Exported? && Corr(m, f.v, d.v)
    else d == f && (f.Hidden? ==> !SharesMemory(f.v))
  }

  predicate CorrFields(m: map<Loc, Loc>, fs: seq<Field>, ds: seq<Field>) {
    |fs| == |ds| && forall i :: 0 <= i < |fs| ==> CorrField(m, fs[i], ds[i])
  }

  predicate CorrEntries(m: map<Loc, Loc>, es: seq<(Val, Val)>, ds: seq<(Val, Val)>) {
    |es| == |ds| && forall i :: 0 <= i < |es| ==> Corr(m, es[i].0, ds[i].0) && Corr(m, es[i].1, ds[i].1)
  }

  predicate CorrAll(m: map<Loc, Loc>, vs: seq<Val>, ws: seq<Val>) {
    |vs| == |ws| && forall i :: 0 <= i < |vs| ==> Corr(m, vs[i], ws[i])
  }

  predicate CorrCell(m: map<Loc, Loc>, c: Cell, d: Cell) {
    match c
    case Pointee(v) => d.Pointee? && Corr(m, v, d.v)
    case Table(es) => d.Table? && CorrEntries(m, es, d.entries)
    case Buffer(es, len) => d.Buffer? && d.len == len && CorrAll(m, es, d.elems)
  }

  predicate Injective(m: map<Loc, Loc>) {
    forall a, b :: a in m && b in m && m[a] == m[b] ==> a == b
  }

  predicate Includes(m: map<Loc, Loc>, m': map<Loc, Loc>) {
    forall l :: l in m ==> l in m' && m'[l] == m[l]
  }

  lemma {:induction false} CorrGrows(m: map<Loc, Loc>, m': map<Loc, Loc>, v: Val, w: Val)
    requires Includes(m, m') && Corr(m, v, w)
    ensures Corr(m', v, w)
    decreases v
  {
    match v
    case Box(c, _) => CorrGrows(m, m', c, w.content);
    case Array(es, _) =>
      forall i | 0 <= i < |es| ensures Corr(m', es[i], w.elems[i]) { CorrGrows(m, m', es[i], w.elems[i]); }
    case Struct(fs, _) =>
      forall i | 0 <= i < |fs| && fs[i].Exported? ensures Corr(m', fs[i].v, w.fields[i].v) {
        CorrGrows(m, m', fs[i].v, w.fields[i].v);
      }
    case _ =>
  }

  lemma CorrAllGrows(m: map<Loc, Loc>, m': map<Loc, Loc>, vs: seq<Val>, ws: seq<Val>)
    requires Includes(m, m') && CorrAll(m, vs, ws)
    ensures CorrAll(m', vs, ws)
  {
    forall i | 0 <= i < |vs| ensures Corr(m', vs[i], ws[i]) { CorrGrows(m, m', vs[i], ws[i]); }
  }

  lemma CorrFieldsGrow(m: map<Loc, Loc>, m': map<Loc, Loc>, fs: seq<Field>, ds: seq<Field>)
    requires Includes(m, m') && CorrFields(m, fs, ds)
    ensures CorrFields(m', fs, ds)
  {
    forall i | 0 <= i < |fs| ensures CorrField(m', fs[i], ds[i]) {
      if fs[i].Exported? { CorrGrows(m, m', fs[i].v, ds[i].v); }
    }
  }

  lemma CorrEntriesGrow(m: map<Loc, Loc>, m': map<Loc, Loc>, es: seq<(Val, Val)>, ds: seq<(Val, Val)>)
    requires Includes(m, m') && CorrEntries(m, es, ds)
    ensures CorrEntries(m', es, ds)
  {
    forall i | 0 <= i < |es| ensures Corr(m', es[i].0, ds[i].0) && Corr(m', es[i].1, ds[i].1) {
      CorrGrows(m, m', es[i].0, ds[i].0);
      CorrGrows(m, m', es[i].1, ds[i].1);
    }
  }

  lemma CorrCellGrows(m: map<Loc, Loc>, m': map<Loc, Loc>, c: Cell, d: Cell)
    requires Includes(m, m') && CorrCell(m, c, d)
    ensures CorrCell(m', c, d)
  {
    match c
    case Pointee(v) => CorrGrows(m, m', v, d.v);
    case Table(es) => CorrEntriesGrow(m, m', es, d.entries);
    case Buffer(es, _) => CorrAllGrows(m, m', es, d.elems);
  }

  /** Values that Go can compare, such as map keys: a big integer has a slice in it. */
  predicate Comparable(v: Val) {
    match v
    case BigInt(_, _, _) => false
    case Box(c, _) => Comparable(c)
    case Array(es, _) => forall i :: 0 <= i < |es| ==> Comparable(es[i])
    case Struct(fs, _) => forall i :: 0 <= i < |fs| ==> Comparable(fs[i].v)
    case _ => true
  }

  /** With an injective map, a comparable value and its copy determine each other. */
  lemma {:induction false} CorrUnique(m: map<Loc, Loc>, v: Val, v': Val, w: Val, w': Val)
    requires Injective(m) && Corr(m, v, w) && Corr(m, v', w') && Comparable(v) && Comparable(v')
    ensures v == v' <==> w == w'
    decreases v
  {
    match v
    case Box(c, _) =>
      if v'.Box? { CorrUnique(m, c, v'.content, w.content, w'.content); }
    case Array(es, _) =>
      if v'.Array? && |v'.elems| == |es| {
        forall i | 0 <= i < |es| ensures es[i] == v'.elems[i] <==> w.elems[i] == w'.elems[i] {
          CorrUnique(m, es[i], v'.elems[i], w.elems[i], w'.elems[i]);
        }
        assert es == v'.elems <==> w.elems == w'.elems;
      }
    case Struct(fs, _) =>
      if v'.Struct? && |v'.fields| == |fs| {
        forall i | 0 <= i < |fs| ensures fs[i] == v'.fields[i] <==> w.fields[i] == w'.fields[i] {
          if fs[i].Exported? && v'.fields[i].Exported? {
            CorrUnique(m, fs[i].v, v'.fields[i].v, w.fields[i].v, w'.fields[i].v);
          }
        }
        assert fs == v'.fields <==> w.fields == w'.fields;
      }
    case _ =>
  }
}
