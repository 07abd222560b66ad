/** The clone itself: `mutableCloneState` and `cloneMutableValue`. A panic of the
    original is a `Refused` result: its callers recover from it. */
module CloneState {
  import opened Wrappers
  import opened CloneGraph
  import opened CloneFaults
  import opened CloneCost
  import opened CloneInvariant
  import opened CloneCauses
  import opened CloneDepth

  // ----- what a call may do -----

  /** From `s` to `t` the state only grew, kept its invariant, met only cells of
      `reach`, and `cost` was paid. */
  ghost predicate Stepped(g: Graph, reach: set<Loc>, s: Snapshot, t: Snapshot, cost: Cost)
    requires LaidOut(g) && reach <= g.cells.Keys
  {
    Inv(g, t) && t.seen.Keys <= reach && Grows(s, t) && Due(g, reach, t) == Due(g, reach, s).Plus(cost)
  }

  ghost predicate Stopped(g: Graph, t: Snapshot, why: Refusal) {
    Budget(t) && Justified(g, t, why)
  }

  /** The cells met are those of the pure walk; a refusal for depth is one of the walk. */
  ghost predicate WalkEnds<T>(walk: Option<set<Loc>>, t: Snapshot, r: Attempt<T>) {
    if r.Done? then walk == Some(t.seen.Keys) else r.why.TooDeep? ==> walk == None
  }

  /** The outcome of cloning `v` between two states: a corresponding value, paid
      for, in which no fault was met; or a refusal with its cause. */
  ghost predicate ClonedTo(g: Graph, reach: set<Loc>, s: Snapshot, t: Snapshot, v: Val, depth: nat, r: Attempt<Val>)
    requires LaidOut(g) && reach <= g.cells.Keys
  {
    && WalkEnds(Walk(g, v, MAX_DEPTH - depth, s.seen.Keys), t, r)
    && match r
       case Done(w) => Stepped(g, reach, s, t, CostOf(v)) && Corr(t.seen, v, w) && Clean(v)
       case Refused(why) => Stopped(g, t, why) && (why.TooDeep? || Cause(g, reach, s, v, why))
  }

  ghost predicate ClonedAll(g: Graph, reach: set<Loc>, s: Snapshot, t: Snapshot, vs: seq<Val>, depth: nat, r: Attempt<seq<Val>>)
    requires LaidOut(g) && reach <= g.cells.Keys
  {
    && WalkEnds(WalkAll(g, vs, MAX_DEPTH - depth, s.seen.Keys), t, r)
    && match r
       case Done(ws) =>
         && Stepped(g, reach, s, t, Total(Costs(vs))) && CorrAll(t.seen, vs, ws)
         && (forall i :: 0 <= i < |vs| ==> Clean(vs[i]))
       case Refused(why) =>
         && Stopped(g, t, why)
         && (|| why.TooDeep? || Overdrawn(g, reach, s, Total(Costs(vs)), why)
             || exists i :: 0 <= i < |vs| && Faulty(g, reach, vs[i], why))
  }

  ghost predicate CleanField(f: Field) {
    forall why :: !FieldShows(f, why)
  }

  ghost predicate FieldsCloned(g: Graph, reach: set<Loc>, s: Snapshot, t: Snapshot, fs: seq<Field>, depth: nat, r: Attempt<seq<Field>>)
    requires LaidOut(g) && reach <= g.cells.Keys
  {
    && WalkEnds(WalkFields(g, fs, MAX_DEPTH - depth, s.seen.Keys), t, r)
    && match r
       case Done(ds) =>
         && Stepped(g, reach, s, t, Total(FieldCosts(fs))) && CorrFields(t.seen, fs, ds)
         && (forall i :: 0 <= i < |fs| ==> CleanField(fs[i]))
       case Refused(why) =>
         && Stopped(g, t, why)
         && (|| why.TooDeep? || Overdrawn(g, reach, s, Total(FieldCosts(fs)), why)
             || exists i :: 0 <= i < |fs| && FieldFaulty(g, reach, fs[i], why))
  }

  ghost predicate FieldCloned(g: Graph, reach: set<Loc>, s: Snapshot, t: Snapshot, f: Field, depth: nat, r: Attempt<Field>)
    requires LaidOut(g) && reach <= g.cells.Keys
  {
    && WalkEnds(WalkField(g, f, MAX_DEPTH - depth, s.seen.Keys), t, r)
    && match r
       case Done(d) => Stepped(g, reach, s, t, FieldCost(f)) && CorrField(t.seen, f, d) && CleanField(f)
       case Refused(why) =>
         Stopped(g, t, why) && (why.TooDeep? || Overdrawn(g, reach, s, FieldCost(f), why) || FieldFaulty(g, reach, f, why))
  }

  /** The state before the node of the current call was spent. */
  ghost function Unentered(s: Snapshot): Snapshot {
    s.(nodes := if s.nodes > 0 then s.nodes - 1 else 0)
  }

  /** `t` was reached by only growing after `l` got a blank copy in `s`. */
  ghost predicate GrewFromOpen(s: Snapshot, l: Loc, t: Snapshot) {
    exists blank, spans, bytes :: s.bytes <= bytes && Grows(Opened(s, l, blank, spans, bytes), t)
  }

  /** A cell was registered, accounted for and given a blank copy, or refused. */
  ghost predicate Began(g: Graph, reach: set<Loc>, s: Snapshot, t: Snapshot, l: Loc, r: Option<Refusal>)
    requires LaidOut(g) && reach <= g.cells.Keys && l in g.cells
  {
    match r
    case None => Inv(g, t) && t == Opened(s, l, Blank(g.cells[l]), t.spans, s.bytes + CellBytes(g, l))
    case Some(why) => Stopped(g, t, why) && !why.TooDeep? && (Overdrawn(g, reach, s, FREE, why) || CellFault(g, reach, why))
  }

  function Blank(c: Cell): Cell {
    match c
    case Pointee(_) => Pointee(Null)
    case Table(_) => Table([])
    case Buffer(_, len) => Buffer([], len)
  }

  /** A cell of the same kind with other contents. */
  function Rebuild(c: Cell, xs: seq<Val>): Cell
    requires |xs| == |Contents(c)|
  {
    match c
    case Pointee(_) => Pointee(xs[0])
    case Table(es) => Table(Pairs(xs, |es|))
    case Buffer(_, len) => Buffer(xs, len)
  }

  function Pairs(xs: seq<Val>, n: nat): (ps: seq<(Val, Val)>)
    requires |xs| == 2 * n
    ensures |ps| == n && forall i :: 0 <= i < n ==> ps[i].0 == xs[2 * i] && ps[i].1 == xs[2 * i + 1]
  {
    seq(n, i requires 0 <= i < n => (xs[2 * i], xs[2 * i + 1]))
  }

  lemma PairsCorrespond(m: map<Loc, Loc>, es: seq<(Val, Val)>, vs: seq<Val>, xs: seq<Val>, i: nat)
    requires i < |es| && vs == Flatten(es) && CorrAll(m, vs, xs)
    ensures Corr(m, es[i].0, xs[2 * i]) && Corr(m, es[i].1, xs[2 * i + 1])
  {
    hide Corr;
    var a, b := 2 * i, 2 * i + 1;
    assert vs[a] == es[i].0 && vs[b] == es[i].1;
  }

  lemma RebuildCorresponds(m: map<Loc, Loc>, c: Cell, xs: seq<Val>)
    requires CorrAll(m, Contents(c), xs)
    ensures CorrCell(m, c, Rebuild(c, xs))
  {
    hide Corr;
    if c.Table? {
      var es, ds := c.entries, Pairs(xs, |c.entries|);
      forall i | 0 <= i < |es| ensures Corr(m, es[i].0, ds[i].0) && Corr(m, es[i].1, ds[i].1) {
        PairsCorrespond(m, es, Contents(c), xs, i);
      }
    }
  }

  lemma SteppedTransitive(g: Graph, reach: set<Loc>, s: Snapshot, t: Snapshot, u: Snapshot, paid: Cost, cost: Cost)
    requires LaidOut(g) && reach <= g.cells.Keys
    requires Stepped(g, reach, s, t, paid) && Stepped(g, reach, t, u, cost)
    ensures Stepped(g, reach, s, u, paid.Plus(cost))
  {
    hide Inv, Due;
    GrowsTransitive(s, t, u);
  }

  /** Entering spends one node. */
  lemma SteppedEntered(g: Graph, reach: set<Loc>, s: Snapshot)
    requires LaidOut(g) && reach <= g.cells.Keys && Inv(g, s) && s.seen.Keys <= reach && s.nodes > 0
    ensures Stepped(g, reach, Unentered(s), s, Cost(1, 0))
  {
    hide Inv, Rest;
  }

  lemma SteppedSpent(g: Graph, reach: set<Loc>, s: Snapshot, nodes: nat, bytes: nat)
    requires LaidOut(g) && reach <= g.cells.Keys && Inv(g, s) && s.seen.Keys <= reach
    requires s.nodes + nodes <= MAX_NODES && s.bytes + bytes <= MAX_BYTES
    ensures Stepped(g, reach, s, s.(nodes := s.nodes + nodes, bytes := s.bytes + bytes), Cost(nodes, bytes))
  {
    hide Rest;
  }

  /** A part refused after `paid` was paid refuses the whole. */
  lemma CauseOfPart(g: Graph, reach: set<Loc>, s: Snapshot, t: Snapshot, v: Val, c: Val, paid: Cost, why: Refusal)
    requires LaidOut(g) && reach <= g.cells.Keys
    requires (v.Box? && c == v.content) || (v.Array? && c in v.elems)
    requires Stepped(g, reach, s, t, paid) && paid.Plus(CostOf(c)) == CostOf(v)
    requires Cause(g, reach, t, c, why)
    ensures Cause(g, reach, s, v, why)
  {
    hide Inv, Due, Faulty;
    if Overdrawn(g, reach, t, CostOf(c), why) {
      OverdrawnBefore(g, reach, s, t, paid, CostOf(c), CostOf(v), why);
    } else {
      FaultyPart(g, reach, v, c, why);
    }
  }

  class MutableCloneState {
    const graph: Graph
    /** The cells that can be reached from what is cloned. */
    ghost const reach: set<Loc>
    var seen: map<Loc, Loc>
    var memorySpans: seq<Span>
    var nodes: nat
    var allocationBytes: nat
    var heap: map<Loc, Cell>
    var next: Loc
    ghost var open: set<Loc>

    ghost function Now(): Snapshot
      reads this
    {
      Snapshot(seen, heap, next, open, memorySpans, nodes, allocationBytes)
    }

    ghost predicate Valid()
      reads this
    {
      Closed(graph, reach) && Inv(graph, Now()) && seen.Keys <= reach
    }

    constructor (g: Graph, firstFree: Loc, ghost cells: set<Loc>)
      requires Closed(g, cells) && forall l :: l in g.cells ==> l < firstFree
      ensures Valid() && graph == g && reach == cells
      ensures Now() == Snapshot(map[], g.cells, firstFree, {}, [], 0, 0)
    {
      graph, reach := g, cells;
      seen, memorySpans, nodes, allocationBytes := map[], [], 0, 0;
      heap, next, open := g.cells, firstFree, {};
    }

    // ----- budgets -----

    /** `enter`: one node of the budget per call. */
    method Enter(depth: nat) returns (r: Option<Refusal>)
      requires nodes <= MAX_NODES
      modifies this`nodes
      ensures r.None? <==> depth <= MAX_DEPTH && old(nodes) < MAX_NODES
      ensures nodes == if r.None? then old(nodes) + 1 else old(nodes)
      ensures r.Some? ==> Justified(graph, Now(), r.value) && (r.value == TooDeep(depth) || r.value == NodesSpent)
    {
      if depth > MAX_DEPTH {
        return Some(TooDeep(depth));
      }
      if nodes >= MAX_NODES {
        return Some(NodesSpent);
      }
      nodes := nodes + 1;
      return None;
    }

    /** `reserve`: the sum stays within the budget, so it cannot wrap around. */
    method Reserve(bytes: nat) returns (r: Option<Refusal>)
      requires allocationBytes <= MAX_BYTES
      modifies this`allocationBytes
      ensures r.None? <==> old(allocationBytes) + bytes <= MAX_BYTES
      ensures allocationBytes == if r.None? then old(allocationBytes) + bytes else old(allocationBytes)
      ensures r.Some? ==> Justified(graph, Now(), r.value) && r.value == BytesSpent(bytes)
    {
      if bytes > MAX_BYTES || allocationBytes > MAX_BYTES - bytes {
        return Some(BytesSpent(bytes));
      }
      allocationBytes := allocationBytes + bytes;
      return None;
    }

    /** `reserveContainer`: the product is computed only when it fits. */
    method ReserveContainer(elements: nat, elementSize: nat) returns (r: Option<Refusal>)
      requires allocationBytes <= MAX_BYTES
      modifies this`allocationBytes
      ensures r.None? <==> elements <= MAX_ELEMENTS && old(allocationBytes) + elements * elementSize <= MAX_BYTES
      ensures allocationBytes == old(allocationBytes) + if r.None? then elements * elementSize else 0
      ensures r.Some? ==> Justified(graph, Now(), r.value)
      ensures r.Some? ==> r.value == TooManyElements(elements) || r.value == BytesSpent(elements * elementSize)
    {
      if elements > MAX_ELEMENTS {
        return Some(TooManyElements(elements));
      }
      if elements == 0 || elementSize == 0 {
        return None;
      }
      QuotientBound(MAX_BYTES, elements, elementSize);
      if elementSize > MAX_BYTES / elements {
        return Some(BytesSpent(elements * elementSize));
      }
      r := Reserve(elements * elementSize);
    }

    /** `registerMemorySpan`: refuses empty spans, spans that leave the address
        space and spans that overlap a registered one. */
    method RegisterMemorySpan(start: nat, bytes: nat, l: Loc) returns (r: Option<Refusal>)
      modifies this`memorySpans
      ensures r.None? <==>
                && 0 < start < start + bytes < ADDRESS_SPACE
                && forall i :: 0 <= i < |old(memorySpans)| ==> !Overlaps(old(memorySpans)[i], Span(start, start + bytes))
      ensures memorySpans == old(memorySpans) + if r.None? then [Span(start, start + bytes)] else []
      ensures r.Some? ==> r.value == BadSpan(start, bytes) || r.value == OverlappingCell(l)
      ensures r == Some(BadSpan(start, bytes)) ==> start == 0 || bytes == 0 || start + bytes >= ADDRESS_SPACE
      ensures r == Some(OverlappingCell(l)) ==>
                exists i :: 0 <= i < |memorySpans| && Overlaps(memorySpans[i], Span(start, start + bytes))
    {
      if start == 0 || bytes == 0 || bytes > ADDRESS_SPACE - 1 - start {
        return Some(BadSpan(start, bytes));
      }
      assert start + bytes < ADDRESS_SPACE;
      var span := Span(start, start + bytes);
      for i := 0 to |memorySpans|
        invariant forall j :: 0 <= j < i ==> !Overlaps(memorySpans[j], span)
      {
        var existing := memorySpans[i];
        if span.start < existing.end && existing.start < span.end {
          assert Overlaps(existing, span);
          return Some(OverlappingCell(l));
        }
      }
      memorySpans := memorySpans + [span];
      return None;
    }

    // ----- unexported fields -----

    /** `mutableCloneValueIsShared`: whether a value reaches mutable memory. */
    method IsShared(v: Val, depth: nat) returns (r: Attempt<bool>)
      requires nodes <= MAX_NODES
      modifies this`nodes
      ensures old(nodes) <= nodes <= MAX_NODES
      ensures r.Done? ==> r.value == SharesMemory(v)
      ensures r == Done(false) ==> nodes == old(nodes) + HiddenNodes(v) && forall count :: !HiddenWide(v, count)
      ensures r == Done(false) ==> !HiddenDeep(v, Height(MAX_DEPTH - depth))
      ensures r.Refused? ==> Justified(graph, Now(), r.why)
      ensures r.Refused? ==> (r.why.NodesSpent? && old(nodes) + HiddenNodes(v) > MAX_NODES) || HiddenStops(v, depth, r.why)
      decreases v
    {
      hide Sum, Justified, SharesMemory, HiddenWide, HiddenNodes, HiddenStops, HiddenDeep;
      HiddenLeaf(v, depth);
      HiddenParts(v);
      var refusal := Enter(depth);
      if refusal.Some? {
        return Refused(refusal.value);
      }
      HiddenDeepLevel(v, MAX_DEPTH - depth);
      match v
      case Box(c, _) =>
        r := IsShared(c, depth + 1);
        if r.Refused? { HiddenBoxStops(v, depth, r.why); }
      case Array(es, _) =>
        r := AnyShared(v, es, depth);
      case Struct(fs, _) =>
        var vs := Values(fs);
        r := AnyShared(v, vs, depth);
      case BigInt(_, _, digits) =>
        refusal := EnterDigits(depth);
        r := if refusal.Some? then Refused(refusal.value) else Done(digits);
      case Address(n) => r := Done(n != 0);
      case Opaque(isNil) => r := Done(!isNil);
      case Ref(_) => r := Done(true);
      case Curve(_) => r := Done(true);
      case Plain(_) => r := Done(false);
      case Null => r := Done(false);
    }

    /** The sign and the digits of a big integer are two fields of their own. */
    method EnterDigits(depth: nat) returns (r: Option<Refusal>)
      requires nodes <= MAX_NODES
      modifies this`nodes
      ensures old(nodes) <= nodes <= MAX_NODES
      ensures r.None? ==> nodes == old(nodes) + 2 && depth < MAX_DEPTH
      ensures r.Some? ==> Justified(graph, Now(), r.value)
      ensures r.Some? ==>
                || (r.value == TooDeep(depth + 1) && depth + 1 > MAX_DEPTH)
                || (r.value == NodesSpent && old(nodes) + 2 > MAX_NODES)
    {
      r := Enter(depth + 1);
      if r.None? {
        r := Enter(depth + 1);
      }
    }

    /** The parts of an array or struct, up to the first that is shared. */
    method AnyShared(ghost v: Val, vs: seq<Val>, depth: nat) returns (r: Attempt<bool>)
      requires nodes <= MAX_NODES
      requires (v.Array? && vs == v.elems) || (v.Struct? && vs == Values(v.fields))
      modifies this`nodes
      ensures old(nodes) <= nodes <= MAX_NODES
      ensures r.Done? ==> (r.value <==> exists i :: 0 <= i < |vs| && SharesMemory(vs[i]))
      ensures r == Done(false) ==>
                && |vs| <= MAX_ELEMENTS && nodes == old(nodes) + Sum(HiddenCosts(vs))
                && (forall i, count :: 0 <= i < |vs| ==> !HiddenWide(vs[i], count))
                && forall i :: 0 <= i < |vs| ==> !HiddenDeep(vs[i], Height(MAX_DEPTH - depth - 1))
      ensures r.Refused? ==> Justified(graph, Now(), r.why)
      ensures r.Refused? ==> (r.why.NodesSpent? && old(nodes) + Sum(HiddenCosts(vs)) > MAX_NODES) || HiddenStops(v, depth, r.why)
      decreases v, 0
    {
      hide SharesMemory, HiddenWide, HiddenNodes, HiddenStops, HiddenDeep, Sum;
      if |vs| > MAX_ELEMENTS {
        WideStops(v, |vs|, depth);
        return Refused(TooManyElements(|vs|));
      }
      ghost var ns := HiddenCosts(vs);
      SumNone(ns);
      for i := 0 to |vs|
        invariant nodes <= MAX_NODES && nodes == old(nodes) + Sum(ns[..i])
        invariant forall j :: 0 <= j < i ==> !SharesMemory(vs[j])
        invariant forall j, count :: 0 <= j < i ==> !HiddenWide(vs[j], count)
        invariant forall j :: 0 <= j < i ==> !HiddenDeep(vs[j], Height(MAX_DEPTH - depth - 1))
      {
        SumNext(ns, i);
        SumPrefix(ns, i + 1);
        assert v.Struct? ==> vs[i] == v.fields[i].v;
        r := IsShared(vs[i], depth + 1);
        if r.Refused? {
          HiddenStopsUp(v, vs[i], i, depth, r.why);
          return;
        }
        if r.value {
          return;
        }
      }
      assert ns[..|vs|] == ns;
      r := Done(false);
    }

    // ----- the copy -----

    /** A fresh cell for the copy of `l`, entered in the memo table before its contents are cloned. */
    method Allocate(l: Loc, blank: Cell) returns (c: Loc)
      modifies this`seen, this`heap, this`next, this`open
      ensures c == old(next)
      ensures Now() == Opened(old(Now()), l, blank, memorySpans, allocationBytes)
    {
      c := next;
      heap := heap[c := blank];
      next := next + 1;
      seen := seen[l := c];
      open := open + {l};
    }

    /** The copy of `l` gets its contents. `before` is the state before it was allocated. */
    method Fill(ghost before: Snapshot, l: Loc, cell: Cell) returns (c: Loc)
      requires Inv(graph, before) && Inv(graph, Now()) && l in graph.cells && l !in before.seen
      requires GrewFromOpen(before, l, Now())
      requires CorrCell(seen, graph.cells[l], cell) && CleanCell(graph, l)
      modifies this`heap, this`open
      ensures Inv(graph, Now()) && Grows(before, Now()) && seen == old(seen) && l in seen && c == seen[l]
    {
      hide Inv;
      ghost var now := Now();
      ghost var blank, spans, bytes :| before.bytes <= bytes && Grows(Opened(before, l, blank, spans, bytes), now);
      GrowsAround(graph, before, l, blank, spans, bytes, now, cell);
      InvFilled(graph, now, l, cell);
      c := seen[l];
      heap := heap[c := cell];
      open := open - {l};
      assert Now() == Filled(now, l, cell);
    }

    method CloneElements(vs: seq<Val>, depth: nat) returns (r: Attempt<seq<Val>>)
      requires Valid() && CoveredAll(reach, vs)
      modifies this
      ensures Valid() || r.Refused?
      ensures ClonedAll(graph, reach, old(Now()), Now(), vs, depth, r)
      decreases MAX_NODES - nodes, 1
    {
      hide Inv, Due, Rest, Faulty, Stopped, Grows, Overdrawn, Stepped, Corr, Clean, CostOf, Total, Walk, WalkAll;
      ghost var before, cs := Now(), Costs(vs);
      var ws := [];
      ghost var n := MAX_DEPTH - depth;
      SteppedNot(graph, reach, before);
      TotalNone(cs);
      WalkNone(graph, vs, n, before.seen.Keys);
      for i := 0 to |vs|
        invariant WalkAll(graph, vs[..i], n, before.seen.Keys) == Some(seen.Keys)
        invariant Stepped(graph, reach, before, Now(), Total(cs[..i]))
        invariant CorrAll(seen, vs[..i], ws)
        invariant forall j :: 0 <= j < i ==> Clean(vs[j])
      {
        ghost var s := Now();
        SteppedFacts(graph, reach, before, s, Total(cs[..i]));
        TotalNext(cs, i);
        TotalPrefix(cs, i + 1);
        WalkNext(graph, vs, i, n, before.seen.Keys);
        var x := CloneValue(vs[i], depth);
        if x.Refused? {
          SteppedPaid(graph, reach, before, s, Total(cs[..i]));
          if x.why.TooDeep? {
            WalkPrefix(graph, vs, i + 1, n, before.seen.Keys);
          } else if Overdrawn(graph, reach, s, cs[i], x.why) {
            OverdrawnBefore(graph, reach, before, s, Total(cs[..i]), cs[i], Total(cs), x.why);
          }
          return Refused(x.why);
        }
        SteppedFacts(graph, reach, s, Now(), cs[i]);
        CorrAllGrows(s.seen, seen, vs[..i], ws);
        SteppedTransitive(graph, reach, before, s, Now(), Total(cs[..i]), cs[i]);
        ws := ws + [x.value];
        assert vs[..i + 1] == vs[..i] + [vs[i]];
      }
      assert vs[..|vs|] == vs && cs[..|vs|] == cs;
      SteppedFacts(graph, reach, before, Now(), Total(cs));
      return Done(ws);
    }

    /** `cloneMutableValue`. */
    method CloneValue(v: Val, depth: nat) returns (r: Attempt<Val>)
      requires Valid() && Covered(reach, v)
      modifies this
      ensures Valid() || r.Refused?
      ensures ClonedTo(graph, reach, old(Now()), Now(), v, depth, r)
      decreases MAX_NODES - nodes, 0, 0
    {
      hide Inv, Rest, Budget;
      ghost var s := Now();
      InvBudget(graph, s);
      var refusal := Enter(depth);
      InvNodes(graph, s, nodes);
      assert Now() == s.(nodes := nodes);
      if refusal.Some? {
        return Refused(refusal.value);
      }
      assert Unentered(Now()) == s;
      r := CloneEntered(v, depth);
    }

    method CloneEntered(v: Val, depth: nat) returns (r: Attempt<Val>)
      requires Valid() && Covered(reach, v) && nodes > 0 && depth <= MAX_DEPTH
      modifies this
      ensures Valid() || r.Refused?
      ensures ClonedTo(graph, reach, Unentered(old(Now())), Now(), v, depth, r)
      decreases MAX_NODES - nodes, 3
    {
      hide Inv, Budget, Due, Overdrawn, Stepped, Faulty;
      ghost var s := Now();
      InvBudget(graph, s);
      SteppedEntered(graph, reach, s);
      LeafFaulty(graph, reach, v);
      match v
      case BigInt(_, _, _) =>
        r := CloneBigInt(v, depth);
      case Box(c, _) =>
        if c.BigInt? {
          r := CloneBigInt(v, depth);
        } else if c.Curve? {
          assert Corr(seen, c, c);
          assert forall why :: Shows(v, why) ==> Shows(c, why);
          r := if StandardCurve(c.id) then Done(v) else Refused(UnknownCurve(c.id));
        } else {
          r := CloneBox(v, depth);
        }
      case Array(_, _) =>
        r := CloneArray(v, depth);
      case Struct(_, _) =>
        r := CloneStruct(v, depth);
      case Ref(l) =>
        if l in seen {
          return Done(Ref(seen[l]));
        }
        assert Leads(v, l);
        r := CloneCell(l, depth);
      case Curve(id) => r := if StandardCurve(id) then Done(v) else Refused(UnknownCurve(id));
      case Opaque(_) => r := Refused(UnsupportedKind(v));
      case Address(n) => r := if n != 0 then Refused(NonzeroAddress(n)) else Done(v);
      case Plain(_) => r := Done(v);
      case Null => r := Done(v);
    }

    /** Reserve for the current value: pay for it, or exceed the byte budget. */
    method ReserveValue(ghost v: Val, bytes: nat) returns (r: Option<Refusal>)
      requires Valid() && nodes > 0 && CostOf(v).bytes >= bytes
      modifies this`allocationBytes
      ensures r.None? ==> Valid() && Stepped(graph, reach, Unentered(old(Now())), Now(), Cost(1, bytes))
      ensures r.Some? ==> Stopped(graph, Now(), r.value) && Overdrawn(graph, reach, Unentered(old(Now())), CostOf(v), r.value)
      ensures r.Some? ==> r.value.BytesSpent?
      ensures seen == old(seen)
    {
      hide Inv, Budget, Rest;
      ghost var s := Now();
      InvBudget(graph, s);
      r := Reserve(bytes);
      assert Now() == s.(bytes := allocationBytes);
      if r.Some? {
        return;
      }
      SteppedEntered(graph, reach, s);
      SteppedSpent(graph, reach, s, 0, bytes);
      SteppedTransitive(graph, reach, Unentered(s), s, Now(), Cost(1, 0), Cost(0, bytes));
    }

    /** Big integers are copied digit by digit, boxed or not. */
    method CloneBigInt(v: Val, depth: nat) returns (r: Attempt<Val>)
      requires Valid() && nodes > 0 && depth <= MAX_DEPTH && (v.BigInt? || (v.Box? && v.content.BigInt?))
      modifies this
      ensures Valid() || r.Refused?
      ensures ClonedTo(graph, reach, Unentered(old(Now())), Now(), v, depth, r)
    {
      hide Inv, Budget, Due, Overdrawn, Stepped, Stopped;
      var BigInt(n, bits, _) := if v.BigInt? then v else v.content;
      var refusal := ReserveValue(v, DigitBytes(bits));
      if refusal.Some? {
        return Refused(refusal.value);
      }
      var copy := BigInt(n, bits, n != 0);
      assert v.Box? ==> Corr(seen, v.content, copy) && forall why :: Shows(v, why) ==> Shows(v.content, why);
      r := Done(if v.BigInt? then copy else Box(copy, v.size));
    }

    method CloneBox(v: Val, depth: nat) returns (r: Attempt<Val>)
      requires Valid() && nodes > 0 && depth <= MAX_DEPTH && v.Box? && !v.content.BigInt? && !v.content.Curve? && Covered(reach, v)
      modifies this
      ensures Valid() || r.Refused?
      ensures ClonedTo(graph, reach, Unentered(old(Now())), Now(), v, depth, r)
      decreases MAX_NODES - nodes, 1
    {
      hide Inv, Budget, Due, Overdrawn, Stepped, Stopped;
      var refusal := ReserveValue(v, v.size);
      if refusal.Some? {
        return Refused(refusal.value);
      }
      var c := v.content;
      ghost var s, t := Unentered(old(Now())), Now();
      assert forall l :: Leads(c, l) ==> Leads(v, l);
      var x := CloneValue(c, depth + 1);
      if x.Refused? {
        if !x.why.TooDeep? { CauseOfPart(graph, reach, s, t, v, c, Cost(1, v.size), x.why); }
        return Refused(x.why);
      }
      SteppedTransitive(graph, reach, s, t, Now(), Cost(1, v.size), CostOf(c));
      assert forall why :: Shows(v, why) ==> Shows(c, why);
      r := Done(Box(x.value, v.size));
    }

    method CloneArray(v: Val, depth: nat) returns (r: Attempt<Val>)
      requires Valid() && nodes > 0 && depth <= MAX_DEPTH && v.Array? && Covered(reach, v)
      modifies this
      ensures Valid() || r.Refused?
      ensures ClonedTo(graph, reach, Unentered(old(Now())), Now(), v, depth, r)
      decreases MAX_NODES - nodes, 2
    {
      hide Inv, Budget, Due, Overdrawn, Faulty, Stopped, Stepped;
      ArrayCost(v);
      var refusal := ReserveValue(v, v.size);
      if refusal.Some? {
        return Refused(refusal.value);
      }
      ghost var s, t, paid, rest := Unentered(old(Now())), Now(), Cost(1, v.size), Total(Costs(v.elems));
      forall i | 0 <= i < |v.elems| ensures Covered(reach, v.elems[i]) {
        assert forall l :: Leads(v.elems[i], l) ==> Leads(v, l);
      }
      var xs := CloneElements(v.elems, depth + 1);
      if xs.Refused? {
        SteppedPaid(graph, reach, s, t, paid);
        if Overdrawn(graph, reach, t, rest, xs.why) {
          OverdrawnBefore(graph, reach, s, t, paid, rest, CostOf(v), xs.why);
        } else if !xs.why.TooDeep? {
          ghost var i :| 0 <= i < |v.elems| && Faulty(graph, reach, v.elems[i], xs.why);
          FaultyPart(graph, reach, v, v.elems[i], xs.why);
        }
        return Refused(xs.why);
      }
      SteppedTransitive(graph, reach, s, t, Now(), paid, rest);
      CleanArray(v);
      r := Done(Array(xs.value, v.size));
    }

    method CloneStruct(v: Val, depth: nat) returns (r: Attempt<Val>)
      requires Valid() && nodes > 0 && depth <= MAX_DEPTH && v.Struct? && Covered(reach, v)
      modifies this
      ensures Valid() || r.Refused?
      ensures ClonedTo(graph, reach, Unentered(old(Now())), Now(), v, depth, r)
      decreases MAX_NODES - nodes, 2
    {
      hide Inv, Budget, Due, Overdrawn, Faulty, FieldFaulty, Stopped, Stepped;
      StructCost(v);
      var refusal := ReserveValue(v, v.size);
      if refusal.Some? {
        return Refused(refusal.value);
      }
      ghost var s, t, paid, rest := Unentered(old(Now())), Now(), Cost(1, v.size), Total(FieldCosts(v.fields));
      forall i | 0 <= i < |v.fields| && v.fields[i].Exported? ensures Covered(reach, v.fields[i].v) {
        assert forall l :: Leads(v.fields[i].v, l) ==> Leads(v, l);
      }
      var xs := CloneFields(v.fields, depth + 1);
      if xs.Refused? {
        SteppedPaid(graph, reach, s, t, paid);
        if Overdrawn(graph, reach, t, rest, xs.why) {
          OverdrawnBefore(graph, reach, s, t, paid, rest, CostOf(v), xs.why);
        } else if !xs.why.TooDeep? {
          ghost var i :| 0 <= i < |v.fields| && FieldFaulty(graph, reach, v.fields[i], xs.why);
          FaultyField(graph, reach, v, v.fields[i], xs.why);
        }
        return Refused(xs.why);
      }
      SteppedTransitive(graph, reach, s, t, Now(), paid, rest);
      r := Done(Struct(xs.value, v.size));
      CleanStruct(v);
      assert forall i :: 0 <= i < |v.fields| ==> CorrField(seen, v.fields[i], xs.value[i]);
    }

    // ----- cells -----

    /** Register and account for a pointer target, then allocate its copy. */
    method BeginPointer(l: Loc) returns (r: Option<Refusal>)
      requires Valid() && l in reach && graph.cells[l].Pointee? && l !in seen
      modifies this
      ensures Began(graph, reach, old(Now()), Now(), l, r)
    {
      hide Inv, Budget, Rest, Total, CostOf, Due, CellFault, CellShows;
      ghost var s := Now();
      InvBudget(graph, s);
      DueOpened(graph, reach, s, l, Pointee(Null), []);
      var Layout(start, size) := graph.layout[l];
      r := RegisterMemorySpan(start, size, l);
      if r.Some? {
        SpanRefused(graph, reach, s, l, r.value);
        assert Now() == s;
        return;
      }
      r := Reserve(size);
      if r.Some? {
        BudgetRegistered(graph, s, l, memorySpans, allocationBytes);
        return;
      }
      InvOpened(graph, s, l, Pointee(Null), memorySpans, allocationBytes);
      var _ := Allocate(l, Pointee(Null));
    }

    method BeginMap(l: Loc) returns (r: Option<Refusal>)
      requires Valid() && l in reach && graph.cells[l].Table? && l !in seen
      modifies this
      ensures Began(graph, reach, old(Now()), Now(), l, r)
    {
      hide Inv, Budget, Rest, Total, CostOf, Due, CellFault, CellShows;
      ghost var s := Now();
      InvBudget(graph, s);
      DueOpened(graph, reach, s, l, Table([]), []);
      r := ReserveContainer(|graph.cells[l].entries|, graph.layout[l].size);
      if r.Some? {
        BudgetRegistered(graph, s, l, memorySpans, allocationBytes);
        if r.value.TooManyElements? { RimFault(graph, reach, l, r.value); }
        return;
      }
      InvOpened(graph, s, l, Table([]), memorySpans, allocationBytes);
      var _ := Allocate(l, Table([]));
    }

    /** Slices register their whole capacity; the byte count was bounded by the reservation. */
    method BeginSlice(l: Loc) returns (r: Option<Refusal>)
      requires Valid() && l in reach && graph.cells[l].Buffer? && l !in seen
      modifies this
      ensures Began(graph, reach, old(Now()), Now(), l, r)
    {
      hide Inv, Budget, Rest, Total, CostOf, Due, CellFault, CellShows;
      ghost var s := Now();
      InvBudget(graph, s);
      var blank := Buffer([], graph.cells[l].len);
      DueOpened(graph, reach, s, l, blank, []);
      var capacity := |graph.cells[l].elems|;
      var Layout(start, size) := graph.layout[l];
      r := ReserveContainer(capacity, size);
      if r.Some? {
        if r.value.TooManyElements? { RimFault(graph, reach, l, r.value); }
        assert Now() == s;
        return;
      }
      assert capacity * size <= MAX_BYTES;
      if capacity != 0 && size != 0 {
        ghost var reserved := Now();
        r := RegisterMemorySpan(start, capacity * size, l);
        if r.Some? {
          SpanRefused(graph, reach, s, l, r.value);
          RefusedAnyway(graph, s, reserved, r.value);
          assert Now() == reserved;
          return;
        }
      }
      InvOpened(graph, s, l, blank, memorySpans, allocationBytes);
      var _ := Allocate(l, blank);
    }

    method Begin(l: Loc) returns (r: Option<Refusal>)
      requires Valid() && l in reach && l !in seen
      modifies this
      ensures Began(graph, reach, old(Now()), Now(), l, r)
    {
      hide Began, Inv;
      match graph.cells[l]
      case Pointee(_) => r := BeginPointer(l);
      case Table(_) => r := BeginMap(l);
      case Buffer(_, _) => r := BeginSlice(l);
    }

    /** A pointer, map or slice not met before: its copy is entered in the memo
        table, and then filled with the clones of its contents. */
    method CloneCell(l: Loc, depth: nat) returns (r: Attempt<Val>)
      requires Valid() && nodes > 0 && depth <= MAX_DEPTH && l in reach && l !in seen
      modifies this
      ensures Valid() || r.Refused?
      ensures ClonedTo(graph, reach, Unentered(old(Now())), Now(), Ref(l), depth, r)
      decreases MAX_NODES - nodes, 2
    {
      hide Inv, Due, Rest, Stepped, Stopped, Faulty, Overdrawn, Grows, CellFault, Total, CellBytes, CleanCell, Contents, Rebuild;
      ghost var s := Now();
      var cell := graph.cells[l];
      var refusal := Begin(l);
      if refusal.Some? {
        BeganCause(graph, reach, s, Now(), l, refusal.value);
        return Refused(refusal.value);
      }
      ghost var t := Now();
      InvBudget(graph, t);
      assert seen.Keys == s.seen.Keys + {l};
      var xs := CloneElements(Contents(cell), depth + 1);
      if xs.Refused? {
        if !xs.why.TooDeep? { ContentsCause(graph, reach, s, t, l, xs.why); }
        return Refused(xs.why);
      }
      ghost var u := Now();
      CellCloned(graph, reach, s, t, u, l, depth + 1, xs.value);
      var c := Fill(s, l, Rebuild(cell, xs.value));
      CellPaid(graph, reach, s, t, u, Now(), l);
      r := Done(Ref(c));
    }

    // ----- fields -----

    /** Exported fields are cloned, the client's cache is copied as it is, and
        any other unexported field must not reach mutable memory. */
    method CloneFields(fs: seq<Field>, depth: nat) returns (r: Attempt<seq<Field>>)
      requires Valid() && forall i :: 0 <= i < |fs| && fs[i].Exported? ==> Covered(reach, fs[i].v)
      modifies this
      ensures Valid() || r.Refused?
      ensures FieldsCloned(graph, reach, old(Now()), Now(), fs, depth, r)
      decreases MAX_NODES - nodes, 1
    {
      hide Inv, Due, Rest, FieldFaulty, Stopped, Grows, Overdrawn, Stepped, Corr, CorrField, CleanField, FieldCost, Total,
           WalkField, WalkFields;
      ghost var before, cs := Now(), FieldCosts(fs);
      var ds := [];
      ghost var n := MAX_DEPTH - depth;
      SteppedNot(graph, reach, before);
      TotalNone(cs);
      WalkNoField(graph, fs, n, before.seen.Keys);
      for i := 0 to |fs|
        invariant WalkFields(graph, fs[..i], n, before.seen.Keys) == Some(seen.Keys)
        invariant Stepped(graph, reach, before, Now(), Total(cs[..i]))
        invariant CorrFields(seen, fs[..i], ds)
        invariant forall j :: 0 <= j < i ==> CleanField(fs[j])
      {
        ghost var s := Now();
        SteppedFacts(graph, reach, before, s, Total(cs[..i]));
        TotalNext(cs, i);
        TotalPrefix(cs, i + 1);
        WalkNextField(graph, fs, i, n, before.seen.Keys);
        var x := CloneField(fs[i], depth);
        if x.Refused? {
          SteppedPaid(graph, reach, before, s, Total(cs[..i]));
          if x.why.TooDeep? {
            WalkFieldsPrefix(graph, fs, i + 1, n, before.seen.Keys);
          } else if Overdrawn(graph, reach, s, cs[i], x.why) {
            OverdrawnBefore(graph, reach, before, s, Total(cs[..i]), cs[i], Total(cs), x.why);
          }
          return Refused(x.why);
        }
        SteppedFacts(graph, reach, s, Now(), cs[i]);
        CorrFieldsGrow(s.seen, seen, fs[..i], ds);
        SteppedTransitive(graph, reach, before, s, Now(), Total(cs[..i]), cs[i]);
        ds := ds + [x.value];
        assert fs[..i + 1] == fs[..i] + [fs[i]];
      }
      assert fs[..|fs|] == fs && cs[..|fs|] == cs;
      SteppedFacts(graph, reach, before, Now(), Total(cs));
      return Done(ds);
    }

    method CloneField(f: Field, depth: nat) returns (r: Attempt<Field>)
      requires Valid() && (f.Exported? ==> Covered(reach, f.v))
      modifies this
      ensures Valid() || r.Refused?
      ensures FieldCloned(graph, reach, old(Now()), Now(), f, depth, r)
      decreases MAX_NODES - nodes, 0, 1
    {
      hide Inv, Budget, Rest, Shows, CellFault;
      ghost var s := Now();
      InvBudget(graph, s);
      match f
      case Exported(v) =>
        var x := CloneValue(v, depth);
        r := if x.Done? then Done(Exported(x.value)) else Refused(x.why);
      case Cached(v) =>
        SteppedNot(graph, reach, s);
        r := Done(f);
      case Hidden(v) =>
        var shared := IsShared(v, depth);
        InvNodes(graph, s, nodes);
        assert Now() == s.(nodes := nodes);
        if shared.Refused? {
          if shared.why.TooDeep? { HiddenDeepLess(v, shared.why.depth - depth, Height(MAX_DEPTH - depth)); }
          r := Refused(shared.why);
        } else if shared.value {
          r := Refused(HiddenMemory(v));
        } else {
          SteppedSpent(graph, reach, s, HiddenNodes(v), 0);
          r := Done(f);
        }
    }
  }

  // ----- lemmas -----

  /** What looking through a value does at its first level. */
  lemma HiddenLeaf(v: Val, depth: nat)
    ensures HiddenNodes(v) >= 1 && (depth > MAX_DEPTH ==> HiddenStops(v, depth, TooDeep(depth)))
    ensures v.BigInt? ==>
              && HiddenNodes(v) == 3 && (SharesMemory(v) <==> v.digits)
              && (depth + 1 > MAX_DEPTH ==> HiddenStops(v, depth, TooDeep(depth + 1)))
    ensures v.Box? ==>
              && HiddenNodes(v) == 1 + HiddenNodes(v.content) && (SharesMemory(v) <==> SharesMemory(v.content))
              && forall count :: HiddenWide(v, count) ==> HiddenWide(v.content, count)
    ensures !v.BigInt? && !v.Box? && !v.Array? && !v.Struct? ==>
              && HiddenNodes(v) == 1
              && (SharesMemory(v) <==> v.Ref? || v.Curve? || (v.Address? && v.address != 0) || (v.Opaque? && !v.isNil))
    ensures !v.Box? && !v.Array? && !v.Struct? ==> forall count :: !HiddenWide(v, count)
  {
    hide Sum;
  }

  /** How deep a value goes, from its first level. */
  lemma HiddenDeepLevel(v: Val, n: int)
    requires n >= 0
    ensures v.Box? ==> (HiddenDeep(v, Height(n)) <==> HiddenDeep(v.content, Height(n - 1)))
    ensures v.BigInt? ==> (HiddenDeep(v, Height(n)) <==> n == 0)
    ensures v.Array? ==> (HiddenDeep(v, Height(n)) <==> exists i :: 0 <= i < |v.elems| && HiddenDeep(v.elems[i], Height(n - 1)))
    ensures v.Struct? ==>
              (HiddenDeep(v, Height(n)) <==> exists i :: 0 <= i < |v.fields| && HiddenDeep(Values(v.fields)[i], Height(n - 1)))
    ensures !v.Box? && !v.BigInt? && !v.Array? && !v.Struct? ==> !HiddenDeep(v, Height(n))
  {
    if v.Struct? {
      assert forall i :: 0 <= i < |v.fields| ==> Values(v.fields)[i] == v.fields[i].v;
    }
  }

  /** What looking through an array or a struct comes to. */
  lemma HiddenParts(v: Val)
    ensures v.Array? || v.Struct? ==>
              var vs := if v.Array? then v.elems else Values(v.fields);
              && HiddenNodes(v) == 1 + Sum(HiddenCosts(vs))
              && (SharesMemory(v) <==> exists i :: 0 <= i < |vs| && SharesMemory(vs[i]))
              && forall count :: HiddenWide(v, count) ==> |vs| > MAX_ELEMENTS || exists i :: 0 <= i < |vs| && HiddenWide(vs[i], count)
  {
    if v.Array? {
      hide HiddenNodes, Sum, CostOf, Total;
      ArrayCost(v);
    } else if v.Struct? {
      hide HiddenNodes, Sum, CostOf, Total;
      StructCost(v);
      HiddenFields(v);
    }
  }

  lemma HiddenFields(v: Val)
    requires v.Struct?
    ensures var vs := Values(v.fields);
            && (SharesMemory(v) <==> exists i :: 0 <= i < |vs| && SharesMemory(vs[i]))
            && forall count :: HiddenWide(v, count) ==> |vs| > MAX_ELEMENTS || exists i :: 0 <= i < |vs| && HiddenWide(vs[i], count)
  {
    var vs := Values(v.fields);
    assert forall i :: 0 <= i < |vs| ==> vs[i] == v.fields[i].v;
  }

  lemma HiddenBoxStops(v: Val, depth: nat, why: Refusal)
    requires v.Box?
    ensures HiddenStops(v.content, depth + 1, why) ==> HiddenStops(v, depth, why)
  {
  }

  lemma WideStops(v: Val, count: nat, depth: nat)
    requires (v.Array? && count == |v.elems|) || (v.Struct? && count == |v.fields|)
    requires count > MAX_ELEMENTS
    ensures HiddenStops(v, depth, TooManyElements(count))
  {
  }

  lemma HiddenStopsUp(v: Val, c: Val, i: nat, depth: nat, why: Refusal)
    requires (v.Array? && i < |v.elems| && v.elems[i] == c) || (v.Struct? && i < |v.fields| && v.fields[i].v == c)
    ensures HiddenStops(c, depth + 1, why) ==> HiddenStops(v, depth, why)
  {
  }

  /** The faults that a value without parts shows by itself. */
  lemma LeafFaulty(g: Graph, reach: set<Loc>, v: Val)
    requires LaidOut(g) && reach <= g.cells.Keys
    ensures v.Opaque? ==> Faulty(g, reach, v, UnsupportedKind(v))
    ensures v.Address? && v.address != 0 ==> Faulty(g, reach, v, NonzeroAddress(v.address))
    ensures v.Curve? && !StandardCurve(v.id) ==> Faulty(g, reach, v, UnknownCurve(v.id))
    ensures v.Box? && v.content.Curve? && !StandardCurve(v.content.id) ==> Faulty(g, reach, v, UnknownCurve(v.content.id))
  {
    if v.Box? && v.content.Curve? {
      assert forall why :: Shows(v.content, why) ==> Shows(v, why);
    }
  }

  lemma CleanArray(v: Val)
    requires v.Array? && forall i :: 0 <= i < |v.elems| ==> Clean(v.elems[i])
    ensures Clean(v)
  {
  }

  lemma CleanStruct(v: Val)
    requires v.Struct? && forall i :: 0 <= i < |v.fields| ==> CleanField(v.fields[i])
    ensures Clean(v)
  {
    forall why ensures !Shows(v, why) {
      assert forall i :: 0 <= i < |v.fields| ==> !FieldShows(v.fields[i], why);
    }
  }

  lemma SteppedNot(g: Graph, reach: set<Loc>, s: Snapshot)
    requires LaidOut(g) && reach <= g.cells.Keys && Inv(g, s) && s.seen.Keys <= reach
    ensures Stepped(g, reach, s, s, FREE)
  {
    hide Inv, Rest;
  }

  lemma SteppedPaid(g: Graph, reach: set<Loc>, s: Snapshot, t: Snapshot, cost: Cost)
    requires LaidOut(g) && reach <= g.cells.Keys && Stepped(g, reach, s, t, cost)
    ensures Due(g, reach, t) == Due(g, reach, s).Plus(cost) && s.seen.Keys <= t.seen.Keys
  {
    hide Inv, Due;
  }

  lemma SteppedFacts(g: Graph, reach: set<Loc>, s: Snapshot, t: Snapshot, cost: Cost)
    requires LaidOut(g) && reach <= g.cells.Keys && Stepped(g, reach, s, t, cost)
    ensures Inv(g, t) && t.seen.Keys <= reach && Includes(s.seen, t.seen) && s.seen.Keys <= t.seen.Keys
    ensures s.nodes <= t.nodes <= MAX_NODES
  {
    hide Inv, Due;
    InvBudget(g, t);
  }

  lemma GrewOn(g: Graph, reach: set<Loc>, s: Snapshot, t: Snapshot, u: Snapshot, l: Loc)
    requires LaidOut(g) && reach <= g.cells.Keys && l in g.cells
    requires Began(g, reach, s, t, l, None) && Grows(t, u)
    ensures GrewFromOpen(s, l, u)
  {
    hide Inv, Grows;
    assert Grows(Opened(s, l, Blank(g.cells[l]), t.spans, t.bytes), u);
  }

  /** What Fill needs. */
  lemma CellCloned(g: Graph, reach: set<Loc>, s: Snapshot, t: Snapshot, u: Snapshot, l: Loc, depth: nat, xs: seq<Val>)
    requires LaidOut(g) && reach <= g.cells.Keys && l in g.cells
    requires Began(g, reach, s, t, l, None)
    requires ClonedAll(g, reach, t, u, Contents(g.cells[l]), depth, Done(xs))
    ensures Inv(g, u) && u.seen.Keys <= reach && GrewFromOpen(s, l, u) && CleanCell(g, l)
    ensures |xs| == |Contents(g.cells[l])| && CorrCell(u.seen, g.cells[l], Rebuild(g.cells[l], xs))
  {
    hide Inv, Due, Rest, Grows, Corr, Clean, CorrCell, Rebuild, RimOk;
    SteppedFacts(g, reach, t, u, Total(Costs(Contents(g.cells[l]))));
    GrewOn(g, reach, s, t, u, l);
    RebuildCorresponds(u.seen, g.cells[l], xs);
    assert l in t.seen;
    RimOfMet(g, u, l);
  }

  lemma RimFault(g: Graph, reach: set<Loc>, l: Loc, why: Refusal)
    requires LaidOut(g) && reach <= g.cells.Keys && l in reach && RimShows(g, l, why)
    ensures CellFault(g, reach, why)
  {
    assert CellShows(g, l, why);
  }

  lemma RimOfMet(g: Graph, s: Snapshot, l: Loc)
    requires Inv(g, s)
    ensures l in s.seen ==> RimOk(g, l)
  {
  }

  /** A cell refused at its start is a cause for the reference to it. */
  lemma BeganCause(g: Graph, reach: set<Loc>, s: Snapshot, t: Snapshot, l: Loc, why: Refusal)
    requires LaidOut(g) && reach <= g.cells.Keys && l in g.cells && s.nodes > 0
    requires Began(g, reach, s, t, l, Some(why))
    ensures Stopped(g, t, why) && !why.TooDeep? && Cause(g, reach, Unentered(s), Ref(l), why)
  {
    hide Rest;
  }

  /** So is a refusal of its contents. */
  lemma ContentsCause(g: Graph, reach: set<Loc>, s: Snapshot, t: Snapshot, l: Loc, why: Refusal)
    requires LaidOut(g) && reach <= g.cells.Keys && l in reach && l !in s.seen && s.nodes > 0
    requires t == Opened(s, l, Blank(g.cells[l]), t.spans, s.bytes + CellBytes(g, l))
    requires var vs := Contents(g.cells[l]);
             || Overdrawn(g, reach, t, Total(Costs(vs)), why)
             || exists i :: 0 <= i < |vs| && Faulty(g, reach, vs[i], why)
    ensures Cause(g, reach, Unentered(s), Ref(l), why)
  {
    hide Rest, Faulty, CellBytes, Total;
    var vs := Contents(g.cells[l]);
    DueOpened(g, reach, s, l, Blank(g.cells[l]), t.spans);
    if i :| 0 <= i < |vs| && Faulty(g, reach, vs[i], why) {
      FaultyContent(g, reach, l, vs[i], why);
    }
  }

  /** Opening, filling and closing a cell costs the node of the reference. */
  lemma CellPaid(g: Graph, reach: set<Loc>, s: Snapshot, t: Snapshot, u: Snapshot, x: Snapshot, l: Loc)
    requires LaidOut(g) && reach <= g.cells.Keys && l in reach && l !in s.seen && s.nodes > 0
    requires t == Opened(s, l, Blank(g.cells[l]), t.spans, s.bytes + CellBytes(g, l))
    requires Stepped(g, reach, t, u, Total(Costs(Contents(g.cells[l]))))
    requires Inv(g, x) && Grows(s, x) && x == u.(heap := x.heap, open := x.open)
    ensures Stepped(g, reach, Unentered(s), x, Cost(1, 0))
  {
    hide Inv, Rest, CellBytes, Total;
    DueOpened(g, reach, s, l, Blank(g.cells[l]), t.spans);
  }

  lemma InvNodes(g: Graph, s: Snapshot, nodes: nat)
    requires Inv(g, s) && nodes <= MAX_NODES
    ensures Inv(g, s.(nodes := nodes)) && Budget(s.(nodes := nodes))
  {
  }

  /** A refusal of a span does not depend on the bytes reserved meanwhile. */
  lemma RefusedAnyway(g: Graph, s: Snapshot, t: Snapshot, why: Refusal)
    requires Budget(s) && Justified(g, s, why) && (why.BadSpan? || why.OverlappingCell?)
    requires t == s.(bytes := t.bytes) && t.bytes <= MAX_BYTES
    ensures Budget(t) && Justified(g, t, why)
  {
  }

  /** A span is refused for a cause found in the graph. */
  lemma SpanRefused(g: Graph, reach: set<Loc>, s: Snapshot, l: Loc, why: Refusal)
    requires Inv(g, s) && reach <= g.cells.Keys && s.seen.Keys <= reach && l in reach && l !in s.seen && SpanOf(g, l).Some?
    requires why.BadSpan? ==> RimShows(g, l, why)
    requires why.BadSpan? || why == OverlappingCell(l)
    requires why.OverlappingCell? ==> exists i :: 0 <= i < |s.spans| && Overlaps(s.spans[i], SpanOf(g, l).value)
    ensures Budget(s) && Justified(g, s, why) && CellFault(g, reach, why)
  {
    hide MemoOk, CopiesOk, SourceKept, MetOk;
    if why.OverlappingCell? {
      var i :| 0 <= i < |s.spans| && Overlaps(s.spans[i], SpanOf(g, l).value);
      assert SpanOfSome(g, s.seen.Keys, s.spans[i]);
      var k :| k in s.seen.Keys && SpanOf(g, k) == Some(s.spans[i]);
      assert !Apart(SpanOf(g, k), SpanOf(g, l));
    } else {
      assert CellShows(g, l, why);
    }
  }

  lemma QuotientBound(limit: nat, n: nat, size: nat)
    requires n > 0
    ensures size > limit / n <==> n * size > limit
  {
    var q := limit / n;
    assert limit == n * q + limit % n;
    if size > q {
      assert n * size >= n * (q + 1) == n * q + n;
    } else {
      assert n * size <= n * q;
    }
  }
}
