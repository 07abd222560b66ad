/** What an accepted input is, from cells and layout alone: which addresses its
    cells occupy, and which values can be reached in it by following paths. */
module CloneMemory {
  import opened Wrappers
  import opened CloneGraph
  import opened CloneFaults
  import opened CloneCost
  import opened CloneCauses
  import opened CloneDepth
  import opened CloneReach

  // ----- addresses -----

  /** Address `x` belongs to cell `l`: to a pointer's target of its size, or to one
      of a slice's elements up to its capacity. */
  predicate Occupies(g: Graph, l: Loc, x: nat)
    requires l in g.cells && l in g.layout
  {
    match g.cells[l]
    case Pointee(_) => g.layout[l].start <= x < g.layout[l].start + g.layout[l].size
    case Table(_) => false
    case Buffer(es, _) => g.layout[l].start <= x < g.layout[l].start + |es| * g.layout[l].size
  }

  /** No two of the cells have an address in common. */
  ghost predicate Disjoint(g: Graph, cells: set<Loc>)
    requires LaidOut(g) && cells <= g.cells.Keys
  {
    forall a, b, x: nat :: a in cells && b in cells && a != b && Occupies(g, a, x) ==> !Occupies(g, b, x)
  }

  lemma SpanIsOccupied(g: Graph, l: Loc, x: nat)
    requires l in g.cells && l in g.layout
    ensures Occupies(g, l, x) <==> SpanOf(g, l).Some? && SpanOf(g, l).value.start <= x < SpanOf(g, l).value.end
  {
    if g.cells[l].Buffer? && (|g.cells[l].elems| == 0 || g.layout[l].size == 0) {
      assert |g.cells[l].elems| * g.layout[l].size == 0;
    }
  }

  /** Cells that are within their limits overlap exactly when they share an address. */
  lemma OverlapExactly(g: Graph, cells: set<Loc>)
    requires LaidOut(g) && cells <= g.cells.Keys && forall l :: l in cells ==> RimOk(g, l)
    ensures Clash(g, cells) <==> !Disjoint(g, cells)
  {
    forall l, x: nat | l in cells
      ensures Occupies(g, l, x) <==> SpanOf(g, l).Some? && SpanOf(g, l).value.start <= x < SpanOf(g, l).value.end
    {
      SpanIsOccupied(g, l, x);
    }
    if a, b :| a in cells && b in cells && a != b && !Apart(SpanOf(g, a), SpanOf(g, b)) {
      var s, t := SpanOf(g, a).value, SpanOf(g, b).value;
      var x := if s.start < t.start then t.start else s.start;
      assert Occupies(g, a, x) && Occupies(g, b, x);
    }
    if a, b, x: nat :| a in cells && b in cells && a != b && Occupies(g, a, x) && Occupies(g, b, x) {
      assert !Apart(SpanOf(g, a), SpanOf(g, b));
    }
  }

  /** In an input that fits, no two reachable cells share an address; so an input
      in which two do is refused. */
  lemma FitsIsDisjoint(g: Graph, vs: seq<Val>)
    requires LaidOut(g) && Fits(g, vs)
    ensures Disjoint(g, Reach(g, vs))
  {
    hide Price, Clean, Reach;
    assert forall l :: l in Reach(g, vs) ==> RimOk(g, l);
    OverlapExactly(g, Reach(g, vs));
  }

  /** The limits of each reachable cell: a proper address, a size, the end of the
      address space, and the number of entries or elements. */
  lemma CellLimits(g: Graph, l: Loc)
    requires l in g.cells && l in g.layout
    ensures RimOk(g, l) <==>
            match g.cells[l]
            case Pointee(_) => g.layout[l].start > 0 && g.layout[l].size > 0 && g.layout[l].start + g.layout[l].size < 0x1_0000_0000_0000_0000
            case Table(es) => |es| <= 4_096
            case Buffer(es, _) =>
              && |es| <= 4_096
              && (|es| > 0 && g.layout[l].size > 0 ==>
                    g.layout[l].start > 0 && g.layout[l].start + |es| * g.layout[l].size < 0x1_0000_0000_0000_0000)
  {
    if g.cells[l].Buffer? {
      var n, size := |g.cells[l].elems|, g.layout[l].size;
      if n > 0 && size > 0 { assert n * size > 0; }
    }
  }

  // ----- values -----

  /** `x` is `v` or lies within it, without following references. */
  predicate Within(v: Val, x: Val)
    decreases v
  {
    || x == v
    || match v
       case Box(c, _) => Within(c, x)
       case Array(es, _) => exists i :: 0 <= i < |es| && Within(es[i], x)
       case Struct(fs, _) => exists i :: 0 <= i < |fs| && Within(fs[i].v, x)
       case _ => false
  }

  /** A part that reaches no memory and is not too wide. */
  predicate Inert(x: Val) {
    match x
    case Ref(_) => false
    case Curve(_) => false
    case Address(n) => n == 0
    case Opaque(isNil) => isNil
    case BigInt(_, _, digits) => !digits
    case Array(es, _) => |es| <= 4_096
    case Struct(fs, _) => |fs| <= 4_096
    case _ => true
  }

  ghost predicate AllInert(h: Val) {
    forall x :: Within(h, x) ==> Inert(x)
  }

  /** Nothing in it is too wide. */
  ghost predicate Narrow(h: Val) {
    forall count: nat :: !HiddenWide(h, count)
  }

  /** An unexported field is let through exactly when everything in it is inert. */
  lemma {:induction false} HiddenExactly(h: Val)
    ensures AllInert(h) <==> !SharesMemory(h) && Narrow(h)
    decreases h
  {
    match h
    case Box(c, _) =>
      HiddenExactly(c);
      BoxInert(h);
    case Array(es, _) =>
      forall i | 0 <= i < |es| ensures AllInert(es[i]) <==> !SharesMemory(es[i]) && Narrow(es[i]) {
        HiddenExactly(es[i]);
      }
      PartsInert(h, es);
      PartsNarrow(h, es);
    case Struct(fs, _) =>
      var vs := Values(fs);
      forall i | 0 <= i < |vs| ensures AllInert(vs[i]) <==> !SharesMemory(vs[i]) && Narrow(vs[i]) {
        HiddenExactly(fs[i].v);
      }
      PartsInert(h, vs);
      PartsNarrow(h, vs);
    case _ => LeafInert(h);
  }

  lemma PartsNarrow(h: Val, vs: seq<Val>)
    requires (h.Array? && vs == h.elems) || (h.Struct? && vs == Values(h.fields))
    ensures Narrow(h) <==> |vs| <= 4_096 && forall i :: 0 <= i < |vs| ==> Narrow(vs[i])
    ensures SharesMemory(h) <==> exists i :: 0 <= i < |vs| && SharesMemory(vs[i])
  {
    assert h.Struct? ==> forall i :: 0 <= i < |vs| ==> vs[i] == h.fields[i].v;
    if |vs| > MAX_ELEMENTS {
      var count: nat := |vs|;
      assert HiddenWide(h, count);
    }
    forall i | 0 <= i < |vs| && Narrow(h) ensures Narrow(vs[i]) {
      forall count: nat ensures !HiddenWide(vs[i], count) {
        assert HiddenWide(vs[i], count) ==> HiddenWide(h, count);
      }
    }
    if |vs| <= 4_096 && forall i :: 0 <= i < |vs| ==> Narrow(vs[i]) {
      forall count: nat ensures !HiddenWide(h, count) {
        assert forall i :: 0 <= i < |vs| ==> !HiddenWide(vs[i], count);
      }
    }
  }

  lemma LeafInert(h: Val)
    requires !h.Box? && !h.Array? && !h.Struct?
    ensures AllInert(h) <==> !SharesMemory(h) && Narrow(h)
  {
    assert Within(h, h);
  }

  lemma BoxInert(h: Val)
    requires h.Box?
    ensures AllInert(h) <==> AllInert(h.content)
    ensures SharesMemory(h) <==> SharesMemory(h.content)
    ensures Narrow(h) <==> Narrow(h.content)
  {
    assert forall count: nat :: HiddenWide(h, count) <==> HiddenWide(h.content, count);
    assert forall x :: Within(h, x) <==> x == h || Within(h.content, x);
    assert Inert(h);
  }

  lemma PartsInert(h: Val, vs: seq<Val>)
    requires (h.Array? && vs == h.elems) || (h.Struct? && vs == Values(h.fields))
    ensures AllInert(h) <==> |vs| <= 4_096 && forall i :: 0 <= i < |vs| ==> AllInert(vs[i])
  {
    assert Within(h, h);
    forall i, x | 0 <= i < |vs| && Within(vs[i], x) ensures Within(h, x) {
      if h.Struct? { assert h.fields[i].v == vs[i]; }
    }
    forall x | Within(h, x) && x != h ensures exists i :: 0 <= i < |vs| && Within(vs[i], x) {
      if h.Array? {
        var i :| 0 <= i < |h.elems| && Within(h.elems[i], x);
      } else {
        var i :| 0 <= i < |h.fields| && Within(h.fields[i].v, x);
        assert Within(vs[i], x);
      }
    }
  }

  /** A value the clone takes as it meets it: no channel, function or unsafe
      pointer, no address, no curve but the three standard ones, and nothing but
      inert values in unexported fields other than caches. */
  ghost predicate Harmless(v: Val) {
    match v
    case Opaque(_) => false
    case Address(n) => n == 0
    case Curve(id) => id == 256 || id == 384 || id == 521
    case Struct(fs, _) => forall i :: 0 <= i < |fs| && fs[i].Hidden? ==> AllInert(fs[i].v)
    case _ => true
  }

  /** Every value at the end of a path from one of `vs` is harmless. */
  ghost predicate AllHarmless(g: Graph, vs: seq<Val>) {
    forall i, path, v :: 0 <= i < |vs| && Follow(g.cells, vs[i], path) == Some(v) ==> Harmless(v)
  }

  ghost predicate NoFaults(g: Graph, vs: seq<Val>) {
    && (forall i :: 0 <= i < |vs| ==> Clean(vs[i]))
    && (forall l, k :: l in Reach(g, vs) && 0 <= k < |Contents(g.cells[l])| ==> Clean(Contents(g.cells[l])[k]))
  }

  lemma OpaqueShows(v: Val)
    ensures v.Opaque? ==> Shows(v, UnsupportedKind(v))
  {
  }

  lemma CleanIsHarmless(v: Val)
    requires Clean(v)
    ensures Harmless(v)
  {
    match v
    case Opaque(_) => OpaqueShows(v);
    case Address(n) => assert !Shows(v, NonzeroAddress(n));
    case Curve(id) => assert !Shows(v, UnknownCurve(id));
    case Struct(fs, _) =>
      forall i | 0 <= i < |fs| && fs[i].Hidden? ensures AllInert(fs[i].v) {
        var h := fs[i].v;
        assert !Shows(v, HiddenMemory(h)) && !HiddenShows(h, HiddenMemory(h)) by {
          assert HiddenShows(h, HiddenMemory(h)) ==> Shows(v, HiddenMemory(h));
        }
        forall count: nat ensures !HiddenWide(h, count) {
          assert HiddenShows(h, TooManyElements(count)) ==> Shows(v, TooManyElements(count));
          assert !Shows(v, TooManyElements(count));
        }
        HiddenExactly(h);
      }
    case _ =>
  }

  lemma ChildClean(g: Graph, v: Val, cells: set<Loc>, k: nat)
    requires Closed(g, cells) && Covered(cells, v) && Clean(v) && k < |Children(g.cells, v)|
    requires forall l, j :: l in cells && 0 <= j < |Contents(g.cells[l])| ==> Clean(Contents(g.cells[l])[j])
    ensures Clean(Children(g.cells, v)[k])
  {
    var c := Children(g.cells, v)[k];
    if v.Ref? { assert Leads(v, v.loc); }
    forall why ensures !Shows(c, why) {
      match v
      case Box(_, _) => assert Shows(c, why) ==> Shows(v, why);
      case Array(es, _) => assert Shows(es[k], why) ==> Shows(v, why);
      case Struct(fs, _) => assert fs[k].Exported? && Shows(fs[k].v, why) ==> Shows(v, why);
      case _ =>
    }
  }

  lemma {:induction false} FollowClean(g: Graph, v: Val, cells: set<Loc>, path: seq<nat>)
    requires Closed(g, cells) && Covered(cells, v) && Clean(v) && Follow(g.cells, v, path).Some?
    requires forall l, j :: l in cells && 0 <= j < |Contents(g.cells[l])| ==> Clean(Contents(g.cells[l])[j])
    ensures Clean(Follow(g.cells, v, path).value)
    decreases |path|
  {
    if path != [] {
      ChildClean(g, v, cells, path[0]);
      ChildCovered(g, v, cells, path[0]);
      FollowClean(g, Children(g.cells, v)[path[0]], cells, path[1..]);
    }
  }

  /** A fault in a value is at the end of a path. */
  lemma {:induction false} FaultPath(g: Graph, v: Val, why: Refusal) returns (path: seq<nat>)
    requires Shows(v, why)
    ensures Follow(g.cells, v, path).Some? && !Harmless(Follow(g.cells, v, path).value)
    decreases v
  {
    hide AllInert, HiddenShows;
    path := [];
    match v
    case Box(c, _) =>
      var rest := FaultPath(g, c, why);
      path := [0] + rest;
      assert path[1..] == rest;
    case Array(es, _) =>
      var i :| 0 <= i < |es| && Shows(es[i], why);
      var rest := FaultPath(g, es[i], why);
      path := [i] + rest;
      assert path[1..] == rest;
    case Struct(fs, _) =>
      var i :| 0 <= i < |fs| && ((fs[i].Exported? && Shows(fs[i].v, why)) || (fs[i].Hidden? && HiddenShows(fs[i].v, why)));
      if fs[i].Exported? {
        var rest := FaultPath(g, fs[i].v, why);
        path := [i] + rest;
        assert path[1..] == rest;
      } else {
        HiddenHarm(v, i, why);
      }
    case _ =>
  }

  lemma HiddenHarm(v: Val, i: nat, why: Refusal)
    requires v.Struct? && i < |v.fields| && v.fields[i].Hidden? && HiddenShows(v.fields[i].v, why)
    ensures !Harmless(v)
  {
    var h := v.fields[i].v;
    HiddenExactly(h);
    if why.TooManyElements? {
      var count: nat := why.count;
      assert HiddenShows(h, why) ==> SharesMemory(h) || HiddenWide(h, count);
    }
    assert !AllInert(h);
  }

  /** An input is free of faults exactly when every value that can be reached by a
      path is harmless. */
  lemma FaultsExactly(g: Graph, vs: seq<Val>)
    requires WellFormed(g) && forall i :: 0 <= i < |vs| ==> InGraph(g, vs[i])
    ensures NoFaults(g, vs) <==> AllHarmless(g, vs)
  {
    hide Clean, Harmless, Follow, InGraph;
    ReachClosed(g, vs);
    ReachCovers(g, vs);
    if NoFaults(g, vs) {
      forall i, path, v | 0 <= i < |vs| && Follow(g.cells, vs[i], path) == Some(v) ensures Harmless(v) {
        assert Covered(Reach(g, vs), vs[i]);
        FollowClean(g, vs[i], Reach(g, vs), path);
        CleanIsHarmless(v);
      }
    }
    if AllHarmless(g, vs) {
      forall i | 0 <= i < |vs| ensures Clean(vs[i]) {
        FollowNothing(g, vs[i]);
        HarmlessIsClean(g, vs, i, [], vs[i]);
      }
      forall l, k | l in Reach(g, vs) && 0 <= k < |Contents(g.cells[l])| ensures Clean(Contents(g.cells[l])[k]) {
        ContentHarmless(g, vs, l, k);
      }
    }
  }

  lemma FollowNothing(g: Graph, v: Val)
    ensures Follow(g.cells, v, []) == Some(v)
  {
  }

  lemma ContentHarmless(g: Graph, vs: seq<Val>, l: Loc, k: nat)
    requires AllHarmless(g, vs) && l in Reach(g, vs) && k < |Contents(g.cells[l])|
    ensures Clean(Contents(g.cells[l])[k])
  {
    var i, path :| 0 <= i < |vs| && Follow(g.cells, vs[i], path) == Some(Ref(l));
    FollowOn(g.cells, vs[i], path, [k]);
    assert Follow(g.cells, Ref(l), [k]) == Some(Contents(g.cells[l])[k]);
    HarmlessIsClean(g, vs, i, path + [k], Contents(g.cells[l])[k]);
  }

  lemma HarmlessIsClean(g: Graph, vs: seq<Val>, i: nat, path: seq<nat>, v: Val)
    requires AllHarmless(g, vs) && i < |vs| && Follow(g.cells, vs[i], path) == Some(v)
    ensures Clean(v)
  {
    forall why ensures !Shows(v, why) {
      if Shows(v, why) {
        var rest := FaultPath(g, v, why);
        FollowOn(g.cells, vs[i], path, rest);
      }
    }
  }

  /** An input fits exactly when its price is within the budgets, its reachable
      cells are within their limits and share no address, and every value that can
      be reached is harmless. */
  lemma FitsExactly(g: Graph, vs: seq<Val>)
    requires WellFormed(g) && forall i :: 0 <= i < |vs| ==> InGraph(g, vs[i])
    ensures Fits(g, vs) <==>
            && Price(g, vs).nodes <= 16_384 && Price(g, vs).bytes <= 0x10_0000
            && (forall l :: l in Reach(g, vs) ==> RimOk(g, l))
            && Disjoint(g, Reach(g, vs)) && AllHarmless(g, vs)
  {
    hide Price, Clean, Reach, RimOk, Clash, Disjoint, AllHarmless, InGraph;
    FaultsExactly(g, vs);
    if forall l :: l in Reach(g, vs) ==> RimOk(g, l) {
      OverlapExactly(g, Reach(g, vs));
    }
    assert (forall l :: l in Reach(g, vs) ==> CleanCell(g, l)) && (forall i :: 0 <= i < |vs| ==> Clean(vs[i])) <==>
           (forall l :: l in Reach(g, vs) ==> RimOk(g, l)) && NoFaults(g, vs);
  }

  // ----- depth -----

  /** A path of at most 64 steps leads to cell `l`. */
  ghost predicate Near(g: Graph, vs: seq<Val>, l: Loc) {
    exists i, path :: 0 <= i < |vs| && |path| <= 64 && Follow(g.cells, vs[i], path) == Some(Ref(l))
  }

  ghost predicate AllNear(g: Graph, vs: seq<Val>) {
    forall l :: l in Reach(g, vs) ==> Near(g, vs, l)
  }

  lemma {:induction false} WalkPath(g: Graph, v: Val, n: int, met: set<Loc>, l: Loc) returns (path: seq<nat>)
    requires Walk(g, v, n, met).Some? && l in Walk(g, v, n, met).value && l !in met
    ensures |path| <= n && Follow(g.cells, v, path) == Some(Ref(l))
    decreases Height(n), 0, 0
  {
    if v == Ref(l) { return []; }
    var i, rest := 0, [];
    match v {
      case Ref(k) => i, rest := WalkAllPath(g, Contents(g.cells[k]), n - 1, met + {k}, l);
      case Box(c, _) => rest := WalkPath(g, c, n - 1, met, l);
      case Array(es, _) => i, rest := WalkAllPath(g, es, n - 1, met, l);
      case Struct(fs, _) => i, rest := WalkFieldsPath(g, fs, n - 1, met, l);
    }
    path := [i] + rest;
    assert path[1..] == rest;
  }

  lemma {:induction false} WalkAllPath(g: Graph, vs: seq<Val>, n: int, met: set<Loc>, l: Loc) returns (i: nat, path: seq<nat>)
    requires WalkAll(g, vs, n, met).Some? && l in WalkAll(g, vs, n, met).value && l !in met
    ensures i < |vs| && |path| <= n && Follow(g.cells, vs[i], path) == Some(Ref(l))
    decreases Height(n), 2, |vs|
  {
    var before := WalkAll(g, vs[..|vs| - 1], n, met).value;
    if l in before {
      i, path := WalkAllPath(g, vs[..|vs| - 1], n, met, l);
    } else {
      i := |vs| - 1;
      path := WalkPath(g, vs[i], n, before, l);
    }
  }

  lemma {:induction false} WalkFieldsPath(g: Graph, fs: seq<Field>, n: int, met: set<Loc>, l: Loc) returns (i: nat, path: seq<nat>)
    requires WalkFields(g, fs, n, met).Some? && l in WalkFields(g, fs, n, met).value && l !in met
    ensures i < |fs| && fs[i].Exported? && |path| <= n && Follow(g.cells, fs[i].v, path) == Some(Ref(l))
    decreases Height(n), 2, |fs|
  {
    var before := WalkFields(g, fs[..|fs| - 1], n, met).value;
    if l in before {
      i, path := WalkFieldsPath(g, fs[..|fs| - 1], n, met, l);
    } else {
      i := |fs| - 1;
      path := WalkPath(g, fs[i].v, n, before, l);
    }
  }

  /** A walk that enters all that can be reached finds each cell within 64 steps. */
  lemma WalkedIsNear(g: Graph, vs: seq<Val>)
    requires WalkAll(g, vs, MAX_DEPTH, {}) == Some(Reach(g, vs))
    ensures AllNear(g, vs)
  {
    hide Follow, Reach;
    forall l | l in Reach(g, vs) ensures Near(g, vs, l) {
      var i, path := WalkAllPath(g, vs, MAX_DEPTH, {}, l);
    }
  }
}
