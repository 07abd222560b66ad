/** What a finished clone is: an isomorphic graph that shares no mutable cell
    with its source, except through nested client caches; and when it finishes. */
module CloneTheorems {
  import opened Wrappers
  import opened CloneGraph
  import opened CloneFaults
  import opened CloneCost
  import opened CloneInvariant
  import opened CloneCauses
  import opened CloneState
  import opened CloneDepth
  import opened CloneReach
  import opened CloneMemory

  /** `m` sends each cell met in the source to its own cell in the copy, outside
      the source and with corresponding contents. */
  ghost predicate Iso(g: Graph, heap: map<Loc, Cell>, m: map<Loc, Loc>) {
    && m.Keys <= g.cells.Keys
    && Injective(m)
    && forall l :: l in m ==> m[l] in heap && m[l] !in g.cells && CorrCell(m, g.cells[l], heap[m[l]])
  }

  lemma InvGivesIso(g: Graph, s: Snapshot)
    requires Inv(g, s) && s.open == {}
    ensures Iso(g, s.heap, s.seen) && SourceKept(g, s)
    ensures forall a, b :: a in s.seen && b in s.seen && a != b ==> Apart(SpanOf(g, a), SpanOf(g, b))
  {
  }

  // ----- access paths -----

  lemma ChildrenCorrespond(g: Graph, heap: map<Loc, Cell>, m: map<Loc, Loc>, v: Val, w: Val)
    requires Iso(g, heap, m) && Corr(m, v, w)
    ensures CorrAll(m, Children(g.cells, v), Children(heap, w))
  {
    match v
    case Ref(l) => ContentsCorrespond(m, g.cells[l], heap[m[l]]);
    case Struct(fs, _) =>
      forall i | 0 <= i < |fs| ensures Corr(m, Shown(fs)[i], Shown(w.fields)[i]) {
        assert fs[i].Exported? ==> Corr(m, fs[i].v, w.fields[i].v);
      }
    case _ =>
  }

  lemma ContentsCorrespond(m: map<Loc, Loc>, c: Cell, d: Cell)
    requires CorrCell(m, c, d)
    ensures CorrAll(m, Contents(c), Contents(d))
  {
    if c.Table? {
      forall i | 0 <= i < |Flatten(c.entries)| ensures Corr(m, Flatten(c.entries)[i], Flatten(d.entries)[i]) {
        FlattenAt(c.entries, i);
        FlattenAt(d.entries, i);
      }
    }
  }

  lemma FlattenAt(es: seq<(Val, Val)>, i: nat)
    requires i < 2 * |es|
    ensures Flatten(es)[i] == if i % 2 == 0 then es[i / 2].0 else es[i / 2].1
  {
  }

  /** Same shape: a path leads somewhere in the copy exactly when it does in the
      source, and to the corresponding value. */
  lemma {:induction false} SameShape(g: Graph, heap: map<Loc, Cell>, m: map<Loc, Loc>, v: Val, w: Val, path: seq<nat>)
    requires Iso(g, heap, m) && Corr(m, v, w)
    ensures Follow(g.cells, v, path).Some? <==> Follow(heap, w, path).Some?
    ensures Follow(g.cells, v, path).Some? ==> Corr(m, Follow(g.cells, v, path).value, Follow(heap, w, path).value)
    decreases |path|
  {
    ChildrenCorrespond(g, heap, m, v, w);
    if path != [] && path[0] < |Children(g.cells, v)| {
      SameShape(g, heap, m, Children(g.cells, v)[path[0]], Children(heap, w)[path[0]], path[1..]);
    }
  }

  /** Same sharing, cycles included: two paths lead to one cell of the copy
      exactly when they do so in the source, and to equal values if these can be
      compared; and no path in the copy leads into the source. */
  lemma SameSharing(g: Graph, heap: map<Loc, Cell>, m: map<Loc, Loc>, v: Val, w: Val, p: seq<nat>, q: seq<nat>)
    requires Iso(g, heap, m) && Corr(m, v, w)
    requires Follow(heap, w, p).Some? && Follow(heap, w, q).Some?
    ensures Follow(g.cells, v, p).Some? && Follow(g.cells, v, q).Some?
    ensures var a, b := Follow(g.cells, v, p).value, Follow(g.cells, v, q).value;
            var c, d := Follow(heap, w, p).value, Follow(heap, w, q).value;
            && (a.Ref? <==> c.Ref?) && (b.Ref? <==> d.Ref?)
            && (Comparable(a) && Comparable(b) ==> (c == d <==> a == b))
    ensures Follow(heap, w, p).value.Ref? ==> Follow(heap, w, p).value.loc !in g.cells
  {
    SameShape(g, heap, m, v, w, p);
    SameShape(g, heap, m, v, w, q);
    var a, b := Follow(g.cells, v, p).value, Follow(g.cells, v, q).value;
    if Comparable(a) && Comparable(b) {
      CorrUnique(m, a, b, Follow(heap, w, p).value, Follow(heap, w, q).value);
    }
  }

  /** Distinct map keys stay distinct, so no entry of a copied map is lost. Map
      keys can be compared. */
  lemma KeysStayDistinct(g: Graph, heap: map<Loc, Cell>, m: map<Loc, Loc>, l: Loc, i: nat, j: nat)
    requires Iso(g, heap, m) && l in m && g.cells[l].Table?
    requires i < |g.cells[l].entries| && j < |g.cells[l].entries|
    requires Comparable(g.cells[l].entries[i].0) && Comparable(g.cells[l].entries[j].0)
    ensures heap[m[l]].Table? && |heap[m[l]].entries| == |g.cells[l].entries|
    ensures heap[m[l]].entries[i].0 == heap[m[l]].entries[j].0 <==> g.cells[l].entries[i].0 == g.cells[l].entries[j].0
  {
    var es, ds := g.cells[l].entries, heap[m[l]].entries;
    CorrUnique(m, es[i].0, es[j].0, ds[i].0, ds[j].0);
  }

  // ----- memory shared with the source -----

  /** `l` is held by a client cache somewhere within `v`. */
  predicate CacheHolds(v: Val, l: Loc) {
    match v
    case Box(c, _) => CacheHolds(c, l)
    case Array(es, _) => exists i :: 0 <= i < |es| && CacheHolds(es[i], l)
    case Struct(fs, _) => exists i :: 0 <= i < |fs| && FieldCacheHolds(fs[i], l)
    case _ => false
  }

  predicate FieldCacheHolds(f: Field, l: Loc) {
    match f
    case Exported(v) => CacheHolds(v, l)
    case Hidden(_) => false
    case Cached(v) => Holds(v, l)
  }

  predicate CellCacheHolds(c: Cell, l: Loc) {
    exists i :: 0 <= i < |Contents(c)| && CacheHolds(Contents(c)[i], l)
  }

  /** A copied value holds a cell of the source exactly where a client cache does. */
  lemma {:induction false} SharedExactly(g: Graph, heap: map<Loc, Cell>, m: map<Loc, Loc>, v: Val, w: Val, l: Loc)
    requires Iso(g, heap, m) && Corr(m, v, w) && l in g.cells
    ensures Holds(w, l) <==> CacheHolds(v, l)
    decreases v
  {
    match v
    case Box(c, _) => SharedExactly(g, heap, m, c, w.content, l);
    case Array(es, _) =>
      forall i | 0 <= i < |es| ensures Holds(w.elems[i], l) <==> CacheHolds(es[i], l) {
        SharedExactly(g, heap, m, es[i], w.elems[i], l);
      }
    case Struct(fs, _) =>
      forall i | 0 <= i < |fs| ensures Holds(w.fields[i].v, l) <==> FieldCacheHolds(fs[i], l) {
        if fs[i].Exported? {
          SharedExactly(g, heap, m, fs[i].v, w.fields[i].v, l);
        } else if fs[i].Hidden? {
          UnsharedHoldsNothing(fs[i].v, l);
        }
      }
    case _ =>
  }

  /** A copied cell holds no cell of the source if and only if the original cell
      has no client cache with a reference in it. */
  lemma CellsSharedExactly(g: Graph, heap: map<Loc, Cell>, m: map<Loc, Loc>, k: Loc, l: Loc)
    requires Iso(g, heap, m) && k in m && l in g.cells
    ensures CellHolds(heap[m[k]], l) <==> CellCacheHolds(g.cells[k], l)
  {
    var vs, ws := Contents(g.cells[k]), Contents(heap[m[k]]);
    ContentsCorrespond(m, g.cells[k], heap[m[k]]);
    forall i | 0 <= i < |vs| ensures Holds(ws[i], l) <==> CacheHolds(vs[i], l) {
      SharedExactly(g, heap, m, vs[i], ws[i], l);
    }
  }

  // ----- when a clone finishes -----

  /** A run that clones all of `vs` has met every reachable cell, spent exactly
      the price, and found nothing to refuse. */
  lemma FinishedFits(g: Graph, vs: seq<Val>, ws: seq<Val>, start: Snapshot, t: Snapshot)
    requires LaidOut(g) && start.nodes == start.bytes == 0 && start.seen == map[]
    requires Stepped(g, Reach(g, vs), start, t, Total(Costs(vs))) && t.open == {}
    requires CorrAll(t.seen, vs, ws) && forall i :: 0 <= i < |vs| ==> Clean(vs[i])
    ensures t.seen.Keys == Reach(g, vs)
    ensures Cost(t.nodes, t.bytes) == Price(g, vs) && Fits(g, vs)
  {
    hide Inv, Due, Rest, Total, Clean, CleanCell, Reach, CorrAll, Clash, Stepped, Price, CostOf;
    var reach := Reach(g, vs);
    SteppedOpen(g, reach, start, t, Total(Costs(vs)));
    SteppedPaid(g, reach, start, t, Total(Costs(vs)));
    FinishedMet(g, vs, ws, t);
    FinishedPrice(g, vs, start, t);
    FinishedClean(g, reach, t);
  }

  lemma FinishedMet(g: Graph, vs: seq<Val>, ws: seq<Val>, t: Snapshot)
    requires LaidOut(g) && Inv(g, t) && t.open == {} && t.seen.Keys <= Reach(g, vs) && CorrAll(t.seen, vs, ws)
    ensures t.seen.Keys == Reach(g, vs)
  {
    hide Inv, Reach, CorrAll, Iso, Apart;
    InvGivesIso(g, t);
    forall l | l in Reach(g, vs) ensures l in t.seen.Keys {
      MetByCopy(g, vs, ws, t, l);
    }
  }

  lemma FinishedPrice(g: Graph, vs: seq<Val>, start: Snapshot, t: Snapshot)
    requires LaidOut(g) && start.nodes == start.bytes == 0 && start.seen == map[] && t.seen.Keys == Reach(g, vs)
    requires Due(g, Reach(g, vs), t) == Due(g, Reach(g, vs), start).Plus(Total(Costs(vs)))
    ensures Cost(t.nodes, t.bytes) == Price(g, vs)
  {
    hide Due, Rest, Total, Reach, CostOf, Costs;
    DueAtStart(g, Reach(g, vs), start);
    DueAtEnd(g, Reach(g, vs), t);
  }

  lemma DueAtStart(g: Graph, reach: set<Loc>, s: Snapshot)
    requires LaidOut(g) && reach <= g.cells.Keys && s.nodes == s.bytes == 0 && s.seen == map[]
    ensures Due(g, reach, s) == Rest(g, reach)
  {
    hide Rest;
    assert reach - s.seen.Keys == reach;
  }

  lemma DueAtEnd(g: Graph, reach: set<Loc>, s: Snapshot)
    requires LaidOut(g) && reach <= g.cells.Keys && s.seen.Keys == reach
    ensures Due(g, reach, s) == Cost(s.nodes, s.bytes)
  {
    hide Rest;
    assert reach - s.seen.Keys == {};
    RestNothing(g);
  }

  lemma RestNothing(g: Graph)
    requires LaidOut(g)
    ensures Rest(g, {}) == FREE
  {
  }

  lemma FinishedClean(g: Graph, reach: set<Loc>, t: Snapshot)
    requires Inv(g, t) && t.open == {} && t.seen.Keys == reach
    ensures t.nodes <= MAX_NODES && t.bytes <= MAX_BYTES
    ensures (forall l :: l in reach ==> CleanCell(g, l)) && !Clash(g, reach)
  {
    hide CleanCell, CopiesOk, SourceKept;
  }

  lemma MetByCopy(g: Graph, vs: seq<Val>, ws: seq<Val>, t: Snapshot, l: Loc)
    requires LaidOut(g) && Iso(g, t.heap, t.seen) && CorrAll(t.seen, vs, ws) && l in Reach(g, vs)
    ensures l in t.seen.Keys
  {
    var i, path :| 0 <= i < |vs| && Follow(g.cells, vs[i], path) == Some(Ref(l));
    SameShape(g, t.heap, t.seen, vs[i], ws[i], path);
  }

  /** What every clone promises: success if and only if the input fits and is
      within the depth limit, and a cause in the input for every refusal. */
  ghost predicate Promised(g: Graph, vs: seq<Val>, refusal: Option<Refusal>)
    requires LaidOut(g)
  {
    && (refusal.None? <==> Fits(g, vs) && WithinDepth(g, vs))
    && (refusal.Some? ==> InputCause(g, vs, refusal.value))
  }

  lemma WalkedWithin(g: Graph, vs: seq<Val>)
    ensures WithinDepth(g, vs) <==> WalkAll(g, vs, MAX_DEPTH, {}).Some?
  {
  }

  /** The state it ends in: the price paid for exactly what can be reached, or a
      state in which the refusal is justified. */
  ghost predicate EndsIn(g: Graph, vs: seq<Val>, refusal: Option<Refusal>, t: Snapshot)
    requires LaidOut(g)
  {
    if refusal.None? then t.seen.Keys == Reach(g, vs) && Cost(t.nodes, t.bytes) == Price(g, vs)
    else Stopped(g, t, refusal.value)
  }

  function WhyNot<T>(r: Attempt<T>): Option<Refusal> {
    if r.Refused? then Some(r.why) else None
  }

  // ----- the two clones -----

  /** `cloneHumanConfidentialBFFAuthenticationSession`: clone whatever the root
      pointer leads to, from a new state. */
  method CloneSession(g: Graph, root: Loc, firstFree: Loc)
    returns (r: Attempt<(Val, map<Loc, Cell>)>, ghost t: Snapshot)
    requires WellFormed(g) && root in g.cells && forall l :: l in g.cells ==> l < firstFree
    ensures Promised(g, [Ref(root)], WhyNot(r))
    ensures EndsIn(g, [Ref(root)], WhyNot(r), t)
    ensures r.Done? ==> Disjoint(g, Reach(g, [Ref(root)])) && AllHarmless(g, [Ref(root)]) && AllNear(g, [Ref(root)])
    ensures r.Done? ==> forall l :: l in g.cells ==> l in r.value.1 && r.value.1[l] == g.cells[l]
    ensures r.Done? ==> Iso(g, r.value.1, t.seen) && Corr(t.seen, Ref(root), r.value.0)
  {
    hide Inv, Due, Iso, Fits, InputCause, WithinDepth, Reach, Stopped, Cause, Price, CostOf, Total, Grows, Clean, Walk, WalkAll, Disjoint, AllHarmless, AllNear, RimOk;
    ghost var vs := [Ref(root)];
    ReachClosed(g, vs);
    ReachCovers(g, vs);
    var state := new MutableCloneState(g, firstFree, Reach(g, vs));
    ghost var start, cs := state.Now(), Costs(vs);
    SteppedNot(g, Reach(g, vs), start);
    TotalNone(cs);
    TotalNext(cs, 0);
    assert start.seen.Keys == {};
    WalkNone(g, vs, MAX_DEPTH, {});
    WalkNext(g, vs, 0, MAX_DEPTH, {});
    assert Covered(Reach(g, vs), vs[0]);
    var x := state.CloneValue(Ref(root), 0);
    t := state.Now();
    if x.Refused? {
      CauseIsInput(g, vs, 0, start, start, x.why);
      CauseExcludes(g, vs, x.why);
      return Refused(x.why), t;
    }
    assert cs[..1] == cs && vs[..1] == vs && FREE.Plus(cs[0]) == cs[0];
    WalkedWithin(g, vs);
    SteppedOpen(g, Reach(g, vs), start, t, cs[0]);
    FinishedFits(g, vs, [x.value], start, t);
    FitsExactly(g, vs);
    WalkedIsNear(g, vs);
    InvGivesIso(g, t);
    return Done((x.value, state.heap)), t;
  }

  // ----- the client, whose own cache is cloned last -----

  /** A client cell: a struct with its key-set cache at position `k`. */
  predicate IsClient(c: Cell, k: nat) {
    c.Pointee? && c.v.Struct? && k < |c.v.fields| && c.v.fields[k].Cached?
  }

  /** The same cell with the cache seen as an ordinary field. */
  function Promote(c: Cell, k: nat): Cell
    requires IsClient(c, k)
  {
    Pointee(c.v.(fields := c.v.fields[k := Exported(c.v.fields[k].v)]))
  }

  function PromoteAt(cells: map<Loc, Cell>, l: Loc, k: nat): map<Loc, Cell>
    requires l in cells && IsClient(cells[l], k)
  {
    cells[l := Promote(cells[l], k)]
  }

  /** Filling in the cache of the root copy turns "everything corresponds but
      the root cache" into "everything corresponds". */
  lemma PromotedIso(g: Graph, heap: map<Loc, Cell>, m: map<Loc, Loc>, root: Loc, k: nat, x: Val)
    requires Iso(g, heap, m) && root in m && IsClient(g.cells[root], k)
    requires Corr(m, g.cells[root].v.fields[k].v, x)
    ensures IsClient(heap[m[root]], k)
    ensures var copy := WithCache(heap[m[root]], k, x);
            var filled := heap[m[root] := copy];
            IsClient(copy, k) &&
            Iso(g.(cells := PromoteAt(g.cells, root, k)), PromoteAt(filled, m[root], k), m)
  {
    var c := m[root];
    var src, dst := g.cells[root].v, heap[c].v;
    var copy := WithCache(heap[c], k, x);
    var g' := g.(cells := PromoteAt(g.cells, root, k));
    var heap' := PromoteAt(heap[c := copy], c, k);
    forall l | l in m ensures CorrCell(m, g'.cells[l], heap'[m[l]]) {
      if l == root {
        var fs, ds := Promote(g.cells[root], k).v.fields, Promote(copy, k).v.fields;
        forall i | 0 <= i < |fs| ensures CorrField(m, fs[i], ds[i]) {
          assert i != k ==> CorrField(m, src.fields[i], dst.fields[i]);
        }
        FieldsMakeStruct(m, Promote(g.cells[root], k).v, Promote(copy, k).v);
      } else {
        assert m[l] != c;
      }
    }
  }

  lemma FieldsMakeStruct(m: map<Loc, Loc>, v: Val, w: Val)
    requires v.Struct? && w.Struct? && v.size == w.size && CorrFields(m, v.fields, w.fields)
    ensures Corr(m, v, w)
  {
    assert forall i :: 0 <= i < |v.fields| ==> CorrField(m, v.fields[i], w.fields[i]);
  }

  /** `CacheJWKS`. */
  function WithCache(c: Cell, k: nat, x: Val): (d: Cell)
    requires IsClient(c, k)
    ensures IsClient(d, k)
  {
    Pointee(c.v.(fields := c.v.fields[k := Cached(x)]))
  }

  /** What is cloned for a client: the client, and its cached key set if any. */
  function ClientValues(g: Graph, root: Loc, k: nat): seq<Val>
    requires root in g.cells && IsClient(g.cells[root], k)
  {
    var cached := g.cells[root].v.fields[k].v;
    if cached.Null? then [Ref(root)] else [Ref(root), cached]
  }

  /** `cloneHumanConfidentialBFFClient`: clone the client, then its cached key
      set with the same state, and store that copy in the copied client. With
      the root cache read as an ordinary field, source and copy are isomorphic;
      the source is unchanged. */
  method CloneClient(g: Graph, root: Loc, k: nat, firstFree: Loc)
    returns (r: Attempt<(Loc, map<Loc, Cell>)>, ghost t: Snapshot)
    requires WellFormed(g) && root in g.cells && IsClient(g.cells[root], k)
    requires forall l :: l in g.cells ==> l < firstFree
    ensures Promised(g, ClientValues(g, root, k), WhyNot(r))
    ensures EndsIn(g, ClientValues(g, root, k), WhyNot(r), t)
    ensures r.Done? ==> Disjoint(g, Reach(g, ClientValues(g, root, k))) && AllHarmless(g, ClientValues(g, root, k))
    ensures r.Done? ==> AllNear(g, ClientValues(g, root, k))
    ensures r.Done? ==>
              var (copy, heap) := r.value;
              && copy !in g.cells && copy in heap && IsClient(heap[copy], k)
              && (forall l :: l in g.cells ==> l in heap && heap[l] == g.cells[l])
    ensures r.Done? ==>
              var (copy, heap) := r.value;
              && root in t.seen && t.seen[root] == copy
              && Iso(g.(cells := PromoteAt(g.cells, root, k)), PromoteAt(heap, copy, k), t.seen)
  {
    hide Inv, Due, Iso, Fits, InputCause, WithinDepth, Reach, Stopped, Cause, Price, CostOf, Total, Grows, Clean, Walk, WalkAll, Disjoint, AllHarmless, AllNear, RimOk, Stepped, LaidOut, WellFormed, Closed;
    ghost var vs := ClientValues(g, root, k);
    CacheInGraph(g, root, k);
    ReachClosed(g, vs);
    ReachCovers(g, vs);
    var state := new MutableCloneState(g, firstFree, Reach(g, vs));
    ghost var start, cs := state.Now(), Costs(vs);
    SteppedNot(g, Reach(g, vs), start);
    TotalNone(cs);
    TotalNext(cs, 0);
    assert start.seen.Keys == {};
    WalkNone(g, vs, MAX_DEPTH, {});
    WalkNext(g, vs, 0, MAX_DEPTH, {});
    assert Covered(Reach(g, vs), vs[0]);
    var x := state.CloneValue(Ref(root), 0);
    t := state.Now();
    if x.Refused? {
      CauseIsInput(g, vs, 0, start, start, x.why);
      CauseExcludes(g, vs, x.why);
      return Refused(x.why), t;
    }
    ghost var s := t;
    assert FREE.Plus(cs[0]) == cs[0] == Total(cs[..1]);
    SteppedFacts(g, Reach(g, vs), start, s, cs[0]);
    var c := x.value.loc;
    var cached := g.cells[root].v.fields[k].v;
    var y: Attempt<Val> := Done(Null);
    ghost var ws := [x.value];
    if !cached.Null? {
      TotalNext(cs, 1);
      WalkNext(g, vs, 1, MAX_DEPTH, {});
      assert Covered(Reach(g, vs), vs[1]);
      y := state.CloneValue(cached, 0);
      t := state.Now();
      if y.Refused? {
        CauseIsInput(g, vs, 1, start, s, y.why);
        CauseExcludes(g, vs, y.why);
        return Refused(y.why), t;
      }
      SteppedTransitive(g, Reach(g, vs), start, s, t, cs[0], cs[1]);
      SteppedFacts(g, Reach(g, vs), s, t, cs[1]);
      CorrGrows(s.seen, t.seen, Ref(root), x.value);
      ws := ws + [y.value];
    }
    assert cs[..|vs|] == cs && vs[..|vs|] == vs;
    WalkedWithin(g, vs);
    SteppedOpen(g, Reach(g, vs), start, t, Total(cs));
    FinishedFits(g, vs, ws, start, t);
    FitsExactly(g, vs);
    WalkedIsNear(g, vs);
    InvGivesIso(g, t);
    PromotedIso(g, state.heap, state.seen, root, k, y.value);
    CopyOutside(g, state.heap, state.seen, root);
    return Done((c, state.heap[c := WithCache(state.heap[c], k, y.value)])), t;
  }

  lemma SteppedOpen(g: Graph, reach: set<Loc>, s: Snapshot, t: Snapshot, cost: Cost)
    requires LaidOut(g) && reach <= g.cells.Keys && Stepped(g, reach, s, t, cost)
    ensures t.open == s.open && Inv(g, t) && t.seen.Keys <= reach
  {
    hide Inv, Due;
  }

  lemma CopyOutside(g: Graph, heap: map<Loc, Cell>, m: map<Loc, Loc>, l: Loc)
    requires Iso(g, heap, m) && l in m
    ensures m[l] !in g.cells && m[l] in heap
  {
  }

  lemma CacheInGraph(g: Graph, root: Loc, k: nat)
    requires WellFormed(g) && root in g.cells && IsClient(g.cells[root], k)
    ensures InGraph(g, g.cells[root].v.fields[k].v)
  {
    var v := g.cells[root].v;
    assert Contents(g.cells[root])[0] == v;
    assert forall l :: Holds(v.fields[k].v, l) ==> Holds(v, l);
  }
}
