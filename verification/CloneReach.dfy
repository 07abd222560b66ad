/** Which cells can be reached, and which inputs the clone accepts: limits, costs
    and faults of what is reachable, without reference to any run. */
module CloneReach {
  import opened Wrappers
  import opened CloneGraph
  import opened CloneFaults
  import opened CloneCost
  import opened CloneInvariant
  import opened CloneCauses
  import opened CloneDepth
  import opened CloneState

  // ----- access paths -----

  /** Where a path of child positions leads from `v`. */
  function Follow(cells: map<Loc, Cell>, v: Val, path: seq<nat>): Option<Val>
    decreases |path|
  {
    if path == [] then Some(v)
    else if path[0] < |Children(cells, v)| then Follow(cells, Children(cells, v)[path[0]], path[1..])
    else None
  }

  lemma {:induction false} FollowOn(cells: map<Loc, Cell>, v: Val, path: seq<nat>, more: seq<nat>)
    requires Follow(cells, v, path).Some?
    ensures Follow(cells, v, path + more) == Follow(cells, Follow(cells, v, path).value, more)
    decreases |path|
  {
    if path == [] {
      assert path + more == more;
    } else {
      assert (path + more)[1..] == path[1..] + more;
      FollowOn(cells, Children(cells, v)[path[0]], path[1..], more);
    }
  }

  ghost predicate Reached(g: Graph, vs: seq<Val>, l: Loc) {
    exists i, path :: 0 <= i < |vs| && Follow(g.cells, vs[i], path) == Some(Ref(l))
  }

  /** The cells that some path from one of `vs` leads to. */
  ghost function Reach(g: Graph, vs: seq<Val>): (reach: set<Loc>)
    ensures reach <= g.cells.Keys
  {
    set l | l in g.cells && Reached(g, vs, l)
  }

  /** What occurs in a value is at the end of a path. */
  lemma {:induction false} PathTo(cells: map<Loc, Cell>, v: Val, l: Loc) returns (path: seq<nat>)
    requires Leads(v, l)
    ensures Follow(cells, v, path) == Some(Ref(l))
    decreases v
  {
    match v
    case Ref(_) => path := [];
    case Box(c, _) =>
      var rest := PathTo(cells, c, l);
      path := [0] + rest;
      assert path[1..] == rest;
    case Array(es, _) =>
      var i :| 0 <= i < |es| && Leads(es[i], l);
      var rest := PathTo(cells, es[i], l);
      path := [i] + rest;
      assert path[1..] == rest;
    case Struct(fs, _) =>
      var i :| 0 <= i < |fs| && fs[i].Exported? && Leads(fs[i].v, l);
      var rest := PathTo(cells, fs[i].v, l);
      path := [i] + rest;
      assert path[1..] == rest;
  }

  lemma ReachCovers(g: Graph, vs: seq<Val>)
    requires forall i :: 0 <= i < |vs| ==> InGraph(g, vs[i])
    ensures CoveredAll(Reach(g, vs), vs)
  {
    forall i, l | 0 <= i < |vs| && Leads(vs[i], l) ensures l in Reach(g, vs) {
      LeadsHolds(vs[i], l);
      var path := PathTo(g.cells, vs[i], l);
      assert Reached(g, vs, l);
    }
  }

  /** Reachable cells lead to reachable cells. */
  lemma ReachClosed(g: Graph, vs: seq<Val>)
    requires WellFormed(g)
    ensures Closed(g, Reach(g, vs))
  {
    var reach := Reach(g, vs);
    forall l, k, m | l in reach && 0 <= k < |Contents(g.cells[l])| && Leads(Contents(g.cells[l])[k], m) ensures m in reach {
      var c := Contents(g.cells[l])[k];
      assert InGraph(g, c);
      LeadsHolds(c, m);
      var i, path :| 0 <= i < |vs| && Follow(g.cells, vs[i], path) == Some(Ref(l));
      var rest := PathTo(g.cells, c, m);
      FollowOn(g.cells, vs[i], path, [k] + rest);
      assert ([k] + rest)[1..] == rest;
      assert Reached(g, vs, m);
    }
  }

  /** Reach is the least closed set of cells that covers the values. */
  lemma ReachLeast(g: Graph, vs: seq<Val>, cells: set<Loc>)
    requires Closed(g, cells) && CoveredAll(cells, vs)
    ensures Reach(g, vs) <= cells
  {
    forall l | l in Reach(g, vs) ensures l in cells {
      var i, path :| 0 <= i < |vs| && Follow(g.cells, vs[i], path) == Some(Ref(l));
      StaysWithin(g, vs[i], cells, path);
      assert Leads(Ref(l), l);
    }
  }

  lemma {:induction false} StaysWithin(g: Graph, v: Val, cells: set<Loc>, path: seq<nat>)
    requires Closed(g, cells) && Covered(cells, v) && Follow(g.cells, v, path).Some?
    ensures Covered(cells, Follow(g.cells, v, path).value)
    decreases |path|
  {
    if path != [] {
      var c := Children(g.cells, v)[path[0]];
      ChildCovered(g, v, cells, path[0]);
      StaysWithin(g, c, cells, path[1..]);
    }
  }

  lemma ChildCovered(g: Graph, v: Val, cells: set<Loc>, k: nat)
    requires Closed(g, cells) && Covered(cells, v) && k < |Children(g.cells, v)|
    ensures Covered(cells, Children(g.cells, v)[k])
  {
    match v
    case Ref(l) => assert Leads(v, l);
    case Box(c, _) => assert forall l :: Leads(c, l) ==> Leads(v, l);
    case Array(es, _) => assert forall l :: Leads(es[k], l) ==> Leads(v, l);
    case Struct(fs, _) => assert fs[k].Exported? ==> forall l :: Leads(fs[k].v, l) ==> Leads(v, l);
  }

  // ----- what is accepted -----

  /** The cost of cloning `vs`: each value, and each reachable cell once. */
  ghost function Price(g: Graph, vs: seq<Val>): Cost
    requires LaidOut(g)
  {
    Total(Costs(vs)).Plus(Rest(g, Reach(g, vs)))
  }

  /** Within the budgets, no fault within reach, and no overlap. */
  ghost predicate Fits(g: Graph, vs: seq<Val>)
    requires LaidOut(g)
  {
    && Price(g, vs).nodes <= MAX_NODES && Price(g, vs).bytes <= MAX_BYTES
    && (forall i :: 0 <= i < |vs| ==> Clean(vs[i]))
    && (forall l :: l in Reach(g, vs) ==> CleanCell(g, l))
    && !Clash(g, Reach(g, vs))
  }

  /** The walk stays within the depth limit: it enters each cell where it first
      meets it, in the order of fields, elements and map entries. */
  predicate WithinDepth(g: Graph, vs: seq<Val>) {
    WalkAll(g, vs, MAX_DEPTH, {}).Some?
  }

  /** No descent that enters each cell at most once is too deep. */
  ghost predicate Shallow(g: Graph, vs: seq<Val>) {
    forall i :: 0 <= i < |vs| ==> !Deep(g, vs[i], MAX_DEPTH + 1, {})
  }

  /** Whatever the order of the walk, a shallow input is within the depth limit. */
  lemma ShallowIsWithinDepth(g: Graph, vs: seq<Val>)
    requires Shallow(g, vs)
    ensures WithinDepth(g, vs)
  {
    if !WithinDepth(g, vs) {
      var c := WalkAllTooDeep(g, vs, MAX_DEPTH, {});
    }
  }

  /** What in the input makes a refusal right. */
  ghost predicate InputCause(g: Graph, vs: seq<Val>, why: Refusal)
    requires LaidOut(g)
  {
    || (why.NodesSpent? && Price(g, vs).nodes > MAX_NODES)
    || (why.BytesSpent? && Price(g, vs).bytes > MAX_BYTES)
    || (why.OverlappingCell? && Clash(g, Reach(g, vs)))
    || (why.TooDeep? && !WithinDepth(g, vs))
    || (exists i :: 0 <= i < |vs| && Shows(vs[i], why))
    || (exists l :: l in Reach(g, vs) && CellShows(g, l, why))
  }

  /** What is refused does not fit or is too deep. */
  lemma CauseExcludes(g: Graph, vs: seq<Val>, why: Refusal)
    requires LaidOut(g) && InputCause(g, vs, why)
    ensures !Fits(g, vs) || !WithinDepth(g, vs)
  {
    hide WithinDepth;
    if l :| l in Reach(g, vs) && CellShows(g, l, why) {
      CleanCellShowsNothing(g, l);
    }
  }

  /** A cause met while cloning `vs[i]` is in the input. */
  lemma CauseIsInput(g: Graph, vs: seq<Val>, i: nat, start: Snapshot, s: Snapshot, why: Refusal)
    requires LaidOut(g) && i < |vs| && start.nodes == start.bytes == 0 && start.seen == map[]
    requires Stepped(g, Reach(g, vs), start, s, Total(Costs(vs)[..i]))
    requires WalkAll(g, vs[..i], MAX_DEPTH, {}) == Some(s.seen.Keys)
    requires if why.TooDeep? then Walk(g, vs[i], MAX_DEPTH, s.seen.Keys).None? else Cause(g, Reach(g, vs), s, vs[i], why)
    ensures InputCause(g, vs, why)
  {
    hide Inv, Rest, Total, Shows, CellShows, Clash, Reach, Walk, WalkAll;
    var reach, cs := Reach(g, vs), Costs(vs);
    SteppedPaid(g, reach, start, s, Total(cs[..i]));
    TotalNext(cs, i);
    TotalPrefix(cs, i + 1);
    assert reach - start.seen.Keys == reach;
    if why.TooDeep? {
      WalkNext(g, vs, i, MAX_DEPTH, {});
      WalkPrefix(g, vs, i + 1, MAX_DEPTH, {});
    } else if Overdrawn(g, reach, s, cs[i], why) {
      OverdrawnBefore(g, reach, start, s, Total(cs[..i]), cs[i], Total(cs), why);
    }
  }
}
