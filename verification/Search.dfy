/** Trust chain search: the backtracking walk over authority hints, and what a
    route through the federation is, independently of the walk. */
module Search {
  import opened Wrappers
  import opened Lists
  import opened Statements

  /** The subordinate statement that ties an entity to an authority: fetched
      from the authority, and vouching for the keys of the entity's own
      configuration. */
  function Link(w: World, entity: Statement, authority: Statement): Result<Statement> {
    var sub :- FetchSubordinate(w, entity.claims.subject, authority);
    if entity.signed in w.claims && (entity.signed, sub.claims.jwks) in w.verified then Ok(sub) else Err
  }

  predicate Trusted(w: World, authority: Statement) {
    authority.claims.issuer in w.trusted
  }

  // ----- the walk -----

  function Branch(w: World, entity: Statement, authority: Statement, visited: set<Id>): Result<seq<Statement>>
    decreases |w.configAt.Keys - visited|, 3, 0
  {
    var sub :- Link(w, entity, authority);
    if Trusted(w, authority) then Ok([sub, authority])
    else
      var rest :- FromConfig(w, authority, visited);
      if 1 + |rest| > w.maxDepth then Err else Ok([sub] + rest)
  }

  function FromConfig(w: World, entity: Statement, visited: set<Id>): Result<seq<Statement>>
    decreases |w.configAt.Keys - visited|, 2, 0
  {
    if entity.claims.authorityHints.None? then Err
    else TryHints(w, entity, entity.claims.authorityHints.value, visited)
  }

  function TryHints(w: World, entity: Statement, hints: seq<Id>, visited: set<Id>): Result<seq<Statement>>
    decreases |w.configAt.Keys - visited|, 1, |hints|
  {
    if hints == [] then Err
    else
      var first := TryHint(w, entity, hints[0], visited);
      if first.Ok? then first else TryHints(w, entity, hints[1..], visited)
  }

  function TryHint(w: World, entity: Statement, hint: Id, visited: set<Id>): Result<seq<Statement>>
    decreases |w.configAt.Keys - visited|, 0, 0
  {
    if hint in visited then Err
    else
      var authority :- FetchAuthority(w, hint);
      Remaining(w, visited, hint);
      Branch(w, entity, authority, visited + {hint})
  }

  /** The termination measure: identifiers not yet on the path. */
  lemma Remaining(w: World, visited: set<Id>, id: Id)
    requires id in w.configAt && id !in visited
    ensures |w.configAt.Keys - (visited + {id})| == |w.configAt.Keys - visited| - 1
  {
    assert w.configAt.Keys - visited == (w.configAt.Keys - (visited + {id})) + {id};
  }

  function BuildTrustChain(w: World, entity: Statement): Result<seq<Statement>> {
    var chain :- FromConfig(w, entity, {entity.claims.subject});
    Ok([entity] + chain)
  }

  // ----- the loop over hints, with the per-branch copy of the visited set -----

  method BuildFromConfig(w: World, entity: Statement, entityMap: set<Id>) returns (r: Result<seq<Statement>>)
    ensures r == FromConfig(w, entity, entityMap)
    decreases |w.configAt.Keys - entityMap|, 0
  {
    if entity.claims.authorityHints.None? {
      return Err;
    }
    var hints := entity.claims.authorityHints.value;
    for i := 0 to |hints|
      invariant FromConfig(w, entity, entityMap) == TryHints(w, entity, hints[i..], entityMap)
    {
      var branchMap := entityMap;
      if hints[i] in branchMap {
        continue;
      }
      branchMap := branchMap + {hints[i]};
      var authority := FetchAuthority(w, hints[i]);
      if authority.Err? {
        continue;
      }
      Remaining(w, entityMap, hints[i]);
      var chain := BuildBranch(w, entity, authority.value, branchMap);
      if chain.Ok? {
        return chain;
      }
    }
    return Err;
  }

  method BuildBranch(w: World, entity: Statement, authority: Statement, entityMap: set<Id>) returns (r: Result<seq<Statement>>)
    ensures r == Branch(w, entity, authority, entityMap)
    decreases |w.configAt.Keys - entityMap|, 1
  {
    var sub := Link(w, entity, authority);
    if sub.Err? {
      return Err;
    }
    if Trusted(w, authority) {
      return Ok([sub.value, authority]);
    }
    var chain := BuildFromConfig(w, authority, entityMap);
    if chain.Err? {
      return Err;
    }
    var longer := [sub.value] + chain.value;
    if |longer| > w.maxDepth {
      return Err;
    }
    return Ok(longer);
  }

  // ----- routes -----

  predicate StepsTo(w: World, entity: Statement, id: Id) {
    && entity.claims.authorityHints.Some? && id in entity.claims.authorityHints.value
    && FetchAuthority(w, id).Ok?
    && Link(w, entity, FetchAuthority(w, id).value).Ok?
  }

  /** Identifiers followed from hint to hint over valid links, ending in a trusted anchor. */
  predicate Route(w: World, entity: Statement, path: seq<Id>)
    decreases |path|
  {
    && path != []
    && StepsTo(w, entity, path[0])
    && var authority := FetchAuthority(w, path[0]).value;
       if |path| == 1 then Trusted(w, authority) else Route(w, authority, path[1..])
  }

  predicate Fresh(path: seq<Id>, visited: set<Id>) {
    NoRepeats(path) && forall id :: id in path ==> id !in visited
  }

  /** The statements a route stands for: one subordinate statement per step and
      the configuration of the anchor. */
  function RouteChain(w: World, entity: Statement, path: seq<Id>): (chain: seq<Statement>)
    requires Route(w, entity, path)
    ensures |chain| == |path| + 1
    decreases |path|
  {
    var authority := FetchAuthority(w, path[0]).value;
    [Link(w, entity, authority).value] +
    (if |path| == 1 then [authority] else RouteChain(w, authority, path[1..]))
  }

  /** No authority before the last one is trusted. */
  predicate FirstAnchor(w: World, path: seq<Id>) {
    forall i :: 0 <= i < |path| - 1 ==>
      FetchAuthority(w, path[i]).Ok? && !Trusted(w, FetchAuthority(w, path[i]).value)
  }
}
