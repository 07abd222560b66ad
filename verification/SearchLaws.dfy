/** Soundness and completeness of the trust chain search. */
module SearchLaws {
  import opened Wrappers
  import opened Lists
  import opened Statements
  import opened Search

  // ----- routes, step by step -----

  /** The entity below step `i` of a path. */
  function Below(w: World, entity: Statement, path: seq<Id>, i: nat): Result<Statement>
    requires i < |path|
  {
    if i == 0 then Ok(entity) else FetchAuthority(w, path[i - 1])
  }

  predicate StepValid(w: World, entity: Statement, path: seq<Id>, i: nat)
    requires i < |path|
  {
    Below(w, entity, path, i).Ok? && StepsTo(w, Below(w, entity, path, i).value, path[i])
  }

  /** A route is a non-empty path whose every step is valid and whose last
      authority is trusted. */
  lemma {:induction false} RouteIffEveryStep(w: World, entity: Statement, path: seq<Id>)
    ensures Route(w, entity, path) <==>
            && path != []
            && (forall i :: 0 <= i < |path| ==> StepValid(w, entity, path, i))
            && var last := FetchAuthority(w, path[|path| - 1]);
               last.Ok? && Trusted(w, last.value)
    decreases |path|
  {
    if |path| > 1 && StepsTo(w, entity, path[0]) {
      var authority := FetchAuthority(w, path[0]).value;
      var tail := path[1..];
      RouteIffEveryStep(w, authority, tail);
      assert forall i :: 1 <= i < |path| ==> Below(w, entity, path, i) == Below(w, authority, tail, i - 1);
      assert forall i :: 0 <= i < |tail| ==> tail[i] == path[i + 1];
      assert StepValid(w, entity, path, 0);
      if forall i :: 0 <= i < |tail| ==> StepValid(w, authority, tail, i) {
        forall i | 0 <= i < |path| ensures StepValid(w, entity, path, i) {
          if i > 0 { assert StepValid(w, authority, tail, i - 1); }
        }
      } else {
        var i :| 0 <= i < |tail| && !StepValid(w, authority, tail, i);
        assert !StepValid(w, entity, path, i + 1);
      }
    } else if |path| > 0 && !StepsTo(w, entity, path[0]) {
      assert !StepValid(w, entity, path, 0);
    }
  }

  lemma RouteCons(w: World, entity: Statement, id: Id, tail: seq<Id>)
    requires StepsTo(w, entity, id)
    requires if tail == [] then Trusted(w, FetchAuthority(w, id).value) else Route(w, FetchAuthority(w, id).value, tail)
    ensures Route(w, entity, [id] + tail)
  {
    assert ([id] + tail)[1..] == tail;
  }

  /** A repeat-free route uses at most the identifiers that can be looked up. */
  lemma RouteLength(w: World, entity: Statement, path: seq<Id>, visited: set<Id>)
    requires Route(w, entity, path) && Fresh(path, visited)
    ensures |path| <= |w.configAt.Keys - visited|
  {
    RouteIffEveryStep(w, entity, path);
    forall id | id in path ensures id in w.configAt.Keys - visited {
      var i :| 0 <= i < |path| && path[i] == id;
      assert StepValid(w, entity, path, i);
    }
    MembersCount(path);
    SubsetCount(Members(path), w.configAt.Keys - visited);
  }

  // ----- soundness -----

  /** What the walk returns is the chain of a fresh route that ends at the first
      trusted authority and respects the depth limit. */
  predicate Explains(w: World, entity: Statement, visited: set<Id>, path: seq<Id>, chain: seq<Statement>) {
    && Route(w, entity, path)
    && Fresh(path, visited)
    && FirstAnchor(w, path)
    && chain == RouteChain(w, entity, path)
    && (|path| == 1 || |chain| <= w.maxDepth)
  }

  lemma {:induction false} FromConfigSound(w: World, entity: Statement, visited: set<Id>) returns (path: seq<Id>)
    requires FromConfig(w, entity, visited).Ok?
    ensures Explains(w, entity, visited, path, FromConfig(w, entity, visited).value)
    decreases |w.configAt.Keys - visited|, 2, 0
  {
    path := TryHintsSound(w, entity, entity.claims.authorityHints.value, visited);
  }

  lemma {:induction false} TryHintsSound(w: World, entity: Statement, hints: seq<Id>, visited: set<Id>) returns (path: seq<Id>)
    requires entity.claims.authorityHints.Some?
    requires forall h :: h in hints ==> h in entity.claims.authorityHints.value
    requires TryHints(w, entity, hints, visited).Ok?
    ensures Explains(w, entity, visited, path, TryHints(w, entity, hints, visited).value)
    decreases |w.configAt.Keys - visited|, 1, |hints|
  {
    if TryHint(w, entity, hints[0], visited).Ok? {
      path := TryHintSound(w, entity, hints[0], visited);
    } else {
      path := TryHintsSound(w, entity, hints[1..], visited);
    }
  }

  lemma {:induction false} TryHintSound(w: World, entity: Statement, hint: Id, visited: set<Id>) returns (path: seq<Id>)
    requires entity.claims.authorityHints.Some? && hint in entity.claims.authorityHints.value
    requires TryHint(w, entity, hint, visited).Ok?
    ensures Explains(w, entity, visited, path, TryHint(w, entity, hint, visited).value)
    decreases |w.configAt.Keys - visited|, 0, 0
  {
    var authority := FetchAuthority(w, hint).value;
    Remaining(w, visited, hint);
    if Trusted(w, authority) {
      path := [hint];
    } else {
      var tail := FromConfigSound(w, authority, visited + {hint});
      path := [hint] + tail;
      assert path[1..] == tail;
      FreshCons(hint, tail, visited);
      assert forall i :: 1 <= i < |path| ==> path[i] == tail[i - 1];
    }
  }

  lemma FreshCons(id: Id, tail: seq<Id>, visited: set<Id>)
    requires id !in visited
    ensures Fresh([id] + tail, visited) <==> Fresh(tail, visited + {id})
  {
    var path := [id] + tail;
    assert forall i :: 0 <= i < |tail| ==> path[i + 1] == tail[i];
    if Fresh(tail, visited + {id}) {
      assert forall j :: 0 < j < |path| ==> path[j] == tail[j - 1] && path[j] in tail;
    }
    if Fresh(path, visited) {
      forall x | x in tail ensures x !in visited + {id} {
        var j :| 0 <= j < |tail| && tail[j] == x;
        assert path[j + 1] == x && path[0] == id;
      }
      assert NoRepeats(tail);
    }
  }

  /** Every chain the search returns is the chain of a route, all of whose
      followed identifiers differ from each other and from the subject; it ends
      at the first trusted authority; and it has length 3 or at most one more
      than the depth limit. */
  lemma BuildTrustChainSound(w: World, entity: Statement) returns (path: seq<Id>)
    requires BuildTrustChain(w, entity).Ok?
    ensures var chain := BuildTrustChain(w, entity).value;
            && Route(w, entity, path)
            && Fresh(path, {entity.claims.subject})
            && FirstAnchor(w, path)
            && chain == [entity] + RouteChain(w, entity, path)
            && (|chain| == 3 || |chain| <= w.maxDepth + 1)
  {
    path := FromConfigSound(w, entity, {entity.claims.subject});
  }

  /** The statement at position `i + 1` of a route's chain: about the entity
      below, issued by the authority above, verified with that authority's
      keys, and vouching for the keys that signed the entity's configuration. */
  predicate LinkedAt(w: World, below: Statement, sub: Statement, authority: Statement) {
    && sub.claims.subject == below.claims.subject
    && sub.claims.issuer == authority.claims.issuer
    && (sub.signed, authority.claims.jwks) in w.verified
    && (below.signed, sub.claims.jwks) in w.verified
    && authority.claims.issuer == authority.claims.subject
    && (authority.signed, authority.claims.jwks) in w.verified
    && sub.claims.authorityHints.None?
    && Stands(w, sub) && Stands(w, authority)
  }

  /** The statement says what its token says, and the token is acceptable. */
  predicate Stands(w: World, s: Statement) {
    s.signed in w.claims && w.claims[s.signed] == s.claims && s.signed in w.acceptable && s.claims.trustAnchor.None?
  }

  lemma {:induction false} RouteChainLinked(w: World, entity: Statement, path: seq<Id>, i: nat)
    requires Route(w, entity, path) && i < |path|
    ensures Below(w, entity, path, i).Ok? && FetchAuthority(w, path[i]).Ok?
    ensures var chain := RouteChain(w, entity, path);
            && LinkedAt(w, Below(w, entity, path, i).value, chain[i], FetchAuthority(w, path[i]).value)
            && (i == |path| - 1 ==>
                  chain[i + 1] == FetchAuthority(w, path[i]).value && Trusted(w, chain[i + 1]))
    decreases |path|
  {
    if i > 0 {
      var authority := FetchAuthority(w, path[0]).value;
      RouteChainLinked(w, authority, path[1..], i - 1);
    }
  }

  // ----- completeness -----

  /** With a depth limit above the number of identifiers that can still be
      looked up, the walk finds a chain whenever a fresh route exists. */
  lemma {:induction false} FromConfigComplete(w: World, entity: Statement, visited: set<Id>, path: seq<Id>)
    requires Route(w, entity, path) && Fresh(path, visited)
    requires w.maxDepth >= |w.configAt.Keys - visited| + 1
    ensures FromConfig(w, entity, visited).Ok?
    decreases |path|, 1
  {
    var hints := entity.claims.authorityHints.value;
    var k :| 0 <= k < |hints| && hints[k] == path[0];
    TryHintComplete(w, entity, visited, path);
    TryHintsReaches(w, entity, hints, visited, k);
  }

  lemma {:induction false} TryHintsReaches(w: World, entity: Statement, hints: seq<Id>, visited: set<Id>, k: nat)
    requires k < |hints| && TryHint(w, entity, hints[k], visited).Ok?
    ensures TryHints(w, entity, hints, visited).Ok?
    decreases k
  {
    if k > 0 {
      TryHintsReaches(w, entity, hints[1..], visited, k - 1);
    }
  }

  lemma {:induction false} TryHintComplete(w: World, entity: Statement, visited: set<Id>, path: seq<Id>)
    requires Route(w, entity, path) && Fresh(path, visited)
    requires w.maxDepth >= |w.configAt.Keys - visited| + 1
    ensures TryHint(w, entity, path[0], visited).Ok?
    decreases |path|, 0
  {
    var hint := path[0];
    assert hint in path;
    var authority := FetchAuthority(w, hint).value;
    var visited' := visited + {hint};
    Remaining(w, visited, hint);
    if !Trusted(w, authority) {
      assert path == [hint] + path[1..];
      FreshCons(hint, path[1..], visited);
      FromConfigComplete(w, authority, visited', path[1..]);
      var found := FromConfigSound(w, authority, visited');
      RouteLength(w, authority, found, visited');
    }
  }

  /** The search succeeds exactly when some repeat-free route avoiding the
      subject reaches a trusted anchor, given a depth limit of at least one
      more than the number of entities that can be looked up. */
  lemma BuildTrustChainComplete(w: World, entity: Statement)
    requires w.maxDepth >= |w.configAt.Keys - {entity.claims.subject}| + 1
    ensures BuildTrustChain(w, entity).Ok? <==>
            exists path :: Route(w, entity, path) && Fresh(path, {entity.claims.subject})
  {
    if BuildTrustChain(w, entity).Ok? {
      var path := BuildTrustChainSound(w, entity);
    }
    if path :| Route(w, entity, path) && Fresh(path, {entity.claims.subject}) {
      FromConfigComplete(w, entity, {entity.claims.subject}, path);
    }
  }
}
