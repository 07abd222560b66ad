/** Trust chain search in terms of the federation's own data: tokens, claims,
    signatures and endpoints, without the functions that fetch and parse. */
module SearchData {
  import opened Wrappers
  import opened Lists
  import opened Policies
  import opened Statements
  import opened Search
  import opened SearchLaws

  /** Identifier `id` serves the configuration `token` of an authority. */
  predicate Serves(w: World, id: Id, token: Signed) {
    && id in w.configAt && w.configAt[id] == token
    && token in w.claims && token in w.acceptable
    && var c := w.claims[token];
       && (token, c.jwks) in w.verified && c.issuer == c.subject && c.trustAnchor.None?
       && c.authorityHints != Some([]) && c.policy.None? && c.constraints.None? && c.configClaimsOk
       && c.fetchEndpoint.Some?
  }

  /** The authority of configuration `above` vouches with `token` for `subject`. */
  predicate VouchesFor(w: World, above: Claims, subject: Id, token: Signed) {
    && above.fetchEndpoint.Some? && above.fetchEndpoint.value != ""
    && (above.fetchEndpoint.value, subject) in w.subordinateAt
    && w.subordinateAt[(above.fetchEndpoint.value, subject)] == token
    && token in w.claims && token in w.acceptable
    && var c := w.claims[token];
       && (token, above.jwks) in w.verified && c.issuer == above.issuer && c.subject == subject && c.trustAnchor.None?
       && c.authorityHints.None? && c.subordinateClaimsOk
       && (c.policy.Some? ==> ValidPolicy(c.policy.value))
  }

  /** The step from an entity with these claims and this token to `id`: it names
      `id`, which serves a configuration, and whose statement about the entity
      lists keys that verify the entity's own token. */
  predicate CanStep(w: World, below: Claims, belowToken: Signed, id: Id) {
    && below.authorityHints.Some? && id in below.authorityHints.value
    && id in w.configAt && Serves(w, id, w.configAt[id])
    && var above := w.claims[w.configAt[id]];
       && above.fetchEndpoint.Some? && (above.fetchEndpoint.value, below.subject) in w.subordinateAt
       && var token := w.subordinateAt[(above.fetchEndpoint.value, below.subject)];
          && VouchesFor(w, above, below.subject, token)
          && belowToken in w.claims && (belowToken, w.claims[token].jwks) in w.verified
  }

  lemma StepOnData(w: World, entity: Statement, id: Id)
    ensures StepsTo(w, entity, id) <==> CanStep(w, entity.claims, entity.signed, id)
    ensures StepsTo(w, entity, id) ==> FetchAuthority(w, id) == Ok(Statement(w.claims[w.configAt[id]], w.configAt[id]))
  {
    assert FetchAuthority(w, id).Ok? <==> id in w.configAt && Serves(w, id, w.configAt[id]);
    if FetchAuthority(w, id).Ok? {
      var authority := FetchAuthority(w, id).value;
      assert authority == Statement(w.claims[w.configAt[id]], w.configAt[id]);
    }
  }

  /** What stands below step `i` of a path: the entity, or the configuration that
      the identifier before serves. */
  predicate StepOk(w: World, entity: Statement, path: seq<Id>, i: nat)
    requires i < |path|
  {
    if i == 0 then CanStep(w, entity.claims, entity.signed, path[0])
    else
      && path[i - 1] in w.configAt && w.configAt[path[i - 1]] in w.claims
      && CanStep(w, w.claims[w.configAt[path[i - 1]]], w.configAt[path[i - 1]], path[i])
  }

  /** A path of such steps whose last identifier serves a configuration issued by a
      trusted anchor. */
  predicate DataRoute(w: World, entity: Statement, path: seq<Id>) {
    && path != []
    && (forall i :: 0 <= i < |path| ==> StepOk(w, entity, path, i))
    && var last := path[|path| - 1];
       last in w.configAt && w.configAt[last] in w.claims && w.claims[w.configAt[last]].issuer in w.trusted
  }

  /** The routes of the search are exactly these paths. */
  lemma RouteOnData(w: World, entity: Statement, path: seq<Id>)
    ensures Route(w, entity, path) <==> DataRoute(w, entity, path)
  {
    hide CanStep, Route, StepsTo, FetchAuthority;
    RouteIffEveryStep(w, entity, path);
    AuthoritiesOnData(w);
    forall id, e: Statement ensures StepsTo(w, e, id) <==> CanStep(w, e.claims, e.signed, id) { StepOnData(w, e, id); }
    if forall i :: 0 <= i < |path| ==> StepValid(w, entity, path, i) {
      forall i | 0 <= i < |path| ensures StepOk(w, entity, path, i) {
        assert StepValid(w, entity, path, i);
      }
    }
    if forall i :: 0 <= i < |path| ==> StepOk(w, entity, path, i) {
      forall i | 0 <= i < |path| ensures StepValid(w, entity, path, i) && FetchAuthority(w, path[i]).Ok? {
        assert StepOk(w, entity, path, i);
        if i > 0 { assert StepOk(w, entity, path, i - 1); StepServes(w, entity, path, i - 1); }
        StepServes(w, entity, path, i);
      }
    }
  }

  lemma AuthoritiesOnData(w: World)
    ensures forall id :: FetchAuthority(w, id).Ok? <==> id in w.configAt && Serves(w, id, w.configAt[id])
    ensures forall id :: FetchAuthority(w, id).Ok? ==>
              FetchAuthority(w, id).value == Statement(w.claims[w.configAt[id]], w.configAt[id])
  {
  }

  lemma StepServes(w: World, entity: Statement, path: seq<Id>, i: nat)
    requires i < |path| && StepOk(w, entity, path, i)
    ensures path[i] in w.configAt && Serves(w, path[i], w.configAt[path[i]])
  {
  }

  /** The search succeeds exactly when a repeat-free path of such steps, avoiding
      the subject, ends at a trusted anchor, with a depth limit of at least one
      more than the number of entities that can be looked up. */
  lemma CompleteOnData(w: World, entity: Statement)
    requires w.maxDepth >= |w.configAt.Keys - {entity.claims.subject}| + 1
    ensures BuildTrustChain(w, entity).Ok? <==>
            exists path: seq<Id> :: DataRoute(w, entity, path) && NoRepeats(path) && entity.claims.subject !in path
  {
    hide Route, DataRoute, BuildTrustChain;
    BuildTrustChainComplete(w, entity);
    forall path: seq<Id> ensures Route(w, entity, path) <==> DataRoute(w, entity, path) { RouteOnData(w, entity, path); }
    if path: seq<Id> :| Route(w, entity, path) && Fresh(path, {entity.claims.subject}) {
      assert DataRoute(w, entity, path) && NoRepeats(path) && entity.claims.subject !in path;
    }
    if path: seq<Id> :| DataRoute(w, entity, path) && NoRepeats(path) && entity.claims.subject !in path {
      assert Route(w, entity, path) && Fresh(path, {entity.claims.subject});
    }
  }

  /** Every chain that is found is read from the federation's data along such a
      path: statement `i` is what the authority there returns about the entity
      below, and the last one is the anchor's configuration. */
  lemma FoundOnData(w: World, entity: Statement) returns (path: seq<Id>)
    requires BuildTrustChain(w, entity).Ok?
    ensures DataRoute(w, entity, path) && NoRepeats(path) && entity.claims.subject !in path
    ensures var chain := BuildTrustChain(w, entity).value;
            && |chain| == |path| + 2 && chain[0] == entity
            && (forall i :: 0 < i < |chain| ==> Stands(w, chain[i]))
            && (forall i :: 0 <= i < |path| ==>
                  path[i] in w.configAt && w.configAt[path[i]] in w.claims &&
                  VouchesFor(w, w.claims[w.configAt[path[i]]], chain[i + 1].claims.subject, chain[i + 1].signed))
            && chain[|chain| - 1].signed == w.configAt[path[|path| - 1]]
  {
    hide BuildTrustChain, DataRoute, Route, FetchAuthority, Stands, VouchesFor;
    path := BuildTrustChainSound(w, entity);
    RouteOnData(w, entity, path);
    var chain := BuildTrustChain(w, entity).value;
    FoundAnchor(w, entity, path);
    forall i | 0 <= i < |path|
      ensures Stands(w, chain[i + 1]) && path[i] in w.configAt && w.configAt[path[i]] in w.claims
      ensures VouchesFor(w, w.claims[w.configAt[path[i]]], chain[i + 1].claims.subject, chain[i + 1].signed)
    {
      FoundStatement(w, entity, path, i);
    }
    forall i | 0 < i < |chain| ensures Stands(w, chain[i]) {
      if i <= |path| { FoundStatement(w, entity, path, i - 1); }
    }
  }

  lemma FoundAnchor(w: World, entity: Statement, path: seq<Id>)
    requires Route(w, entity, path)
    ensures var anchor := RouteChain(w, entity, path)[|path|];
            Stands(w, anchor) && path[|path| - 1] in w.configAt && anchor.signed == w.configAt[path[|path| - 1]]
  {
    RouteChainLinked(w, entity, path, |path| - 1);
  }

  lemma {:induction false} FoundStatement(w: World, entity: Statement, path: seq<Id>, i: nat)
    requires Route(w, entity, path) && i < |path|
    ensures var s := RouteChain(w, entity, path)[i];
            && Stands(w, s) && path[i] in w.configAt && w.configAt[path[i]] in w.claims
            && VouchesFor(w, w.claims[w.configAt[path[i]]], s.claims.subject, s.signed)
    decreases |path|
  {
    if i > 0 {
      FoundStatement(w, FetchAuthority(w, path[0]).value, path[1..], i - 1);
    }
  }
}
