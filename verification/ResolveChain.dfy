/** Resolving a trust chain: constraints, the policy folded from the anchor
    down, and the final metadata of the subject. */
module ResolveChain {
  import opened Wrappers
  import opened Operators
  import opened Policies
  import opened MergeOrder
  import opened PolicyLaws
  import opened Statements
  import opened Search
  import opened SearchLaws

  function SubordinateStatements(chain: seq<Statement>): seq<Statement>
    requires |chain| >= 2
  {
    chain[1..|chain| - 1]
  }

  // ----- metadata override and entity types -----

  /** Values set by the immediate superior replace the subject's own; a section
      the subject does not have is not created. */
  function OverrideSection(sub: Option<Record>, own: Option<Record>): Option<Record> {
    if own.None? || sub.None? then own
    else Some(map f | f in own.value.Keys + sub.value.Keys ::
                if ValueAt(sub.value, f) != Absent then ValueAt(sub.value, f) else ValueAt(own.value, f))
  }

  function Override(sub: Metadata, own: Metadata): Metadata {
    Metadata(OverrideSection(sub.provider, own.provider), OverrideSection(sub.client, own.client))
  }

  function KeepAllowed(c: Option<Constraints>, m: Metadata): Metadata {
    if c.None? || c.value.allowedTypes.None? then m
    else Metadata(
      if "openid_provider" in c.value.allowedTypes.value then m.provider else None,
      if "openid_relying_party" in c.value.allowedTypes.value then m.client else None)
  }

  // ----- constraints -----

  predicate NameAllowed(w: World, n: Naming, id: Id) {
    && (n.permitted.Some? ==> exists k :: 0 <= k < |n.permitted.value| && (id, n.permitted.value[k]) in w.named)
    && !exists k :: 0 <= k < |n.excluded| && (id, n.excluded[k]) in w.named
  }

  /** The constraints of the statement at distance `i` from the subject: no more
      than `max_path_length` entities in between, and every entity from here
      down to the subject allowed by name. */
  predicate ConstraintsHold(w: World, subs: seq<Statement>, i: nat)
    requires i < |subs|
  {
    var c := subs[i].claims.constraints;
    c.Some? ==>
      && (c.value.maxPathLength.Some? ==> i <= c.value.maxPathLength.value)
      && (c.value.naming.Some? ==> forall j :: 0 <= j <= i ==> NameAllowed(w, c.value.naming.value, subs[j].claims.subject))
  }

  // ----- policy and expiry, from the anchor down to statement `i` -----

  function FoldDown(subs: seq<Statement>, i: nat): Result<Policy>
    requires i <= |subs|
    decreases |subs| - i
  {
    if i == |subs| then Ok(NO_POLICY)
    else
      var above :- FoldDown(subs, i + 1);
      if subs[i].claims.policy.None? then Ok(above)
      else
        var merged :- MergePolicy(above, subs[i].claims.policy.value);
        if ValidPolicy(merged) then Ok(merged) else Err
  }

  function Earliest(own: int, subs: seq<Statement>, i: nat): int
    requires i <= |subs|
    decreases |subs| - i
  {
    if i == |subs| then own
    else
      var later := Earliest(own, subs, i + 1);
      if subs[i].claims.expiresAt < later then subs[i].claims.expiresAt else later
  }

  /** `trustChain.resolve`, which needs a second statement. */
  function Resolve(w: World, chain: seq<Statement>): Result<Statement> {
    if |chain| < 2 then Err
    else
      var own, first, subs := chain[0].claims, chain[1].claims, SubordinateStatements(chain);
      if !forall i :: 0 <= i < |subs| ==> ConstraintsHold(w, subs, i) then Err
      else
        var policy :- FoldDown(subs, 0);
        var metadata :- ApplyPolicy(policy, KeepAllowed(first.constraints, Override(first.metadata, own.metadata)));
        Ok(chain[0].(claims := own.(
          metadata := metadata,
          expiresAt := Earliest(own.expiresAt, subs, 0),
          trustAnchor := Some(chain[|chain| - 1].claims.issuer))))
  }

  // ----- the loop -----

  method CheckNames(w: World, naming: Naming, subs: seq<Statement>, i: nat) returns (ok: bool)
    requires i < |subs|
    ensures ok <==> forall j :: 0 <= j <= i ==> NameAllowed(w, naming, subs[j].claims.subject)
  {
    for j := 0 to i + 1
      invariant forall n :: 0 <= n < j ==> NameAllowed(w, naming, subs[n].claims.subject)
    {
      if !NameAllowed(w, naming, subs[j].claims.subject) {
        return false;
      }
    }
    return true;
  }

  method CheckConstraints(w: World, subs: seq<Statement>, i: nat) returns (ok: bool)
    requires i < |subs|
    ensures ok <==> ConstraintsHold(w, subs, i)
  {
    var c := subs[i].claims.constraints;
    if c.None? {
      return true;
    }
    if c.value.maxPathLength.Some? && i > c.value.maxPathLength.value {
      return false;
    }
    if c.value.naming.Some? {
      ok := CheckNames(w, c.value.naming.value, subs, i);
      return;
    }
    return true;
  }

  /** Merging the policy of statement `i` panics: the constraints hold from there
      up, and the policies above it have been merged. */
  predicate PanicsAt(w: World, order: FieldOrder, subs: seq<Statement>, i: nat)
    requires i < |subs|
  {
    && (forall j :: i <= j < |subs| ==> ConstraintsHold(w, subs, j))
    && FoldDown(subs, i + 1).Ok? && subs[i].claims.policy.Some?
    && PolicyPanics(order, FoldDown(subs, i + 1).value, subs[i].claims.policy.value)
  }

  predicate ResolvePanics(w: World, order: FieldOrder, chain: seq<Statement>) {
    |chain| < 2 || exists i :: 0 <= i < |SubordinateStatements(chain)| && PanicsAt(w, order, SubordinateStatements(chain), i)
  }

  /** `trustChain.resolve`: it panics exactly on a chain without a second
      statement and where merging a policy panics; otherwise it returns what the
      declarative resolution says. */
  method ResolveTrustChain(w: World, order: FieldOrder, chain: seq<Statement>) returns (r: Outcome<Statement>)
    requires forall i :: 0 <= i < |chain| && chain[i].claims.policy.Some? ==> CoversPolicy(order, chain[i].claims.policy.value)
    ensures r.Panicked? <==> ResolvePanics(w, order, chain)
    ensures r.Returned? ==> r.result == Resolve(w, chain)
  {
    hide PolicyPanics, ConstraintsHold, MergePolicy, ApplyPolicy, ValidPolicy, CoversPolicy;
    if |chain| < 2 {
      return Panicked;
    }
    var own, first := chain[0].claims, chain[1].claims;
    var config := own.(metadata := Override(first.metadata, own.metadata));
    var policy := NO_POLICY;
    NothingToCover(order);
    var subs := SubordinateStatements(chain);
    for i := |subs| downto 0
      invariant forall j :: i <= j < |subs| ==> ConstraintsHold(w, subs, j)
      invariant FoldDown(subs, i) == Ok(policy) && CoversPolicy(order, policy)
      invariant forall j :: i <= j < |subs| ==> !PanicsAt(w, order, subs, j)
      invariant config == own.(metadata := Override(first.metadata, own.metadata),
                               expiresAt := Earliest(own.expiresAt, subs, i))
    {
      if subs[i].claims.expiresAt < config.expiresAt {
        config := config.(expiresAt := subs[i].claims.expiresAt);
      }
      var holds := CheckConstraints(w, subs, i);
      if !holds {
        return Returned(Err);
      }
      if subs[i].claims.policy.None? {
        continue;
      }
      assert subs[i] == chain[i + 1];
      var merged := MergePolicies(order, policy, subs[i].claims.policy.value);
      if merged.Panicked? {
        assert PanicsAt(w, order, subs, i);
        return Panicked;
      }
      if merged.result.Err? || !ValidPolicy(merged.result.value) {
        NoPanicBelow(w, order, subs, i);
        return Returned(Err);
      }
      policy := merged.result.value;
    }
    config := config.(metadata := KeepAllowed(first.constraints, config.metadata),
                      trustAnchor := Some(chain[|chain| - 1].claims.issuer));
    var metadata := ApplyPolicy(policy, config.metadata);
    if metadata.Err? {
      return Returned(Err);
    }
    return Returned(Ok(chain[0].(claims := config.(metadata := metadata.value))));
  }

  lemma NothingToCover(order: FieldOrder)
    ensures CoversPolicy(order, NO_POLICY)
  {
  }

  /** Once a fold has failed, nothing below it is merged. */
  lemma NoPanicBelow(w: World, order: FieldOrder, subs: seq<Statement>, i: nat)
    requires i < |subs| && FoldDown(subs, i).Err?
    ensures FoldDown(subs, 0).Err? && forall j :: 0 <= j < i ==> !PanicsAt(w, order, subs, j)
  {
    hide ConstraintsHold, PolicyPanics, MergePolicy, ValidPolicy;
    FoldDownFails(subs, i, 0);
    forall j | 0 <= j < i ensures !PanicsAt(w, order, subs, j) {
      FoldDownFails(subs, i, j + 1);
    }
  }

  /** Where resolution panics there is no resolution. */
  lemma ResolvePanicFails(w: World, order: FieldOrder, chain: seq<Statement>)
    requires ResolvePanics(w, order, chain)
    ensures Resolve(w, chain).Err?
  {
    if |chain| >= 2 {
      var subs := SubordinateStatements(chain);
      var i :| 0 <= i < |subs| && PanicsAt(w, order, subs, i);
      PolicyPanicFails(order, FoldDown(subs, i + 1).value, subs[i].claims.policy.value);
      FoldDownFails(subs, i, 0);
    }
  }

  lemma {:induction false} FoldDownFails(subs: seq<Statement>, i: nat, j: nat)
    requires j <= i <= |subs| && FoldDown(subs, i).Err?
    ensures FoldDown(subs, j).Err?
    decreases i - j
  {
    if j < i {
      FoldDownFails(subs, i, j + 1);
    }
  }

  // ----- what a resolved chain guarantees -----

  function PoliciesDown(subs: seq<Statement>, i: nat): seq<Policy>
    requires i <= |subs|
    decreases |subs| - i
  {
    if i == |subs| then []
    else PoliciesDown(subs, i + 1) + (if subs[i].claims.policy.Some? then [subs[i].claims.policy.value] else [])
  }

  lemma FoldSnoc(ps: seq<Policy>, p: Policy)
    ensures Fold(ps + [p]) == MergeResults(Fold(ps), Ok(p))
  {
    assert (ps + [p])[..|ps|] == ps;
  }

  lemma {:induction false} FoldDownIsFold(subs: seq<Statement>, i: nat)
    requires i <= |subs| && FoldDown(subs, i).Ok?
    ensures Fold(PoliciesDown(subs, i)) == FoldDown(subs, i)
    decreases |subs| - i
  {
    if i < |subs| {
      FoldDownIsFold(subs, i + 1);
      if subs[i].claims.policy.Some? {
        FoldSnoc(PoliciesDown(subs, i + 1), subs[i].claims.policy.value);
      } else {
        assert PoliciesDown(subs, i) == PoliciesDown(subs, i + 1);
      }
    }
  }

  lemma {:induction false} FoldDownValid(subs: seq<Statement>, i: nat)
    requires i <= |subs| && FoldDown(subs, i).Ok?
    ensures ValidPolicy(FoldDown(subs, i).value)
    decreases |subs| - i
  {
    if i < |subs| && subs[i].claims.policy.None? {
      FoldDownValid(subs, i + 1);
    }
  }

  /** Where the policy of statement `j` stands among the policies from the top. */
  lemma {:induction false} PoliciesDownHas(subs: seq<Statement>, i: nat, j: nat) returns (n: nat)
    requires i <= j < |subs| && subs[j].claims.policy.Some?
    ensures n == |PoliciesDown(subs, j + 1)|
    ensures n < |PoliciesDown(subs, i)| && PoliciesDown(subs, i)[n] == subs[j].claims.policy.value
    decreases j - i
  {
    n := |PoliciesDown(subs, j + 1)|;
    if i < j {
      n := PoliciesDownHas(subs, i + 1, j);
    }
  }

  /** Statement `j` above the subject carries policy `p`. */
  predicate Carries(chain: seq<Statement>, j: nat, p: Policy) {
    |chain| >= 2 && j < |SubordinateStatements(chain)| && SubordinateStatements(chain)[j].claims.policy == Some(p)
  }

  /** No statement above `j` has a policy. */
  predicate Topmost(chain: seq<Statement>, j: nat)
    requires |chain| >= 2
  {
    forall i :: j < i < |SubordinateStatements(chain)| ==> SubordinateStatements(chain)[i].claims.policy.None?
  }

  /** However long the chain and whatever the other policies on it, the resolved
      metadata respects a policy in every field where that policy's own `value`
      list has no repeats; the topmost policy is respected in every field. */
  lemma ResolvedRespectsField(w: World, chain: seq<Statement>, j: nat, p: Policy, side: Side, f: Field)
    requires Resolve(w, chain).Ok? && Carries(chain, j, p)
    requires PlainAt(p, side, f) || Topmost(chain, j)
    ensures FieldRespected(p, Resolve(w, chain).value.claims.metadata, side, f)
  {
    var subs := SubordinateStatements(chain);
    var first := chain[1].claims;
    var policy := FoldDown(subs, 0).value;
    var before := KeepAllowed(first.constraints, Override(first.metadata, chain[0].claims.metadata));
    FoldDownIsFold(subs, 0);
    FoldDownValid(subs, 0);
    ApplyPolicySatisfies(policy, before);
    PolicySatisfiedByField(policy, ApplyPolicy(policy, before).value);
    var n := PoliciesDownHas(subs, 0, j);
    if Topmost(chain, j) {
      NoPoliciesAbove(subs, j + 1);
    }
    FoldTightens(PoliciesDown(subs, 0), ApplyPolicy(policy, before).value, n, side, f);
  }

  lemma {:induction false} NoPoliciesAbove(subs: seq<Statement>, i: nat)
    requires i <= |subs| && forall k :: i <= k < |subs| ==> subs[k].claims.policy.None?
    ensures PoliciesDown(subs, i) == []
    decreases |subs| - i
  {
    if i < |subs| {
      NoPoliciesAbove(subs, i + 1);
    }
  }

  /** Resolved metadata satisfies every policy on the chain that is free of
      repeats, whoever else is on it: no authority can loosen what another one
      imposes. */
  lemma ResolvedSatisfiesEveryPolicy(w: World, chain: seq<Statement>, j: nat, p: Policy)
    requires Resolve(w, chain).Ok? && Carries(chain, j, p)
    requires PlainValues(p) || Topmost(chain, j)
    ensures PolicySatisfied(p, Resolve(w, chain).value.claims.metadata)
  {
    var metadata := Resolve(w, chain).value.claims.metadata;
    forall side, f ensures FieldRespected(p, metadata, side, f) {
      ResolvedRespectsField(w, chain, j, p, side, f);
    }
    PolicySatisfiedByField(p, metadata);
  }

  lemma {:induction false} EarliestIsMinimum(own: int, subs: seq<Statement>, i: nat)
    requires i <= |subs|
    ensures Earliest(own, subs, i) <= own
    ensures forall j :: i <= j < |subs| ==> Earliest(own, subs, i) <= subs[j].claims.expiresAt
    ensures Earliest(own, subs, i) == own || exists j :: i <= j < |subs| && Earliest(own, subs, i) == subs[j].claims.expiresAt
    decreases |subs| - i
  {
    if i < |subs| {
      EarliestIsMinimum(own, subs, i + 1);
    }
  }

  /** A resolved chain expires with the first of its subject configuration and
      subordinate statements, meets the constraints of every statement, names
      its anchor, gives no section that the allowed entity types leave out, and is
      otherwise what the subject says of itself. */
  lemma ResolvedRespectsChain(w: World, chain: seq<Statement>)
    requires Resolve(w, chain).Ok?
    ensures var subs, r := SubordinateStatements(chain), Resolve(w, chain).value.claims;
            && r.expiresAt <= chain[0].claims.expiresAt
            && (forall j :: 0 <= j < |subs| ==> r.expiresAt <= subs[j].claims.expiresAt)
            && (r.expiresAt == chain[0].claims.expiresAt || exists j :: 0 <= j < |subs| && r.expiresAt == subs[j].claims.expiresAt)
            && (forall i :: 0 <= i < |subs| ==> ConstraintsHold(w, subs, i))
            && r.trustAnchor == Some(chain[|chain| - 1].claims.issuer)
            && r == chain[0].claims.(metadata := r.metadata, expiresAt := r.expiresAt, trustAnchor := r.trustAnchor)
    ensures var r, c := Resolve(w, chain).value.claims, chain[1].claims.constraints;
            c.Some? && c.value.allowedTypes.Some? ==>
              && (r.metadata.client.Some? ==> "openid_relying_party" in c.value.allowedTypes.value)
              && (r.metadata.provider.Some? ==> "openid_provider" in c.value.allowedTypes.value)
  {
    EarliestIsMinimum(chain[0].claims.expiresAt, SubordinateStatements(chain), 0);
  }

  // ----- from an identifier to resolved metadata -----

  /** `resolve`: fetch the subject's configuration, search a chain, resolve it. */
  function ResolveEntity(w: World, id: Id): Result<(Statement, seq<Statement>)> {
    if id !in w.configAt then Err
    else
      var entity :- ParseConfiguration(w, w.configAt[id]);
      var chain :- BuildTrustChain(w, entity);
      var resolved :- Resolve(w, chain);
      Ok((resolved, chain))
  }

  /** Authority `i` of the route vouches for the entity below it, and the
      metadata respects its policy in every field where that policy is free of
      repeats, and in every field if no policy stands above it. */
  ghost predicate VouchedAt(w: World, chain: seq<Statement>, path: seq<Id>, metadata: Metadata, i: nat)
    requires i < |path| && |chain| == |path| + 2
  {
    && Below(w, chain[0], path, i).Ok? && FetchAuthority(w, path[i]).Ok?
    && LinkedAt(w, Below(w, chain[0], path, i).value, chain[i + 1], FetchAuthority(w, path[i]).value)
    && (chain[i + 1].claims.policy.Some? ==> Respects(chain[i + 1].claims.policy.value, metadata, Topmost(chain, i)))
  }

  /** Respected in every plain field, or in every field. */
  ghost predicate Respects(p: Policy, m: Metadata, everywhere: bool) {
    forall side, f :: PlainAt(p, side, f) || everywhere ==> FieldRespected(p, m, side, f)
  }

  lemma VouchedStep(w: World, entity: Statement, chain: seq<Statement>, path: seq<Id>, i: nat)
    requires Route(w, entity, path) && chain == [entity] + RouteChain(w, entity, path)
    requires Resolve(w, chain).Ok?
    requires i < |path|
    ensures VouchedAt(w, chain, path, Resolve(w, chain).value.claims.metadata, i)
  {
    RouteChainLinked(w, entity, path, i);
    assert SubordinateStatements(chain)[i] == chain[i + 1];
    if chain[i + 1].claims.policy.Some? {
      var p := chain[i + 1].claims.policy.value;
      forall side, f | PlainAt(p, side, f) || Topmost(chain, i)
        ensures FieldRespected(p, Resolve(w, chain).value.claims.metadata, side, f)
      {
        ResolvedRespectsField(w, chain, i, p, side, f);
      }
    }
  }

  /** End to end: whatever an identifier resolves to rests on a route of valid
      links to a trusted anchor, and respects the policy of every authority on
      that route. */
  lemma ResolvedEntityIsVouchedFor(w: World, id: Id) returns (path: seq<Id>)
    requires ResolveEntity(w, id).Ok?
    ensures var (resolved, chain) := ResolveEntity(w, id).value;
            && id in w.configAt && chain[0].signed == w.configAt[id] && Stands(w, chain[0])
            && Route(w, chain[0], path)
            && Fresh(path, {chain[0].claims.subject})
            && chain == [chain[0]] + RouteChain(w, chain[0], path)
            && resolved.claims.trustAnchor.Some? && resolved.claims.trustAnchor.value in w.trusted
            && (forall i :: 0 <= i < |path| ==> VouchedAt(w, chain, path, resolved.claims.metadata, i))
  {
    var entity := ParseConfiguration(w, w.configAt[id]).value;
    path := ChainVouchedFor(w, entity);
  }

  lemma ChainVouchedFor(w: World, entity: Statement) returns (path: seq<Id>)
    requires BuildTrustChain(w, entity).Ok?
    requires Resolve(w, BuildTrustChain(w, entity).value).Ok?
    ensures var chain := BuildTrustChain(w, entity).value;
            var resolved := Resolve(w, chain).value;
            && Route(w, entity, path)
            && Fresh(path, {entity.claims.subject})
            && chain == [entity] + RouteChain(w, entity, path)
            && resolved.claims.trustAnchor.Some? && resolved.claims.trustAnchor.value in w.trusted
            && (forall i :: 0 <= i < |path| ==> VouchedAt(w, chain, path, resolved.claims.metadata, i))
  {
    path := BuildTrustChainSound(w, entity);
    var chain := BuildTrustChain(w, entity).value;
    forall i | 0 <= i < |path| ensures VouchedAt(w, chain, path, Resolve(w, chain).value.claims.metadata, i) {
      VouchedStep(w, entity, chain, path, i);
    }
    RouteChainLinked(w, entity, path, |path| - 1);
    ResolvedRespectsChain(w, chain);
  }
}
