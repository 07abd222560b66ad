/** When a policy is respected by everything that resolves: exactly the condition
    on repeats, over all federations, and what resolution panics on. */
module RespectedPolicies {
  import opened Wrappers
  import opened Operators
  import opened OperatorLaws
  import opened Policies
  import opened PolicyLaws
  import opened MergeOrder
  import opened Statements
  import opened Search
  import opened SearchBound
  import opened ResolveChain
  import opened ChainWitnesses

  // ----- a federation with two superiors -----

  /** Entity "e" has metadata `m`; its superior "a" imposes policy `p`, and the
      anchor "t" imposes policy `h` on "a". */
  function TwoSuperiors(m: Metadata, p: Policy, h: Policy): World {
    Signing(
      map["e" := Subject(m).claims, "a" := A.claims, "t" := T.claims, "s" := Lower(p).claims, "r" := Upper(h).claims],
      {}, map["e" := "e", "a" := "a", "t" := "t"], map[("a", "e") := "s", ("t", "a") := "r"])
  }

  function Subject(m: Metadata): Statement {
    Statement(Config("e", Some(["a"])).(metadata := m), "e")
  }

  function Lower(p: Policy): Statement {
    Statement(About("a", "e").(policy := Some(p)), "s")
  }

  function Upper(h: Policy): Statement {
    Statement(About("t", "a").(policy := Some(h)), "r")
  }

  function Stack(m: Metadata, p: Policy, h: Policy): seq<Statement> {
    [Subject(m), Lower(p), Upper(h), T]
  }

  lemma SuperiorsLink(m: Metadata, p: Policy, h: Policy)
    requires ValidPolicy(p) && ValidPolicy(h)
    ensures var w := TwoSuperiors(m, p, h);
            && FetchAuthority(w, "a") == Ok(A) && FetchAuthority(w, "t") == Ok(T)
            && Link(w, Subject(m), A) == Ok(Lower(p)) && Link(w, A, T) == Ok(Upper(h))
            && ParseConfiguration(w, "e") == Ok(Subject(m))
  {
    hide ValidPolicy;
    var w := TwoSuperiors(m, p, h);
    assert w.claims["e"] == Subject(m).claims && w.claims["s"] == Lower(p).claims && w.claims["r"] == Upper(h).claims;
    assert ParseConfiguration(w, "a") == Ok(A);
    assert ParseConfiguration(w, "t") == Ok(T);
    assert ParseStatement(w, "s", 0, "a", "e") == Ok(Lower(p));
    assert ParseSubordinate(w, "s", 0, "a", "e") == Ok(Lower(p));
    assert ParseSubordinate(w, "r", 0, "t", "a") == Ok(Upper(h));
    assert w.subordinateAt[("a", "e")] == "s" && w.subordinateAt[("t", "a")] == "r";
    assert FetchSubordinate(w, "e", A) == Ok(Lower(p));
    assert ("e", 0) in w.verified by { assert "e" in w.claims.Keys; }
  }

  /** The search finds the chain. */
  lemma SuperiorsFound(m: Metadata, p: Policy, h: Policy)
    requires ValidPolicy(p) && ValidPolicy(h)
    ensures BuildTrustChain(TwoSuperiors(m, p, h), Subject(m)) == Ok(Stack(m, p, h))
  {
    hide FetchAuthority, Link, FromConfig, TryHint, ValidPolicy;
    var w, visited: set<Id> := TwoSuperiors(m, p, h), {"e"};
    SuperiorsLink(m, p, h);
    TryUp(w, Subject(m), "a", A, visited);
    FirstHint(w, Subject(m), ["a"], visited);
    TryUp(w, A, "t", T, visited + {"a"});
    FirstHint(w, A, ["t"], visited + {"a"});
    assert FromConfig(w, Subject(m), visited) == Ok([Lower(p)] + [Upper(h), T]);
    assert [Subject(m)] + ([Lower(p)] + [Upper(h), T]) == Stack(m, p, h);
  }

  /** It resolves as the two policies merged and applied. */
  lemma SuperiorsResolve(m: Metadata, p: Policy, h: Policy, q: Policy)
    requires ValidPolicy(p) && ValidPolicy(h) && ValidPolicy(q) && MergePolicy(h, p) == Ok(q) && ApplyPolicy(q, m).Ok?
    ensures var r := ResolveEntity(TwoSuperiors(m, p, h), "e");
            r.Ok? && r.value.1 == Stack(m, p, h) && r.value.0.claims.metadata == ApplyPolicy(q, m).value
  {
    hide MergePolicy, ApplyPolicy, ValidPolicy, ParseConfiguration, BuildTrustChain;
    var w, chain := TwoSuperiors(m, p, h), Stack(m, p, h);
    SuperiorsLink(m, p, h);
    SuperiorsFound(m, p, h);
    var subs := SubordinateStatements(chain);
    assert subs == [Lower(p), Upper(h)];
    MergePolicyIdentity(h);
    assert FoldDown(subs, 2) == Ok(NO_POLICY);
    assert FoldDown(subs, 1) == Ok(h);
    assert FoldDown(subs, 0) == Ok(q);
    assert Override(ANY_METADATA, m) == m;
    assert Resolve(w, chain).Ok?;
  }

  // ----- replacing one field of a policy -----

  function OnlyOn(side: Side, s: Section): Policy {
    if side.ProviderSide? then Policy(Some(s), None) else Policy(None, Some(s))
  }

  function Replaced(p: Policy, side: Side, s: Section): Policy {
    if side.ProviderSide? then p.(provider := Some(s)) else p.(client := Some(s))
  }

  /** Merging `h`, which fixes one field, over a policy that fixes it too. */
  lemma MergeOneField(p: Policy, side: Side, f: Field, o: Ops, merged: Ops)
    requires p.On(side).Some? && f in p.On(side).value
    requires Merge(f.kind, o, p.On(side).value[f]) == Ok(merged)
    ensures MergePolicy(OnlyOn(side, map[f := o]), p) == Ok(Replaced(p, side, p.On(side).value[f := merged]))
  {
    var s := p.On(side).value;
    var h: Section := map[f := o];
    forall g | g in s ensures MergeOps(g, OpsAt(h, g), s[g]) == Ok(s[f := merged][g]) {
      MergeIdentity(g.kind, s[g]);
    }
    assert h.Keys + s.Keys == s.Keys;
    assert forall g :: g in h.Keys + s.Keys ==> OpsAt(s, g) == s[g];
    assert MergeSection(h, s).Ok?;
    assert MergeSection(h, s).value == s[f := merged];
    if side.ProviderSide? {
      if p.client.Some? { MergeSectionIdentity(p.client.value); }
    } else {
      if p.provider.Some? { MergeSectionIdentity(p.provider.value); }
    }
  }

  /** Replacing one field's operators by ones that apply keeps the rest applying. */
  lemma ApplyReplaced(p: Policy, m: Metadata, side: Side, f: Field, o: Ops, x: Value)
    requires p.On(side).Some? && m.On(side).Some? && f in p.On(side).value && ApplyPolicy(p, m).Ok?
    requires forall v :: Apply(f.kind, o, v) == Ok(x)
    ensures var q := Replaced(p, side, p.On(side).value[f := o]);
            && ApplyPolicy(q, m).Ok? && ApplyPolicy(q, m).value.On(side).Some?
            && ValueAt(ApplyPolicy(q, m).value.On(side).value, f) == Store(f.kind, x)
  {
    var s, r := p.On(side).value, m.On(side).value;
    var t := s[f := o];
    assert ApplySection(s, r).Ok?;
    forall g | g in t ensures ApplyField(t, r, g).Ok? {
      assert g != f ==> ApplyField(t, r, g) == ApplyField(s, r, g);
    }
    assert ApplySection(t, r).Ok?;
    var q := Replaced(p, side, t);
    if side.ProviderSide? {
      assert ApplyOptional(q.client, m.client) == ApplyOptional(p.client, m.client);
    } else {
      assert ApplyOptional(q.provider, m.provider) == ApplyOptional(p.provider, m.provider);
    }
  }

  // ----- the condition on repeats is exact -----

  /** In some federation policy `p` is imposed on an entity that resolves, and the
      result does not respect it in `f`: one authority above has undone it. */
  lemma Undone(p: Policy, m: Metadata, side: Side, f: Field) returns (w: World)
    requires ValidPolicy(p) && ApplyPolicy(p, m).Ok? && m.On(side).Some? && !PlainAt(p, side, f)
    ensures ResolveEntity(w, "e").Ok? && Carries(ResolveEntity(w, "e").value.1, 0, p)
    ensures !FieldRespected(p, ResolveEntity(w, "e").value.0.claims.metadata, side, f)
  {
    hide MergePolicy, ApplyPolicy, ResolveEntity, Merge, IsSubset;
    var l := p.On(side).value[f];
    var x, _ := RepeatWitness(l.value.value.items);
    var o := NO_OPS.(value := Some(List(x)));
    var merged := l.(value := o.value);
    LoosenedBy(f.kind, l, x);
    MergeOneField(p, side, f, o, merged);
    var h, q := OnlyOn(side, map[f := o]), Replaced(p, side, p.On(side).value[f := merged]);
    assert ValidSection(map[f := o]);
    assert ValidSection(p.On(side).value[f := merged]);
    assert forall v :: Apply(f.kind, merged, v) == Ok(List(x));
    ApplyReplaced(p, m, side, f, merged, List(x));
    SuperiorsResolve(m, p, h, q);
    w := TwoSuperiors(m, p, h);
    assert SubordinateStatements(Stack(m, p, h))[0] == Lower(p);
    assert x != [];
    RespectedMeans(p, ResolveEntity(w, "e").value.0.claims.metadata, side, f);
  }

  /** What an identifier resolves to respects `p` in `f` whenever `p` is imposed
      on its chain. */
  ghost predicate AlwaysRespected(p: Policy, side: Side, f: Field) {
    forall w, id, j :: ResolveEntity(w, id).Ok? && Carries(ResolveEntity(w, id).value.1, j, p) ==>
      FieldRespected(p, ResolveEntity(w, id).value.0.claims.metadata, side, f)
  }

  /** A policy that applies to some metadata is respected in a field in every
      federation that imposes it if and only if its own `value` list there has no
      repeats: with a repeat, a single authority above it can undo it. */
  lemma RespectedExactly(p: Policy, m: Metadata, side: Side, f: Field)
    requires ValidPolicy(p) && ApplyPolicy(p, m).Ok? && m.On(side).Some?
    ensures AlwaysRespected(p, side, f) <==> PlainAt(p, side, f)
  {
    hide ApplyPolicy, PlainAt, FieldRespected, BuildTrustChain, Resolve;
    if PlainAt(p, side, f) {
      forall w, id, j | ResolveEntity(w, id).Ok? && Carries(ResolveEntity(w, id).value.1, j, p)
        ensures FieldRespected(p, ResolveEntity(w, id).value.0.claims.metadata, side, f)
      {
        ResolvedRespectsField(w, ResolveEntity(w, id).value.1, j, p, side, f);
      }
    } else {
      var w := Undone(p, m, side, f);
    }
  }

  // ----- a chain that makes resolution panic -----

  /** The same choice of contacts imposed by two superiors: the search finds the
      chain, and resolving it panics. */
  lemma FoundChainPanics(m: Metadata)
    ensures var w := TwoSuperiors(m, CONTACTS_POLICY, CONTACTS_POLICY);
            && BuildTrustChain(w, Subject(m)).Ok?
            && ResolvePanics(w, FieldOrder([], [CONTACTS]), BuildTrustChain(w, Subject(m)).value)
  {
    hide BuildTrustChain, PolicyPanics, ValidPolicy, MergePolicy;
    var p := CONTACTS_POLICY;
    var w, order, chain := TwoSuperiors(m, p, p), FieldOrder([], [CONTACTS]), Stack(m, p, p);
    ContactsPanic();
    SuperiorsFound(m, p, p);
    var subs := SubordinateStatements(chain);
    assert subs == [Lower(p), Upper(p)];
    MergePolicyIdentity(p);
    assert FoldDown(subs, 2) == Ok(NO_POLICY);
    assert FoldDown(subs, 1) == Ok(p);
    assert PanicsAt(w, order, subs, 0);
  }
}
