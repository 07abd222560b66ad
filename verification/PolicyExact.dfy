/** Sections, policies and chains by their operands: what becomes of every field,
    named by a policy or not, and exactly when applying and merging succeed. */
module PolicyExact {
  import opened Wrappers
  import opened Operators
  import opened OperatorExact
  import opened Policies
  import opened Statements
  import opened ResolveChain

  // ----- applying a section -----

  /** A scope is a list of tokens, or absent. */
  predicate WellTyped(f: Field, v: Value) {
    f.kind == TokenKind ==> !v.Scalar?
  }

  /** Field `f` goes from `v` to `out`: what Apply makes of it, a scope being
      applied as the list of its tokens. */
  predicate AppliedTo(f: Field, o: Ops, v: Value, out: Value) {
    if f.kind == TokenKind then
      var r := Apply(f.kind, o, List(v.Items())); r.Ok? && out.Items() == r.value.Items()
    else Apply(f.kind, o, v) == Ok(out)
  }

  predicate AppliesTo(f: Field, o: Ops, v: Value) {
    Apply(f.kind, o, if f.kind == TokenKind then List(v.Items()) else v).Ok?
  }

  lemma NoOperators(f: Field, v: Value)
    ensures AppliesTo(f, NO_OPS, v) && AppliedTo(f, NO_OPS, v, v)
  {
  }

  lemma ApplyFieldExactly(s: Section, r: Record, f: Field)
    requires WellTyped(f, ValueAt(r, f))
    ensures ApplyField(s, r, f).Ok? <==> AppliesTo(f, OpsAt(s, f), ValueAt(r, f))
    ensures ApplyField(s, r, f).Ok? ==> AppliedTo(f, OpsAt(s, f), ValueAt(r, f), ApplyField(s, r, f).value)
  {
    if f.kind == TokenKind {
      assert Load(TokenKind, ValueAt(r, f)) == List(ValueAt(r, f).Items());
    }
  }

  /** A section applies exactly when every field's operators do. Every field,
      whether in the section, in the record or in neither, then is what its
      operators make of it, and a field the section does not name is unchanged. */
  lemma ApplySectionExactly(s: Section, r: Record)
    requires forall f :: WellTyped(f, ValueAt(r, f))
    ensures ApplySection(s, r).Ok? <==> forall f :: AppliesTo(f, OpsAt(s, f), ValueAt(r, f))
    ensures ApplySection(s, r).Ok? ==> forall f ::
              AppliedTo(f, OpsAt(s, f), ValueAt(r, f), ValueAt(ApplySection(s, r).value, f))
    ensures ApplySection(s, r).Ok? ==> forall f :: f !in s ==> ValueAt(ApplySection(s, r).value, f) == ValueAt(r, f)
  {
    hide Apply, ApplyField, AppliesTo, AppliedTo;
    forall f
      ensures ApplyField(s, r, f).Ok? <==> AppliesTo(f, OpsAt(s, f), ValueAt(r, f))
      ensures f !in s ==> AppliesTo(f, OpsAt(s, f), ValueAt(r, f))
    {
      ApplyFieldExactly(s, r, f);
      NoOperators(f, ValueAt(r, f));
    }
    if ApplySection(s, r).Ok? {
      var out := ApplySection(s, r).value;
      forall f
        ensures AppliedTo(f, OpsAt(s, f), ValueAt(r, f), ValueAt(out, f))
        ensures f !in s ==> ValueAt(out, f) == ValueAt(r, f)
      {
        ApplyFieldExactly(s, r, f);
        NoOperators(f, ValueAt(r, f));
        if f in s { assert ApplyField(s, r, f).Ok?; }
      }
    }
  }

  /** A whole policy: a side without metadata stays so, a side without a policy is
      unchanged, and otherwise every field is what its operators make of it. */
  lemma ApplyPolicyExactly(p: Policy, m: Metadata)
    requires forall side, f :: m.On(side).Some? ==> WellTyped(f, ValueAt(m.On(side).value, f))
    ensures ApplyPolicy(p, m).Ok? <==> forall side, f ::
              m.On(side).Some? ==> AppliesTo(f, OpsOn(p, side, f), ValueAt(m.On(side).value, f))
    ensures ApplyPolicy(p, m).Ok? ==> forall side, f :: FieldApplied(p, m, ApplyPolicy(p, m).value, side, f)
  {
    hide ApplySection, AppliesTo, AppliedTo;
    forall side ensures SideApplies(p, m, side) <==> ApplyOptional(p.On(side), m.On(side)).Ok? {
      ApplyOptionalExactly(p, m, side);
    }
    assert ApplyPolicy(p, m).Ok? <==> SideApplies(p, m, ProviderSide) && SideApplies(p, m, ClientSide);
    if ApplyPolicy(p, m).Ok? {
      var out := ApplyPolicy(p, m).value;
      forall side, f ensures FieldApplied(p, m, out, side, f) {
        ApplyOptionalExactly(p, m, side);
        assert ApplyOptional(p.On(side), m.On(side)) == Ok(out.On(side));
      }
      forall side, f ensures m.On(side).Some? ==> AppliesTo(f, OpsOn(p, side, f), ValueAt(m.On(side).value, f)) {
        assert SideApplies(p, m, side);
      }
    } else if SideApplies(p, m, ProviderSide) {
      assert !SideApplies(p, m, ClientSide);
    }
  }

  ghost predicate SideApplies(p: Policy, m: Metadata, side: Side) {
    m.On(side).Some? ==> forall f :: AppliesTo(f, OpsOn(p, side, f), ValueAt(m.On(side).value, f))
  }

  predicate FieldApplied(p: Policy, m: Metadata, out: Metadata, side: Side, f: Field) {
    && (out.On(side).Some? <==> m.On(side).Some?)
    && (m.On(side).Some? ==>
          && AppliedTo(f, OpsOn(p, side, f), ValueAt(m.On(side).value, f), ValueAt(out.On(side).value, f))
          && (!Names(p, side, f) ==> ValueAt(out.On(side).value, f) == ValueAt(m.On(side).value, f)))
  }

  /** Policy `p` has operators for `f`. */
  predicate Names(p: Policy, side: Side, f: Field) {
    p.On(side).Some? && f in p.On(side).value
  }

  lemma ApplyOptionalExactly(p: Policy, m: Metadata, side: Side)
    requires m.On(side).Some? ==> forall f :: WellTyped(f, ValueAt(m.On(side).value, f))
    ensures ApplyOptional(p.On(side), m.On(side)).Ok? <==> SideApplies(p, m, side)
    ensures ApplyOptional(p.On(side), m.On(side)).Ok? ==>
              forall out: Metadata, f :: out.On(side) == ApplyOptional(p.On(side), m.On(side)).value ==> FieldApplied(p, m, out, side, f)
  {
    hide ApplySection, AppliesTo, AppliedTo;
    forall f, v ensures AppliesTo(f, NO_OPS, v) && AppliedTo(f, NO_OPS, v, v) {
      NoOperators(f, v);
    }
    if m.On(side).Some? && p.On(side).Some? {
      ApplySectionExactly(p.On(side).value, m.On(side).value);
    }
  }

  // ----- validity -----

  /** A policy is valid exactly when every operator set in it is. */
  lemma ValidPolicyExactly(p: Policy)
    ensures ValidPolicy(p) <==> forall side, f :: Names(p, side, f) ==> Valid(f.kind, OpsOn(p, side, f))
  {
    hide Valid;
    if forall side, f :: Names(p, side, f) ==> Valid(f.kind, OpsOn(p, side, f)) {
      forall f | p.provider.Some? && f in p.provider.value ensures Valid(f.kind, p.provider.value[f]) {
        assert Names(p, ProviderSide, f);
      }
      forall f | p.client.Some? && f in p.client.value ensures Valid(f.kind, p.client.value[f]) {
        assert Names(p, ClientSide, f);
      }
    }
  }

  // ----- merging -----

  ghost predicate MergeableAt(h: Policy, l: Policy, side: Side, f: Field) {
    Mergeable(f.kind, OpsOn(h, side, f), OpsOn(l, side, f))
  }

  ghost predicate MergeablePolicies(h: Policy, l: Policy) {
    forall side, f :: MergeableAt(h, l, side, f)
  }

  lemma MergeSectionSucceeds(h: Section, l: Section)
    ensures MergeSection(h, l).Ok? <==> forall f: Field :: Mergeable(f.kind, OpsAt(h, f), OpsAt(l, f))
  {
    hide Merge, Mergeable;
    forall f: Field ensures MergeOps(f, OpsAt(h, f), OpsAt(l, f)).Ok? <==> Mergeable(f.kind, OpsAt(h, f), OpsAt(l, f)) {
      MergeSucceedsExactly(f.kind, OpsAt(h, f), OpsAt(l, f));
    }
    forall f: Field | f !in h.Keys + l.Keys ensures Mergeable(f.kind, OpsAt(h, f), OpsAt(l, f)) {
      NothingToMerge(f.kind, NO_OPS);
    }
  }

  lemma NothingToMerge(k: Kind, o: Ops)
    ensures Mergeable(k, o, NO_OPS)
  {
  }

  /** Two policies merge exactly when the operators of every field do; what each
      field's operators then are is the merge of the two. */
  lemma MergePolicySucceeds(h: Policy, l: Policy)
    ensures MergePolicy(h, l).Ok? <==> MergeablePolicies(h, l)
  {
    hide MergeSection, Mergeable;
    forall side ensures MergeOptional(h.On(side), l.On(side)).Ok? <==> forall f :: MergeableAt(h, l, side, f) {
      if l.On(side).Some? {
        var high, low := if h.On(side).Some? then h.On(side).value else map[], l.On(side).value;
        MergeSectionSucceeds(high, low);
        assert forall f :: MergeableAt(h, l, side, f) <==> Mergeable(f.kind, OpsAt(high, f), OpsAt(low, f));
      } else {
        forall f ensures MergeableAt(h, l, side, f) { NothingToMerge(f.kind, OpsOn(h, side, f)); }
      }
    }
    assert MergePolicy(h, l).Ok? <==>
           MergeOptional(h.On(ProviderSide), l.On(ProviderSide)).Ok? && MergeOptional(h.On(ClientSide), l.On(ClientSide)).Ok?;
  }

  /** The policy of statement `i` merges with those above it, into a valid policy. */
  ghost predicate JoinsAt(subs: seq<Statement>, i: nat)
    requires i < |subs|
  {
    subs[i].claims.policy.Some? ==>
      && FoldDown(subs, i + 1).Ok?
      && var above, p := FoldDown(subs, i + 1).value, subs[i].claims.policy.value;
         MergeablePolicies(above, p) && forall q :: MergePolicy(above, p) == Ok(q) ==> ValidPolicy(q)
  }

  /** The policies of a chain fold exactly when each joins those above it. */
  lemma {:induction false} FoldSucceedsExactly(subs: seq<Statement>, i: nat)
    requires i <= |subs|
    ensures FoldDown(subs, i).Ok? <==> forall j :: i <= j < |subs| ==> JoinsAt(subs, j)
    decreases |subs| - i
  {
    hide MergePolicy, ValidPolicy, MergeablePolicies;
    if i < |subs| {
      FoldSucceedsExactly(subs, i + 1);
      if FoldDown(subs, i + 1).Ok? && subs[i].claims.policy.Some? {
        MergePolicySucceeds(FoldDown(subs, i + 1).value, subs[i].claims.policy.value);
      }
      if FoldDown(subs, i).Ok? {
        assert JoinsAt(subs, i);
      } else if FoldDown(subs, i + 1).Ok? {
        assert !JoinsAt(subs, i);
      }
    }
  }

  /** The folded policy has operators for a field exactly when some policy has. */
  lemma {:induction false} FoldNames(subs: seq<Statement>, i: nat, side: Side, f: Field)
    requires i <= |subs| && FoldDown(subs, i).Ok?
    ensures Names(FoldDown(subs, i).value, side, f) <==> exists j :: i <= j < |subs| && NamedBy(subs[j], side, f)
    decreases |subs| - i
  {
    hide MergePolicy, ValidPolicy;
    if i < |subs| {
      FoldNames(subs, i + 1, side, f);
      if subs[i].claims.policy.Some? {
        MergedAt(FoldDown(subs, i + 1).value, subs[i].claims.policy.value, side, f);
      }
      assert Names(FoldDown(subs, i).value, side, f) <==> Names(FoldDown(subs, i + 1).value, side, f) || NamedBy(subs[i], side, f);
    }
  }

  predicate NamedBy(s: Statement, side: Side, f: Field) {
    s.claims.policy.Some? && Names(s.claims.policy.value, side, f)
  }

  // ----- resolution -----

  /** The metadata before policies: a value set by the immediate superior replaces
      the subject's own. */
  function Before(chain: seq<Statement>, side: Side, f: Field): Value
    requires |chain| >= 2
  {
    var own, superior := chain[0].claims.metadata.On(side), chain[1].claims.metadata.On(side);
    if superior.Some? && ValueAt(superior.value, f) != Absent then ValueAt(superior.value, f)
    else if own.Some? then ValueAt(own.value, f)
    else Absent
  }

  /** The immediate superior lets the subject be of this kind. */
  predicate TypeAllowed(chain: seq<Statement>, side: Side)
    requires |chain| >= 2
  {
    var c := chain[1].claims.constraints;
    c.Some? && c.value.allowedTypes.Some? ==>
      (if side == ProviderSide then "openid_provider" else "openid_relying_party") in c.value.allowedTypes.value
  }

  ghost predicate TypedChain(chain: seq<Statement>)
    requires |chain| >= 2
  {
    forall side, f :: WellTyped(f, Before(chain, side, f))
  }

  function Prepared(chain: seq<Statement>): Metadata
    requires |chain| >= 2
  {
    KeepAllowed(chain[1].claims.constraints, Override(chain[1].claims.metadata, chain[0].claims.metadata))
  }

  lemma PreparedField(chain: seq<Statement>, side: Side, f: Field)
    requires |chain| >= 2
    ensures Prepared(chain).On(side).Some? <==> chain[0].claims.metadata.On(side).Some? && TypeAllowed(chain, side)
    ensures Prepared(chain).On(side).Some? ==> ValueAt(Prepared(chain).On(side).value, f) == Before(chain, side, f)
  {
    var own, superior := chain[0].claims.metadata.On(side), chain[1].claims.metadata.On(side);
    assert Override(chain[1].claims.metadata, chain[0].claims.metadata).On(side) == OverrideSection(superior, own);
  }

  /** Every field of what a chain resolves to: the section is there exactly when
      the subject has it and may have it; a field is what the folded operators make
      of the superior's value or else the subject's own; and a field that no policy
      on the chain names is that value unchanged. */
  lemma ResolvedField(w: World, chain: seq<Statement>, side: Side, f: Field)
    requires Resolve(w, chain).Ok? && TypedChain(chain)
    ensures var out := Resolve(w, chain).value.claims.metadata.On(side);
            && (out.Some? <==> chain[0].claims.metadata.On(side).Some? && TypeAllowed(chain, side))
            && (out.Some? ==>
                  && FoldDown(SubordinateStatements(chain), 0).Ok?
                  && AppliedTo(f, OpsOn(FoldDown(SubordinateStatements(chain), 0).value, side, f), Before(chain, side, f), ValueAt(out.value, f))
                  && ((forall j :: 0 <= j < |SubordinateStatements(chain)| ==> !NamedBy(SubordinateStatements(chain)[j], side, f)) ==>
                        ValueAt(out.value, f) == Before(chain, side, f)))
  {
    hide ApplyPolicy, AppliedTo, KeepAllowed, Override, ConstraintsHold, TypeAllowed, Before;
    var subs, before := SubordinateStatements(chain), Prepared(chain);
    var policy := FoldDown(subs, 0).value;
    PreparedTyped(chain);
    PreparedField(chain, side, f);
    ApplyPolicyExactly(policy, before);
    assert ApplyPolicy(policy, before) == Ok(Resolve(w, chain).value.claims.metadata);
    assert FieldApplied(policy, before, Resolve(w, chain).value.claims.metadata, side, f);
    FoldNames(subs, 0, side, f);
  }

  lemma PreparedTyped(chain: seq<Statement>)
    requires |chain| >= 2 && TypedChain(chain)
    ensures forall side, f :: Prepared(chain).On(side).Some? ==> WellTyped(f, ValueAt(Prepared(chain).On(side).value, f))
  {
    hide Prepared;
    forall side, f ensures Prepared(chain).On(side).Some? ==> WellTyped(f, ValueAt(Prepared(chain).On(side).value, f)) {
      PreparedField(chain, side, f);
    }
  }

  /** The constraints of the statement at distance `i`, written out. */
  ghost predicate Permits(w: World, subs: seq<Statement>, i: nat)
    requires i < |subs|
  {
    var c := subs[i].claims.constraints;
    && (c.Some? && c.value.maxPathLength.Some? ==> i <= c.value.maxPathLength.value)
    && (c.Some? && c.value.naming.Some? ==> forall j :: 0 <= j <= i ==>
          && (c.value.naming.value.permitted.Some? ==>
                exists n :: n in c.value.naming.value.permitted.value && (subs[j].claims.subject, n) in w.named)
          && forall n :: n in c.value.naming.value.excluded ==> (subs[j].claims.subject, n) !in w.named)
  }

  lemma PermitsExactly(w: World, subs: seq<Statement>, i: nat)
    requires i < |subs|
    ensures ConstraintsHold(w, subs, i) <==> Permits(w, subs, i)
  {
    var c := subs[i].claims.constraints;
    if c.Some? && c.value.naming.Some? {
      forall j | 0 <= j <= i
        ensures NameAllowed(w, c.value.naming.value, subs[j].claims.subject) <==>
                && (c.value.naming.value.permitted.Some? ==>
                      exists n :: n in c.value.naming.value.permitted.value && (subs[j].claims.subject, n) in w.named)
                && forall n :: n in c.value.naming.value.excluded ==> (subs[j].claims.subject, n) !in w.named
      {
      }
    }
  }

  /** A chain resolves exactly when the constraints of every statement permit it,
      its policies fold, and the folded operators apply to every field of every
      section that is there. */
  lemma ResolveSucceedsExactly(w: World, chain: seq<Statement>)
    requires |chain| >= 2 && TypedChain(chain)
    ensures var subs := SubordinateStatements(chain);
            Resolve(w, chain).Ok? <==>
            && (forall i :: 0 <= i < |subs| ==> Permits(w, subs, i))
            && (forall i :: 0 <= i < |subs| ==> JoinsAt(subs, i))
            && (FoldDown(subs, 0).Ok? ==> forall side, f :: FieldApplies(chain, FoldDown(subs, 0).value, side, f))
  {
    hide ApplyPolicy, AppliesTo, ConstraintsHold, Permits, JoinsAt, KeepAllowed, Override, Before, TypeAllowed;
    var subs, before := SubordinateStatements(chain), Prepared(chain);
    forall i | 0 <= i < |subs| ensures ConstraintsHold(w, subs, i) <==> Permits(w, subs, i) {
      PermitsExactly(w, subs, i);
    }
    FoldSucceedsExactly(subs, 0);
    if FoldDown(subs, 0).Ok? {
      var policy := FoldDown(subs, 0).value;
      PreparedTyped(chain);
      ApplyPolicyExactly(policy, before);
      forall side, f ensures
        FieldApplies(chain, policy, side, f) <==>
        (before.On(side).Some? ==> AppliesTo(f, OpsOn(policy, side, f), ValueAt(before.On(side).value, f)))
      {
        PreparedField(chain, side, f);
      }
    }
  }

  predicate FieldApplies(chain: seq<Statement>, policy: Policy, side: Side, f: Field)
    requires |chain| >= 2
  {
    chain[0].claims.metadata.On(side).Some? && TypeAllowed(chain, side) ==>
      AppliesTo(f, OpsOn(policy, side, f), Before(chain, side, f))
  }
}
