/** Laws of whole policies: Apply is idempotent, merging is associative and may
    be regrouped along a chain of any length, and where the `scope` parameter
    escapes the presence checks. */
module PolicyLaws {
  import opened Wrappers
  import opened Lists
  import opened Operators
  import opened OperatorLaws
  import opened Policies

  // ----- Apply -----

  lemma ApplyFieldIdempotent(s: Section, r: Record, out: Record, f: Field)
    requires ApplyField(s, r, f).Ok?
    requires ValueAt(out, f) == ApplyField(s, r, f).value
    ensures ApplyField(s, out, f) == ApplyField(s, r, f)
  {
    ApplyIdempotent(f.kind, OpsAt(s, f), Load(f.kind, ValueAt(r, f)));
  }

  /** Applying a section to its own result changes nothing. */
  lemma ApplySectionIdempotent(s: Section, r: Record)
    requires ApplySection(s, r).Ok?
    ensures ApplySection(s, ApplySection(s, r).value) == ApplySection(s, r)
  {
    var out := ApplySection(s, r).value;
    forall f | f in s ensures ApplyField(s, out, f) == ApplyField(s, r, f) && ApplyField(s, out, f).Ok? {
      ApplyFieldIdempotent(s, r, out, f);
    }
    assert ApplySection(s, out).Ok?;
    var again := ApplySection(s, out).value;
    assert again.Keys == out.Keys;
    assert forall f :: f in out ==> again[f] == out[f];
    assert again == out;
  }

  /** The scope parameter never reaches a policy as absent, so neither `default`
      nor `essential` has any effect on it. A scope that a valid policy accepts
      is stored as absent exactly when the fixed value has no tokens or, without
      one, when neither the client nor `add` names a token. */
  lemma ScopePresence(o: Ops, v: Value)
    requires Valid(TokenKind, o)
    requires v.List? || v == Absent
    requires o.value.Some? ==> !o.value.value.Scalar?
    requires Apply(TokenKind, o, Load(TokenKind, v)).Ok?
    ensures Store(TokenKind, Apply(TokenKind, o, Load(TokenKind, v)).value) == Absent <==>
            if o.value.Some? then o.value.value.Items() == []
            else v.Items() == [] && o.add.Items() == []
  {
    hide IsSubset, PassesChecks;
    var loaded := Load(TokenKind, v);
    assert loaded != Absent && loaded.Items() == v.Items();
    if o.value.None? && o.add != Absent {
      var all := v.Items() + o.add.Items();
      DedupFacts(all);
      if all != [] {
        assert all[0] in Members(Dedup(all));
      }
    }
  }

  /** A required scope with a default is accepted without any scope. */
  lemma RequiredScopeMayBeMissing()
    ensures var scope := Field("scope", TokenKind);
            var policy: Section := map[scope := NO_OPS.(essential := true, default := List(["openid"]))];
            && ValidSection(policy)
            && ApplySection(policy, map[]).Ok?
            && ValueAt(ApplySection(policy, map[]).value, scope) == Absent
  {
    var scope := Field("scope", TokenKind);
    var o := NO_OPS.(essential := true, default := List(["openid"]));
    var policy: Section := map[scope := o];
    assert Apply(TokenKind, o, List([])) == Ok(List([]));
    assert ApplyField(policy, map[], scope) == Ok(Absent);
  }

  // ----- Merge -----

  lemma MergeSectionIdentity(s: Section)
    ensures MergeSection(map[], s) == Ok(s) && MergeSection(s, map[]) == Ok(s)
  {
    forall f | f in s ensures MergeOps(f, NO_OPS, s[f]) == Ok(s[f]) && MergeOps(f, s[f], NO_OPS) == Ok(s[f]) {
      MergeIdentity(f.kind, s[f]);
    }
    var low, high := MergeSection(map[], s).value, MergeSection(s, map[]).value;
    assert low.Keys == s.Keys && high.Keys == s.Keys;
    assert low == s && high == s;
  }

  lemma MergePolicyIdentity(p: Policy)
    ensures MergePolicy(NO_POLICY, p) == Ok(p) && MergePolicy(p, NO_POLICY) == Ok(p)
  {
    if p.provider.Some? { MergeSectionIdentity(p.provider.value); }
    if p.client.Some? { MergeSectionIdentity(p.client.value); }
  }

  function WithLeft(g: (Field, Ops, Ops) -> Result<Ops>, a: Section, b: Section, c: Section): Result<Section> {
    var m :- MergeWith(g, a, b);
    MergeWith(g, m, c)
  }

  function WithRight(g: (Field, Ops, Ops) -> Result<Ops>, a: Section, b: Section, c: Section): Result<Section> {
    var m :- MergeWith(g, b, c);
    MergeWith(g, a, m)
  }

  function Left3(g: (Field, Ops, Ops) -> Result<Ops>, f: Field, a: Ops, b: Ops, c: Ops): Result<Ops> {
    var m :- g(f, a, b);
    g(f, m, c)
  }

  function Right3(g: (Field, Ops, Ops) -> Result<Ops>, f: Field, a: Ops, b: Ops, c: Ops): Result<Ops> {
    var m :- g(f, b, c);
    g(f, a, m)
  }

  /** Three sections merged field by field, grouped left or right. */
  function Fieldwise(g: (Field, Ops, Ops) -> Result<Ops>, left: bool, a: Section, b: Section, c: Section): Result<Section> {
    var fields := a.Keys + b.Keys + c.Keys;
    if forall f :: f in fields ==> At3(g, left, a, b, c, f).Ok? then
      Ok(map f | f in fields :: At3(g, left, a, b, c, f).value)
    else Err
  }

  function At3(g: (Field, Ops, Ops) -> Result<Ops>, left: bool, a: Section, b: Section, c: Section, f: Field): Result<Ops> {
    if left then Left3(g, f, OpsAt(a, f), OpsAt(b, f), OpsAt(c, f))
    else Right3(g, f, OpsAt(a, f), OpsAt(b, f), OpsAt(c, f))
  }

  /** Two sections collected from the same fields and the same per-field results are the same. */
  lemma SameResults(x: Result<Section>, y: Result<Section>, at: Field -> Result<Ops>, xs: set<Field>, ys: set<Field>)
    requires xs == ys
    requires x.Ok? <==> forall f :: f in xs ==> at(f).Ok?
    requires y.Ok? <==> forall f :: f in ys ==> at(f).Ok?
    requires x.Ok? ==> x.value.Keys == xs && forall f :: f in xs ==> Ok(x.value[f]) == at(f)
    requires y.Ok? ==> y.value.Keys == ys && forall f :: f in ys ==> Ok(y.value[f]) == at(f)
    ensures x == y
  {
    if x.Ok? {
      assert forall f :: f in xs ==> Ok(x.value[f]) == Ok(y.value[f]);
      assert x.value == y.value;
    }
  }

  lemma WithLeftAt(g: (Field, Ops, Ops) -> Result<Ops>, a: Section, b: Section, c: Section, f: Field)
    requires g(f, NO_OPS, NO_OPS) == Ok(NO_OPS)
    requires MergeWith(g, a, b).Ok?
    ensures var m := MergeWith(g, a, b).value;
            g(f, OpsAt(m, f), OpsAt(c, f)) == At3(g, true, a, b, c, f)
  {
    if f in a.Keys + b.Keys {
      assert g(f, OpsAt(a, f), OpsAt(b, f)).Ok?;
    }
  }

  lemma WithLeftIsFieldwise(g: (Field, Ops, Ops) -> Result<Ops>, a: Section, b: Section, c: Section)
    requires forall f :: g(f, NO_OPS, NO_OPS) == Ok(NO_OPS)
    ensures WithLeft(g, a, b, c) == Fieldwise(g, true, a, b, c)
  {
    if MergeWith(g, a, b).Ok? {
      var m := MergeWith(g, a, b).value;
      forall f ensures g(f, OpsAt(m, f), OpsAt(c, f)) == At3(g, true, a, b, c, f) {
        WithLeftAt(g, a, b, c, f);
      }
      SameResults(MergeWith(g, m, c), Fieldwise(g, true, a, b, c), f => At3(g, true, a, b, c, f),
                  m.Keys + c.Keys, a.Keys + b.Keys + c.Keys);
    } else {
      var f :| f in a.Keys + b.Keys && g(f, OpsAt(a, f), OpsAt(b, f)).Err?;
      assert At3(g, true, a, b, c, f).Err?;
    }
  }

  lemma WithRightAt(g: (Field, Ops, Ops) -> Result<Ops>, a: Section, b: Section, c: Section, f: Field)
    requires g(f, NO_OPS, NO_OPS) == Ok(NO_OPS)
    requires MergeWith(g, b, c).Ok?
    ensures var m := MergeWith(g, b, c).value;
            g(f, OpsAt(a, f), OpsAt(m, f)) == At3(g, false, a, b, c, f)
  {
    if f in b.Keys + c.Keys {
      assert g(f, OpsAt(b, f), OpsAt(c, f)).Ok?;
    }
  }

  lemma WithRightIsFieldwise(g: (Field, Ops, Ops) -> Result<Ops>, a: Section, b: Section, c: Section)
    requires forall f :: g(f, NO_OPS, NO_OPS) == Ok(NO_OPS)
    ensures WithRight(g, a, b, c) == Fieldwise(g, false, a, b, c)
  {
    if MergeWith(g, b, c).Ok? {
      var m := MergeWith(g, b, c).value;
      forall f ensures g(f, OpsAt(a, f), OpsAt(m, f)) == At3(g, false, a, b, c, f) {
        WithRightAt(g, a, b, c, f);
      }
      SameResults(MergeWith(g, a, m), Fieldwise(g, false, a, b, c), f => At3(g, false, a, b, c, f),
                  a.Keys + m.Keys, a.Keys + b.Keys + c.Keys);
    } else {
      var f :| f in b.Keys + c.Keys && g(f, OpsAt(b, f), OpsAt(c, f)).Err?;
      assert At3(g, false, a, b, c, f).Err?;
    }
  }

  /** Associativity of the operator merge lifts to sections. */
  lemma MergeWithAssociative(g: (Field, Ops, Ops) -> Result<Ops>, a: Section, b: Section, c: Section)
    requires forall f :: g(f, NO_OPS, NO_OPS) == Ok(NO_OPS)
    requires forall f :: f in a.Keys + b.Keys + c.Keys ==>
               At3(g, true, a, b, c, f) == At3(g, false, a, b, c, f)
    ensures WithLeft(g, a, b, c) == WithRight(g, a, b, c)
  {
    WithLeftIsFieldwise(g, a, b, c);
    WithRightIsFieldwise(g, a, b, c);
    var l, r := WithLeft(g, a, b, c), WithRight(g, a, b, c);
    if l.Ok? {
      assert r.Ok?;
      assert l.value == r.value;
    }
  }

  lemma MergeSectionAssociative(a: Section, b: Section, c: Section)
    requires PlainSection(b)
    ensures WithLeft(MergeOps, a, b, c) == WithRight(MergeOps, a, b, c)
  {
    forall f: Field ensures MergeOps(f, NO_OPS, NO_OPS) == Ok(NO_OPS) {
      MergeIdentity(f.kind, NO_OPS);
    }
    forall f: Field
      ensures At3(MergeOps, true, a, b, c, f) == At3(MergeOps, false, a, b, c, f)
    {
      MergeAssociative(f.kind, OpsAt(a, f), OpsAt(b, f), OpsAt(c, f));
    }
    MergeWithAssociative(MergeOps, a, b, c);
  }

  // ----- policies along a chain -----

  function OptionalLeft(a: Option<Section>, b: Option<Section>, c: Option<Section>): Result<Option<Section>> {
    var m :- MergeOptional(a, b);
    MergeOptional(m, c)
  }

  function OptionalRight(a: Option<Section>, b: Option<Section>, c: Option<Section>): Result<Option<Section>> {
    var m :- MergeOptional(b, c);
    MergeOptional(a, m)
  }

  lemma MergeOptionalAssociative(a: Option<Section>, b: Option<Section>, c: Option<Section>)
    requires b.Some? ==> PlainSection(b.value)
    ensures OptionalLeft(a, b, c) == OptionalRight(a, b, c)
  {
    var sa := if a.Some? then a.value else map[];
    if b.Some? && c.Some? {
      MergeSectionAssociative(sa, b.value, c.value);
    } else if c.Some? {
      MergeSectionIdentity(c.value);
    }
  }

  function MergeResults(h: Result<Policy>, l: Result<Policy>): Result<Policy> {
    if h.Err? || l.Err? then Err else MergePolicy(h.value, l.value)
  }

  lemma MergePolicyAssociative(a: Policy, b: Policy, c: Policy)
    requires PlainPolicy(b)
    ensures MergeResults(MergePolicy(a, b), Ok(c)) == MergeResults(Ok(a), MergePolicy(b, c))
  {
    MergeOptionalAssociative(a.provider, b.provider, c.provider);
    MergeOptionalAssociative(a.client, b.client, c.client);
    PolicyLeftParts(a, b, c);
    PolicyRightParts(a, b, c);
  }

  function BothSections(provider: Result<Option<Section>>, client: Result<Option<Section>>): Result<Policy> {
    if provider.Err? || client.Err? then Err else Ok(Policy(provider.value, client.value))
  }

  lemma PolicyLeftParts(a: Policy, b: Policy, c: Policy)
    ensures MergeResults(MergePolicy(a, b), Ok(c)) ==
            BothSections(OptionalLeft(a.provider, b.provider, c.provider), OptionalLeft(a.client, b.client, c.client))
  {
  }

  lemma PolicyRightParts(a: Policy, b: Policy, c: Policy)
    ensures MergeResults(Ok(a), MergePolicy(b, c)) ==
            BothSections(OptionalRight(a.provider, b.provider, c.provider), OptionalRight(a.client, b.client, c.client))
  {
  }

  /** Policies merged from the first, the most superior, to the last. */
  function Fold(ps: seq<Policy>): Result<Policy> {
    if ps == [] then Ok(NO_POLICY)
    else MergeResults(Fold(ps[..|ps| - 1]), Ok(ps[|ps| - 1]))
  }

  predicate AllPlain(ps: seq<Policy>) {
    forall i :: 0 <= i < |ps| ==> PlainPolicy(ps[i])
  }

  lemma MergeSectionKeepsPlain(h: Section, l: Section)
    requires MergeSection(h, l).Ok?
    requires PlainSection(h) && PlainSection(l)
    ensures PlainSection(MergeSection(h, l).value)
  {
    var m := MergeSection(h, l).value;
    forall f | f in m ensures PlainLists(f.kind, m[f]) {
      assert MergeOps(f, OpsAt(h, f), OpsAt(l, f)) == Ok(m[f]);
      MergeKeepsPlainLists(f.kind, OpsAt(h, f), OpsAt(l, f));
    }
  }

  lemma MergePolicyKeepsPlain(h: Policy, l: Policy)
    requires MergePolicy(h, l).Ok?
    requires PlainPolicy(h) && PlainPolicy(l)
    ensures PlainPolicy(MergePolicy(h, l).value)
  {
    if l.provider.Some? {
      MergeSectionKeepsPlain(if h.provider.Some? then h.provider.value else map[], l.provider.value);
    }
    if l.client.Some? {
      MergeSectionKeepsPlain(if h.client.Some? then h.client.value else map[], l.client.value);
    }
  }

  lemma {:induction false} FoldKeepsPlain(ps: seq<Policy>)
    requires AllPlain(ps)
    requires Fold(ps).Ok?
    ensures PlainPolicy(Fold(ps).value)
  {
    if ps != [] {
      FoldKeepsPlain(ps[..|ps| - 1]);
      MergePolicyKeepsPlain(Fold(ps[..|ps| - 1]).value, ps[|ps| - 1]);
    }
  }

  /** A chain of policies may be merged in two groups split anywhere: the
      outcome, failure included, is that of merging one after another. */
  lemma {:induction false} FoldRegroups(xs: seq<Policy>, ys: seq<Policy>)
    requires AllPlain(ys)
    ensures Fold(xs + ys) == MergeResults(Fold(xs), Fold(ys))
    decreases |ys|
  {
    if ys == [] {
      assert xs + ys == xs;
      if Fold(xs).Ok? {
        MergePolicyIdentity(Fold(xs).value);
      }
    } else {
      var front, last := ys[..|ys| - 1], ys[|ys| - 1];
      assert (xs + ys)[..|xs + ys| - 1] == xs + front;
      assert (xs + ys)[|xs + ys| - 1] == last;
      FoldRegroups(xs, front);
      if Fold(xs).Ok? && Fold(front).Ok? {
        FoldKeepsPlain(front);
        MergePolicyAssociative(Fold(xs).value, Fold(front).value, last);
      }
    }
  }

  /** Whatever respects the folded policy in a field respects every policy on
      the chain there whose own list is plain, and the first one in any case: a
      policy can only be weakened by its own repeats, never by its neighbours. */
  lemma {:induction false} FoldTightens(ps: seq<Policy>, m: Metadata, i: nat, side: Side, f: Field)
    requires i < |ps| && Fold(ps).Ok?
    requires FieldRespected(Fold(ps).value, m, side, f)
    requires PlainAt(ps[i], side, f) || i == 0
    ensures FieldRespected(ps[i], m, side, f)
  {
    var front, last := ps[..|ps| - 1], ps[|ps| - 1];
    MergePolicyTightens(Fold(front).value, last, m, side, f);
    if i < |front| {
      FoldTightens(front, m, i, side, f);
    }
  }

  /** The folded policy admits exactly the metadata that every policy on the
      chain admits. */
  lemma {:induction false} FoldIsConjunction(ps: seq<Policy>, m: Metadata)
    requires forall i :: 0 < i < |ps| ==> PlainValues(ps[i])
    requires Fold(ps).Ok?
    ensures PolicySatisfied(Fold(ps).value, m) <==> forall i :: 0 <= i < |ps| ==> PolicySatisfied(ps[i], m)
  {
    if |ps| == 1 {
      MergePolicyIdentity(ps[0]);
      assert ps[..0] == [];
    } else if ps != [] {
      var front := ps[..|ps| - 1];
      FoldIsConjunction(front, m);
      MergePolicyConjunction(Fold(front).value, ps[|ps| - 1], m);
      assert forall i :: 0 <= i < |front| ==> front[i] == ps[i];
    }
  }
}
