/** Metadata policies: the operator algebra lifted to whole metadata records.
    A policy section has one operator set per metadata field; the roughly
    seventy struct fields are the keys of a map, where a missing key is the
    zero operator set, and likewise a missing record key is a zero value. */
module Policies {
  import opened Wrappers
  import opened Operators
  import opened OperatorLaws

  datatype Field = Field(name: string, kind: Kind)
  type Section = map<Field, Ops>
  type Record = map<Field, Value>

  datatype Side = ProviderSide | ClientSide

  datatype Policy = Policy(provider: Option<Section>, client: Option<Section>) {
    function On(side: Side): Option<Section> {
      if side.ProviderSide? then provider else client
    }
  }

  datatype Metadata = Metadata(provider: Option<Record>, client: Option<Record>) {
    function On(side: Side): Option<Record> {
      if side.ProviderSide? then provider else client
    }
  }

  const NO_POLICY := Policy(None, None)

  function OpsAt(s: Section, f: Field): Ops {
    if f in s then s[f] else NO_OPS
  }

  function ValueAt(r: Record, f: Field): Value {
    if f in r then r[f] else Absent
  }

  /** What a policy sees of a stored parameter: `strings.Fields` turns an absent
      scope into an empty, non-nil list. */
  function Load(k: Kind, v: Value): Value {
    if k.TokenKind? && v == Absent then List([]) else v
  }

  /** `strings.Join` stores a list without entries as an absent scope. */
  function Store(k: Kind, v: Value): Value {
    if k.TokenKind? && v == List([]) then Absent else v
  }

  // ----- Validate, Merge and Apply of one section -----

  predicate ValidSection(s: Section) {
    forall f :: f in s ==> Valid(f.kind, s[f])
  }

  function MergeOps(f: Field, h: Ops, l: Ops): Result<Ops> {
    Merge(f.kind, h, l)
  }

  /** Field-by-field merge with `merge` as the operator merge. */
  function MergeWith(merge: (Field, Ops, Ops) -> Result<Ops>, h: Section, l: Section): Result<Section> {
    var fields := h.Keys + l.Keys;
    if forall f :: f in fields ==> merge(f, OpsAt(h, f), OpsAt(l, f)).Ok? then
      Ok(map f | f in fields :: merge(f, OpsAt(h, f), OpsAt(l, f)).value)
    else Err
  }

  function MergeSection(h: Section, l: Section): Result<Section> {
    MergeWith(MergeOps, h, l)
  }

  function ApplyField(s: Section, r: Record, f: Field): Result<Value> {
    var v :- Apply(f.kind, OpsAt(s, f), Load(f.kind, ValueAt(r, f)));
    Ok(Store(f.kind, v))
  }

  function ApplySection(s: Section, r: Record): Result<Record> {
    if forall f :: f in s ==> ApplyField(s, r, f).Ok? then
      Ok(map f | f in s.Keys + r.Keys :: if f in s then ApplyField(s, r, f).value else r[f])
    else Err
  }

  // ----- whole policies -----

  predicate ValidPolicy(p: Policy) {
    && (p.provider.Some? ==> ValidSection(p.provider.value))
    && (p.client.Some? ==> ValidSection(p.client.value))
  }

  function MergeOptional(h: Option<Section>, l: Option<Section>): Result<Option<Section>> {
    if l.None? then Ok(h)
    else
      var merged :- MergeSection(if h.Some? then h.value else map[], l.value);
      Ok(Some(merged))
  }

  function MergePolicy(h: Policy, l: Policy): Result<Policy> {
    var provider :- MergeOptional(h.provider, l.provider);
    var client :- MergeOptional(h.client, l.client);
    Ok(Policy(provider, client))
  }

  function ApplyOptional(p: Option<Section>, r: Option<Record>): Result<Option<Record>> {
    if p.None? || r.None? then Ok(r)
    else
      var applied :- ApplySection(p.value, r.value);
      Ok(Some(applied))
  }

  function ApplyPolicy(p: Policy, m: Metadata): Result<Metadata> {
    var provider :- ApplyOptional(p.provider, m.provider);
    var client :- ApplyOptional(p.client, m.client);
    Ok(Metadata(provider, client))
  }

  // ----- what policies guarantee -----

  predicate FieldSatisfied(s: Section, r: Record, f: Field) {
    Satisfies(f.kind, OpsAt(s, f), Load(f.kind, ValueAt(r, f)))
  }

  /** Every field of the section, in a record that has the section at all. */
  predicate SectionSatisfied(s: Option<Section>, r: Option<Record>) {
    s.Some? && r.Some? ==> forall f :: f in s.value ==> FieldSatisfied(s.value, r.value, f)
  }

  predicate PolicySatisfied(p: Policy, m: Metadata) {
    SectionSatisfied(p.provider, m.provider) && SectionSatisfied(p.client, m.client)
  }

  predicate PlainSection(s: Section) {
    forall f :: f in s ==> PlainLists(f.kind, s[f])
  }

  predicate PlainPolicy(p: Policy) {
    && (p.provider.Some? ==> PlainSection(p.provider.value))
    && (p.client.Some? ==> PlainSection(p.client.value))
  }

  /** One field of one section, in metadata that has the section. */
  predicate FieldRespected(p: Policy, m: Metadata, side: Side, f: Field) {
    p.On(side).Some? && m.On(side).Some? && f in p.On(side).value ==>
      FieldSatisfied(p.On(side).value, m.On(side).value, f)
  }

  lemma PolicySatisfiedByField(p: Policy, m: Metadata)
    ensures PolicySatisfied(p, m) <==> forall side, f :: FieldRespected(p, m, side, f)
  {
    forall side, f ensures
      FieldRespected(p, m, side, f) <==>
      (p.On(side).Some? && m.On(side).Some? && f in p.On(side).value ==>
         FieldSatisfied(p.On(side).value, m.On(side).value, f))
    {
    }
    assert PolicySatisfied(p, m) <==>
           SectionSatisfied(p.On(ProviderSide), m.On(ProviderSide)) && SectionSatisfied(p.On(ClientSide), m.On(ClientSide));
  }

  /** The `value` list a policy gives a field has no repeats. */
  predicate PlainAt(p: Policy, side: Side, f: Field) {
    p.On(side).Some? && f in p.On(side).value ==> PlainValue(f.kind, p.On(side).value[f])
  }

  ghost predicate PlainValues(p: Policy) {
    forall side, f :: PlainAt(p, side, f)
  }

  /** Storing a result and reading it back keeps it admissible. */
  lemma StoredSatisfies(k: Kind, o: Ops, v: Value)
    requires Valid(k, o)
    requires Apply(k, o, Load(k, v)).Ok?
    ensures Satisfies(k, o, Load(k, Store(k, Apply(k, o, Load(k, v)).value)))
  {
    ApplySatisfies(k, o, Load(k, v));
  }

  /** Every field of a valid section is satisfied after Apply. */
  lemma ApplySectionSatisfies(s: Section, r: Record)
    requires ValidSection(s)
    requires ApplySection(s, r).Ok?
    ensures SectionSatisfied(Some(s), Some(ApplySection(s, r).value))
  {
    var out := ApplySection(s, r).value;
    forall f | f in s ensures FieldSatisfied(s, out, f) {
      assert ApplyField(s, r, f).Ok?;
      StoredSatisfies(f.kind, s[f], ValueAt(r, f));
      assert ValueAt(out, f) == ApplyField(s, r, f).value;
    }
  }

  lemma ApplyPolicySatisfies(p: Policy, m: Metadata)
    requires ValidPolicy(p)
    requires ApplyPolicy(p, m).Ok?
    ensures PolicySatisfied(p, ApplyPolicy(p, m).value)
  {
    if p.provider.Some? && m.provider.Some? {
      ApplySectionSatisfies(p.provider.value, m.provider.value);
    }
    if p.client.Some? && m.client.Some? {
      ApplySectionSatisfies(p.client.value, m.client.value);
    }
  }

  /** Merging is field by field. */
  lemma MergedAt(h: Policy, l: Policy, side: Side, f: Field)
    requires MergePolicy(h, l).Ok?
    ensures var m := MergePolicy(h, l).value;
            && (m.On(side).Some? <==> h.On(side).Some? || l.On(side).Some?)
            && (m.On(side).Some? ==> (f in m.On(side).value <==>
                  (h.On(side).Some? && f in h.On(side).value) || (l.On(side).Some? && f in l.On(side).value)))
            && Merge(f.kind, OpsOn(h, side, f), OpsOn(l, side, f)) == Ok(OpsOn(m, side, f))
  {
    var m := MergePolicy(h, l).value;
    if l.On(side).Some? {
      var high := if h.On(side).Some? then h.On(side).value else map[];
      assert m.On(side) == MergeOptional(h.On(side), l.On(side)).value;
      assert MergeSection(high, l.On(side).value) == Ok(m.On(side).value);
      if f in high.Keys + l.On(side).value.Keys {
        assert MergeOps(f, OpsAt(high, f), OpsAt(l.On(side).value, f)).Ok?;
      } else {
        MergeIdentity(f.kind, NO_OPS);
      }
    } else {
      MergeIdentity(f.kind, OpsOn(h, side, f));
    }
  }

  function OpsOn(p: Policy, side: Side, f: Field): Ops {
    if p.On(side).Some? then OpsAt(p.On(side).value, f) else NO_OPS
  }

  /** Respecting a field is satisfying the operators there, if the section is
      present; a field without operators is satisfied by anything. */
  lemma RespectedMeans(p: Policy, m: Metadata, side: Side, f: Field)
    ensures FieldRespected(p, m, side, f) <==>
            (m.On(side).Some? ==> Satisfies(f.kind, OpsOn(p, side, f), Load(f.kind, ValueAt(m.On(side).value, f))))
  {
  }

  /** Whatever respects a merged policy in a field respects the higher policy
      there, unconditionally, and the lower one if its own list is plain. */
  lemma MergePolicyTightens(h: Policy, l: Policy, m: Metadata, side: Side, f: Field)
    requires MergePolicy(h, l).Ok?
    requires FieldRespected(MergePolicy(h, l).value, m, side, f)
    ensures FieldRespected(h, m, side, f)
    ensures PlainAt(l, side, f) || OpsOn(h, side, f) == NO_OPS ==> FieldRespected(l, m, side, f)
  {
    var merged := MergePolicy(h, l).value;
    MergedAt(h, l, side, f);
    RespectedMeans(h, m, side, f);
    RespectedMeans(l, m, side, f);
    RespectedMeans(merged, m, side, f);
    MergeIdentity(f.kind, OpsOn(l, side, f));
    if m.On(side).Some? {
      MergeTightens(f.kind, OpsOn(h, side, f), OpsOn(l, side, f), Load(f.kind, ValueAt(m.On(side).value, f)));
    }
  }

  /** Whatever respects both policies in a field respects their merge there. */
  lemma MergePolicyAdmits(h: Policy, l: Policy, m: Metadata, side: Side, f: Field)
    requires MergePolicy(h, l).Ok?
    requires FieldRespected(h, m, side, f) && FieldRespected(l, m, side, f)
    ensures FieldRespected(MergePolicy(h, l).value, m, side, f)
  {
    var merged := MergePolicy(h, l).value;
    MergedAt(h, l, side, f);
    RespectedMeans(h, m, side, f);
    RespectedMeans(l, m, side, f);
    RespectedMeans(merged, m, side, f);
    if m.On(side).Some? {
      MergeAdmits(f.kind, OpsOn(h, side, f), OpsOn(l, side, f), Load(f.kind, ValueAt(m.On(side).value, f)));
    }
  }

  /** Merging policies imposes exactly the two policies' requirements. */
  lemma MergePolicyConjunction(h: Policy, l: Policy, m: Metadata)
    requires MergePolicy(h, l).Ok?
    requires PlainValues(l)
    ensures PolicySatisfied(MergePolicy(h, l).value, m) <==> PolicySatisfied(h, m) && PolicySatisfied(l, m)
  {
    var merged := MergePolicy(h, l).value;
    PolicySatisfiedByField(h, m);
    PolicySatisfiedByField(l, m);
    PolicySatisfiedByField(merged, m);
    forall side, f
      ensures FieldRespected(merged, m, side, f) <==> FieldRespected(h, m, side, f) && FieldRespected(l, m, side, f)
    {
      assert PlainAt(l, side, f);
      if FieldRespected(merged, m, side, f) {
        MergePolicyTightens(h, l, m, side, f);
      } else if FieldRespected(h, m, side, f) && FieldRespected(l, m, side, f) {
        MergePolicyAdmits(h, l, m, side, f);
      }
    }
  }
}
