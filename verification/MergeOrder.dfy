/** Merging sections and policies as it runs: the fields of a section are merged
    in the order of its struct, the provider's section before the client's, and
    the first failure decides between an error and a panic. */
module MergeOrder {
  import opened Wrappers
  import opened Lists
  import opened Operators
  import opened OperatorPanics
  import opened Policies

  /** The fields of the two sections in the order of their structs. */
  datatype FieldOrder = FieldOrder(provider: seq<Field>, client: seq<Field>)

  predicate Covers(order: seq<Field>, s: Section) {
    NoRepeats(order) && forall f :: f in s ==> f in order
  }

  predicate CoversPolicy(order: FieldOrder, p: Policy) {
    && (p.provider.Some? ==> Covers(order.provider, p.provider.value))
    && (p.client.Some? ==> Covers(order.client, p.client.value))
  }

  predicate FieldPanics(h: Section, l: Section, f: Field) {
    MergePanics(f.kind, OpsAt(h, f), OpsAt(l, f))
  }

  function MergedField(h: Section, l: Section, f: Field): Result<Ops> {
    MergeOps(f, OpsAt(h, f), OpsAt(l, f))
  }

  /** The first field that fails to merge panics. */
  predicate SectionPanics(order: seq<Field>, h: Section, l: Section) {
    exists i :: 0 <= i < |order| && FieldPanics(h, l, order[i]) &&
      forall j :: 0 <= j < i ==> MergedField(h, l, order[j]).Ok?
  }

  predicate OptionalPanics(order: seq<Field>, h: Option<Section>, l: Option<Section>) {
    l.Some? && SectionPanics(order, if h.Some? then h.value else map[], l.value)
  }

  predicate PolicyPanics(order: FieldOrder, h: Policy, l: Policy) {
    || OptionalPanics(order.provider, h.provider, l.provider)
    || (MergeOptional(h.provider, l.provider).Ok? && OptionalPanics(order.client, h.client, l.client))
  }

  /** Where the code panics the merged section does not exist. */
  lemma PanicIsFailure(order: seq<Field>, h: Section, l: Section)
    requires SectionPanics(order, h, l)
    ensures MergeSection(h, l).Err?
  {
    var i :| 0 <= i < |order| && FieldPanics(h, l, order[i]);
    var f := order[i];
    assert MergedField(h, l, f).Err?;
    assert f in h.Keys + l.Keys;
  }

  /** Merging one section, field by field in order. */
  method MergeFields(order: seq<Field>, h: Section, l: Section) returns (r: Outcome<Section>)
    requires Covers(order, h) && Covers(order, l)
    ensures r.Panicked? <==> SectionPanics(order, h, l)
    ensures r.Returned? ==> r.result == MergeSection(h, l)
  {
    hide MergedField, FieldPanics, MergeSection;
    var out: Section := map[];
    for i := 0 to |order|
      invariant forall j :: 0 <= j < i ==> MergedField(h, l, order[j]).Ok?
      invariant out.Keys == set f | f in h.Keys + l.Keys && f in order[..i]
      invariant forall f :: f in out ==> MergedField(h, l, f) == Ok(out[f])
    {
      var f := order[i];
      assert order[..i + 1] == order[..i] + [f];
      var merged := MergeField(h, l, f);
      if merged.Panicked? {
        return Panicked;
      }
      if merged.result.Err? {
        FirstFailure(order, h, l, i);
        FieldFails(h, l, f);
        return Returned(Err);
      }
      if f in h || f in l {
        out := out[f := merged.result.value];
      }
    }
    NoFailure(order, h, l);
    assert order[..|order|] == order;
    AllMerged(h, l, out);
    return Returned(Ok(out));
  }

  method MergeField(h: Section, l: Section, f: Field) returns (r: Outcome<Ops>)
    ensures r.Panicked? <==> FieldPanics(h, l, f)
    ensures r.Returned? ==> r.result == MergedField(h, l, f)
  {
    r := MergeOperators(f.kind, OpsAt(h, f), OpsAt(l, f));
  }

  lemma FieldFails(h: Section, l: Section, f: Field)
    requires MergedField(h, l, f).Err?
    ensures MergeSection(h, l).Err?
  {
    assert f in h.Keys + l.Keys;
  }

  lemma AllMerged(h: Section, l: Section, out: Section)
    requires out.Keys == h.Keys + l.Keys && forall f :: f in out ==> MergedField(h, l, f) == Ok(out[f])
    ensures MergeSection(h, l) == Ok(out)
  {
    assert forall f :: f in out ==> MergeOps(f, OpsAt(h, f), OpsAt(l, f)) == Ok(out[f]);
    assert MergeSection(h, l).Ok?;
    assert MergeSection(h, l).value == out;
  }

  /** A first failure that is an error is not a panic. */
  lemma FirstFailure(order: seq<Field>, h: Section, l: Section, i: nat)
    requires i < |order| && !FieldPanics(h, l, order[i])
    requires MergedField(h, l, order[i]).Err?
    requires forall j :: 0 <= j < i ==> MergedField(h, l, order[j]).Ok?
    ensures !SectionPanics(order, h, l)
  {
    forall k | 0 <= k < |order| && FieldPanics(h, l, order[k]) ensures k > i {
      PanicFails(h, l, order[k]);
    }
  }

  lemma NoFailure(order: seq<Field>, h: Section, l: Section)
    requires forall j :: 0 <= j < |order| ==> MergedField(h, l, order[j]).Ok?
    ensures !SectionPanics(order, h, l)
  {
    forall k | 0 <= k < |order| ensures !FieldPanics(h, l, order[k]) {
      if FieldPanics(h, l, order[k]) { PanicFails(h, l, order[k]); }
    }
  }

  lemma PanicFails(h: Section, l: Section, f: Field)
    requires FieldPanics(h, l, f)
    ensures MergedField(h, l, f).Err?
  {
  }

  method MergeOptionalFields(order: seq<Field>, h: Option<Section>, l: Option<Section>) returns (r: Outcome<Option<Section>>)
    requires (h.Some? ==> Covers(order, h.value)) && (l.Some? ==> Covers(order, l.value))
    ensures r.Panicked? <==> OptionalPanics(order, h, l)
    ensures r.Returned? ==> r.result == MergeOptional(h, l)
  {
    if l.None? {
      return Returned(Ok(h));
    }
    var merged := MergeFields(order, if h.Some? then h.value else map[], l.value);
    if merged.Panicked? {
      return Panicked;
    }
    return Returned(if merged.result.Err? then Err else Ok(Some(merged.result.value)));
  }

  /** `metadataPolicy.Merge`: panics exactly when the first field that fails,
      the provider's fields first, panics; otherwise merges as the algebra says. */
  method MergePolicies(order: FieldOrder, h: Policy, l: Policy) returns (r: Outcome<Policy>)
    requires CoversPolicy(order, h) && CoversPolicy(order, l)
    ensures r.Panicked? <==> PolicyPanics(order, h, l)
    ensures r.Returned? ==> r.result == MergePolicy(h, l)
    ensures r.Returned? && r.result.Ok? ==> CoversPolicy(order, r.result.value)
  {
    var provider := MergeOptionalFields(order.provider, h.provider, l.provider);
    if provider.Panicked? {
      return Panicked;
    }
    if provider.result.Err? {
      OptionalFails(order.provider, h.provider, l.provider);
      return Returned(Err);
    }
    var client := MergeOptionalFields(order.client, h.client, l.client);
    if client.Panicked? {
      return Panicked;
    }
    if client.result.Err? {
      return Returned(Err);
    }
    return Returned(Ok(Policy(provider.result.value, client.result.value)));
  }

  lemma OptionalFails(order: seq<Field>, h: Option<Section>, l: Option<Section>)
    ensures OptionalPanics(order, h, l) ==> MergeOptional(h, l).Err?
  {
    if OptionalPanics(order, h, l) {
      PanicIsFailure(order, if h.Some? then h.value else map[], l.value);
    }
  }

  lemma PolicyPanicFails(order: FieldOrder, h: Policy, l: Policy)
    ensures PolicyPanics(order, h, l) ==> MergePolicy(h, l).Err?
  {
    OptionalFails(order.provider, h.provider, l.provider);
    OptionalFails(order.client, h.client, l.client);
  }

  // ----- an input -----

  const CONTACTS := Field("contacts", ListKind)
  const ONE_CONTACT := NO_OPS.(oneOf := Some([List(["a"])]))

  /** A client policy that leaves one choice of contacts, merged with itself. */
  const CONTACTS_POLICY := Policy(None, Some(map[CONTACTS := ONE_CONTACT]))

  lemma ContactsPanic()
    ensures ValidPolicy(CONTACTS_POLICY) && CoversPolicy(FieldOrder([], [CONTACTS]), CONTACTS_POLICY)
    ensures PolicyPanics(FieldOrder([], [CONTACTS]), CONTACTS_POLICY, CONTACTS_POLICY)
  {
    var s: Section := map[CONTACTS := ONE_CONTACT];
    PanicsWithItself(ListKind, ONE_CONTACT);
    assert FieldPanics(s, s, [CONTACTS][0]);
    assert SectionPanics([CONTACTS], s, s);
  }
}
