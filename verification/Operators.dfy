/** The seven metadata policy operators of OpenID Federation 1.0, section 6.1.3,
    as implemented by `metadataOperators`: Validate, Apply and Merge for one
    metadata parameter, with the slice helpers they use. */
module Operators {
  import opened Wrappers
  import opened Lists

  type Atom = string

  /** Go types of metadata parameters. `TokenKind` is the `scope` parameter, a
      space-separated string that policies see as a list. */
  datatype Kind = ScalarKind | ListKind | TokenKind {
    predicate IsSlice() { !ScalarKind? }
  }

  /** `Absent` is the Go zero value: an empty scalar or a nil slice. A non-nil
      empty slice is `List([])`, which is a value that is set. */
  datatype Value = Absent | Scalar(atom: Atom) | List(items: seq<Atom>) {
    function Items(): seq<Atom> {
      if List? then items else []
    }

    function Set(): set<Atom> {
      Members(Items())
    }
  }

  datatype Ops = Ops(
    value: Option<Value>,
    add: Value,
    default: Value,
    oneOf: Option<seq<Value>>,
    subsetOf: Value,
    supersetOf: Value,
    essential: bool)

  const NO_OPS := Ops(None, Absent, Absent, None, Absent, Absent, false)

  // ----- slice helpers -----

  /** `isSubset`: false unless both sides are slices. */
  predicate IsSubset(k: Kind, sub: Value, super: Value) {
    k.IsSlice() && sub.Set() <= super.Set()
  }

  function MergeLists(k: Kind, a: Value, b: Value): Result<Value> {
    if k.IsSlice() then Ok(List(Dedup(a.Items() + b.Items()))) else Err
  }

  /** `intersectSlices` followed by the rejection of an empty result. */
  function IntersectLists(k: Kind, a: Value, b: Value): Result<Value> {
    if !k.IsSlice() || Keep(b.Items(), a.Items()) == [] then Err
    else Ok(List(Keep(b.Items(), a.Items())))
  }

  /** `compare`: slices agree when they have the same length and every entry of
      the second occurs in the first; other values when they are equal. */
  predicate Compare(k: Kind, a: Value, b: Value) {
    if k.IsSlice() then |a.Items()| == |b.Items()| && b.Set() <= a.Set()
    else a == b
  }

  // ----- Validate -----

  predicate Valid(k: Kind, o: Ops) {
    && (o.supersetOf != Absent ==> k.IsSlice())
    && (o.subsetOf != Absent ==>
          && k.IsSlice()
          && (o.supersetOf != Absent ==> IsSubset(k, o.supersetOf, o.subsetOf)))
    && (o.oneOf.Some? ==> o.subsetOf == Absent && o.supersetOf == Absent)
    && (o.default != Absent ==>
          && (o.oneOf.Some? ==> o.default in o.oneOf.value)
          && (o.subsetOf != Absent ==> IsSubset(k, o.default, o.subsetOf))
          && (o.supersetOf != Absent ==> IsSubset(k, o.supersetOf, o.default)))
    && (o.add != Absent ==>
          && k.IsSlice()
          && o.oneOf.None?
          && (o.subsetOf != Absent ==> IsSubset(k, o.add, o.subsetOf))
          && (o.supersetOf != Absent ==> IsSubset(k, o.supersetOf, o.add)))
    && (o.value.Some? ==>
          && o.add == Absent && o.default == Absent && o.oneOf.None?
          && o.subsetOf == Absent && o.supersetOf == Absent)
  }

  // ----- Apply -----

  function ApplyValue(o: Ops, v: Value): Value {
    if o.value.Some? then o.value.value else v
  }

  function ApplyAdd(k: Kind, o: Ops, v: Value): Result<Value> {
    if o.add == Absent then Ok(v) else MergeLists(k, v, o.add)
  }

  function ApplyDefault(o: Ops, v: Value): Value {
    if o.default != Absent && v == Absent then o.default else v
  }

  predicate PassesChecks(k: Kind, o: Ops, v: Value) {
    && (o.oneOf.Some? ==> v in o.oneOf.value)
    && (o.subsetOf != Absent ==> IsSubset(k, v, o.subsetOf))
    && (o.supersetOf != Absent ==> IsSubset(k, o.supersetOf, v))
    && (o.essential ==> v != Absent)
  }

  function Apply(k: Kind, o: Ops, v: Value): Result<Value> {
    var added :- ApplyAdd(k, o, ApplyValue(o, v));
    var r := ApplyDefault(o, added);
    if PassesChecks(k, o, r) then Ok(r) else Err
  }

  // ----- Merge -----

  /** `mergeValue`: the high value wins, a different low value is an error. */
  function MergeValue(k: Kind, h: Option<Value>, l: Option<Value>): Result<Option<Value>> {
    if h.None? then Ok(l)
    else if l.None? then Ok(h)
    else if Compare(k, h.value, l.value) then Ok(h)
    else Err
  }

  function MergeDefault(k: Kind, h: Value, l: Value): Result<Value> {
    if h == Absent then Ok(l)
    else if l == Absent then Ok(h)
    else if Compare(k, h, l) then Ok(h)
    else Err
  }

  /** `mergeAdd` and `mergeSupersetOf`. */
  function MergeUnion(k: Kind, h: Value, l: Value): Result<Value> {
    if h == Absent then Ok(l)
    else if l == Absent then Ok(h)
    else MergeLists(k, h, l)
  }

  function MergeSubsetOf(k: Kind, h: Value, l: Value): Result<Value> {
    if h == Absent then Ok(l)
    else if l == Absent then Ok(h)
    else IntersectLists(k, h, l)
  }

  /** `mergeOneOf`: the alternatives are used as map keys, so on slice-typed
      parameters two set operators never merge (the original panics). */
  function MergeOneOf(k: Kind, h: Option<seq<Value>>, l: Option<seq<Value>>): Result<Option<seq<Value>>> {
    if h.None? then Ok(l)
    else if l.None? then Ok(h)
    else if k.IsSlice() || Keep(l.value, h.value) == [] then Err
    else Ok(Some(Keep(l.value, h.value)))
  }

  function Merge(k: Kind, h: Ops, l: Ops): Result<Ops> {
    Assemble(
      MergeValue(k, h.value, l.value),
      MergeUnion(k, h.add, l.add),
      MergeDefault(k, h.default, l.default),
      MergeOneOf(k, h.oneOf, l.oneOf),
      MergeSubsetOf(k, h.subsetOf, l.subsetOf),
      MergeUnion(k, h.supersetOf, l.supersetOf),
      h.essential || l.essential)
  }

  /** An operator set from separately merged operators; any error is an error. */
  function Assemble(
    value: Result<Option<Value>>, add: Result<Value>, default: Result<Value>,
    oneOf: Result<Option<seq<Value>>>, subsetOf: Result<Value>, supersetOf: Result<Value>,
    essential: bool): Result<Ops>
  {
    if value.Err? || add.Err? || default.Err? || oneOf.Err? || subsetOf.Err? || supersetOf.Err? then Err
    else Ok(Ops(value.value, add.value, default.value, oneOf.value, subsetOf.value, supersetOf.value, essential))
  }

  // ----- the loops of the slice helpers -----

  /** `mergeSlices`: one pass over each slice with a set of the elements seen. */
  method MergeSlices(slice1: seq<Atom>, slice2: seq<Atom>) returns (result: seq<Atom>)
    ensures result == Dedup(slice1 + slice2)
    ensures NoRepeats(result) && Members(result) == Members(slice1) + Members(slice2)
  {
    result := [];
    var unique: set<Atom> := {};
    for i := 0 to |slice1|
      invariant unique == Members(result)
      invariant result == Dedup(slice1[..i])
    {
      DedupOntoAppend([], slice1[..i], [slice1[i]]);
      assert slice1[..i + 1] == slice1[..i] + [slice1[i]];
      assert [slice1[i]][1..] == [];
      if slice1[i] !in unique {
        unique := unique + {slice1[i]};
        result := result + [slice1[i]];
      }
    }
    assert slice1[..|slice1|] == slice1 == slice1 + slice2[..0];
    for i := 0 to |slice2|
      invariant unique == Members(result)
      invariant result == Dedup(slice1 + slice2[..i])
    {
      DedupOntoAppend([], slice1 + slice2[..i], [slice2[i]]);
      assert slice1 + slice2[..i + 1] == (slice1 + slice2[..i]) + [slice2[i]];
      assert [slice2[i]][1..] == [];
      if slice2[i] !in unique {
        unique := unique + {slice2[i]};
        result := result + [slice2[i]];
      }
    }
    assert slice2[..|slice2|] == slice2;
    DedupFacts(slice1 + slice2);
    assert Members(slice1 + slice2) == Members(slice1) + Members(slice2);
  }

  /** `intersectSlices`: elements of the second slice that occur in the first. */
  method IntersectSlices(slice1: seq<Atom>, slice2: seq<Atom>) returns (result: seq<Atom>)
    ensures result == Keep(slice2, slice1)
    ensures Members(result) == Members(slice1) * Members(slice2)
  {
    result := [];
    var unique: set<Atom> := {};
    for i := 0 to |slice1|
      invariant unique == Members(slice1[..i])
    {
      if slice1[i] !in unique {
        unique := unique + {slice1[i]};
      }
      assert slice1[..i + 1] == slice1[..i] + [slice1[i]];
    }
    assert slice1[..|slice1|] == slice1;
    for i := 0 to |slice2|
      invariant result == Keep(slice2[..i], slice1)
    {
      assert slice2[..i + 1] == slice2[..i] + [slice2[i]];
      KeepAppend(slice2[..i], slice2[i], slice1);
      if slice2[i] in unique {
        result := result + [slice2[i]];
      }
    }
    assert slice2[..|slice2|] == slice2;
    KeepMembers(slice2, slice1);
  }

  /** `isSubset` on slices. */
  method SubsetOfSlice(subset: seq<Atom>, superset: seq<Atom>) returns (b: bool)
    ensures b <==> Members(subset) <= Members(superset)
  {
    var all: set<Atom> := {};
    for i := 0 to |superset|
      invariant all == Members(superset[..i])
    {
      all := all + {superset[i]};
      assert superset[..i + 1] == superset[..i] + [superset[i]];
    }
    assert superset[..|superset|] == superset;
    for i := 0 to |subset|
      invariant forall j :: 0 <= j < i ==> subset[j] in all
    {
      if subset[i] !in all {
        assert subset[i] in Members(subset);
        return false;
      }
    }
    return true;
  }

  /** `compareSlices`. */
  method CompareSlices(x: seq<Atom>, y: seq<Atom>) returns (b: bool)
    ensures b <==> Compare(ListKind, List(x), List(y))
    ensures NoRepeats(y) ==> (b <==> NoRepeats(x) && Members(x) == Members(y))
  {
    MembersCount(x);
    MembersCount(y);
    if Members(y) <= Members(x) {
      SubsetCount(Members(y), Members(x));
    }
    if |x| != |y| {
      return false;
    }
    var found: set<Atom> := {};
    for i := 0 to |x|
      invariant found == Members(x[..i])
    {
      found := found + {x[i]};
      assert x[..i + 1] == x[..i] + [x[i]];
    }
    assert x[..|x|] == x;
    for i := 0 to |y|
      invariant forall j :: 0 <= j < i ==> y[j] in found
    {
      if y[i] !in found {
        assert y[i] in Members(y);
        return false;
      }
    }
    return true;
  }
}
