/** Merging operators as it runs, panics included, and what validation asks of
    `add` next to `superset_of`. */
module OperatorPanics {
  import opened Wrappers
  import opened Lists
  import opened Operators
  import opened OperatorLaws

  /** `intersectSlices` on alternatives: each one is used as a map key, which
      panics when it is a slice, also when the map is still empty. */
  method IntersectAlternatives(k: Kind, high: seq<Value>, low: seq<Value>) returns (r: Outcome<seq<Value>>)
    ensures r.Panicked? <==> k.IsSlice() && (high != [] || low != [])
    ensures r.Returned? ==> r.result == Ok(Keep(low, high))
  {
    var unique: set<Value> := {};
    for i := 0 to |high|
      invariant i > 0 ==> !k.IsSlice()
      invariant unique == Members(high[..i])
    {
      if k.IsSlice() {
        return Panicked;
      }
      unique := unique + {high[i]};
      assert high[..i + 1] == high[..i] + [high[i]];
    }
    assert high[..|high|] == high;
    var result: seq<Value> := [];
    for i := 0 to |low|
      invariant i > 0 ==> !k.IsSlice()
      invariant result == Keep(low[..i], high)
    {
      if k.IsSlice() {
        return Panicked;
      }
      assert low[..i + 1] == low[..i] + [low[i]];
      KeepAppend(low[..i], low[i], high);
      if low[i] in unique {
        result := result + [low[i]];
      }
    }
    assert low[..|low|] == low;
    return Returned(Ok(result));
  }

  /** Both sides limit a list-typed parameter to alternatives, of which there is
      at least one, and nothing merged before them is in conflict. */
  predicate MergePanics(k: Kind, h: Ops, l: Ops) {
    && k.IsSlice() && h.oneOf.Some? && l.oneOf.Some? && (h.oneOf.value != [] || l.oneOf.value != [])
    && MergeValue(k, h.value, l.value).Ok? && MergeUnion(k, h.add, l.add).Ok? && MergeDefault(k, h.default, l.default).Ok?
  }

  /** `metadataOperators.Merge`, operator by operator: it panics exactly then,
      and otherwise returns what the operator algebra says. */
  method MergeOperators(k: Kind, h: Ops, l: Ops) returns (r: Outcome<Ops>)
    ensures r.Panicked? <==> MergePanics(k, h, l)
    ensures r.Returned? ==> r.result == Merge(k, h, l)
  {
    var high := h;
    var value := MergeValue(k, h.value, l.value);
    if value.Err? { return Returned(Err); }
    high := high.(value := value.value);
    var add := MergeUnion(k, h.add, l.add);
    if add.Err? { return Returned(Err); }
    high := high.(add := add.value);
    var default := MergeDefault(k, h.default, l.default);
    if default.Err? { return Returned(Err); }
    high := high.(default := default.value);
    if h.oneOf.None? {
      high := high.(oneOf := l.oneOf);
    } else if l.oneOf.Some? {
      var both := IntersectAlternatives(k, h.oneOf.value, l.oneOf.value);
      if both.Panicked? { return Panicked; }
      if both.result.value == [] { return Returned(Err); }
      high := high.(oneOf := Some(both.result.value));
    }
    var subsetOf := MergeSubsetOf(k, h.subsetOf, l.subsetOf);
    if subsetOf.Err? { return Returned(Err); }
    high := high.(subsetOf := subsetOf.value);
    var supersetOf := MergeUnion(k, h.supersetOf, l.supersetOf);
    if supersetOf.Err? { return Returned(Err); }
    high := high.(supersetOf := supersetOf.value, essential := h.essential || l.essential);
    return Returned(Ok(high));
  }

  /** Every valid operator set with alternatives for a list-typed parameter
      panics when it is merged with itself, unless it admits nothing at all. */
  lemma PanicsWithItself(k: Kind, o: Ops)
    requires k.IsSlice() && Valid(k, o) && o.oneOf.Some?
    ensures MergePanics(k, o, o) <==> o.oneOf.value != []
    ensures Valid(k, NO_OPS.(oneOf := Some([List(["a"])])))
  {
  }

  /** `add` next to `superset_of` is valid exactly when it covers it. A set that
      is refused for that reason is not contradictory: whoever already has the
      required members could have them extended, and both operators would hold. */
  lemma AddMustCover(k: Kind, add: seq<Atom>, required: seq<Atom>)
    requires k.IsSlice()
    ensures var o := NO_OPS.(add := List(add), supersetOf := List(required));
            && (Valid(k, o) <==> Members(required) <= Members(add))
            && Apply(k, o, List(required)).Ok? && Satisfies(k, o, Apply(k, o, List(required)).value)
    ensures !Valid(k, NO_OPS.(add := List(["a"]), supersetOf := List(["b"])))
  {
    DedupFacts(required + add);
    assert Members(required + add) == Members(required) + Members(add);
    assert "b" in Members(["b"]) && "b" !in Members(["a"]);
  }
}
