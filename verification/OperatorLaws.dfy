/** Laws of the operator algebra: what Apply guarantees, that Merge is the
    conjunction of two policies, and exactly when Merge is associative. */
module OperatorLaws {
  import opened Wrappers
  import opened Lists
  import opened Operators

  /** The declarative meaning of an operator set: `r` is an admissible final
      value. Lists are compared as sets of members. */
  predicate Satisfies(k: Kind, o: Ops, r: Value) {
    && ValueHolds(k, o.value, r)
    && AddHolds(o.add, r)
    && OneOfHolds(o.oneOf, r)
    && SubsetHolds(k, o.subsetOf, r)
    && SupersetHolds(k, o.supersetOf, r)
    && (o.default != Absent || o.essential ==> r != Absent)
  }

  predicate ValueHolds(k: Kind, value: Option<Value>, r: Value) {
    value.Some? ==> SameMembers(k, value.value, r)
  }

  predicate AddHolds(add: Value, r: Value) {
    add != Absent ==> add.Set() <= r.Set()
  }

  predicate OneOfHolds(oneOf: Option<seq<Value>>, r: Value) {
    oneOf.Some? ==> r in oneOf.value
  }

  predicate SubsetHolds(k: Kind, subsetOf: Value, r: Value) {
    subsetOf != Absent ==> IsSubset(k, r, subsetOf)
  }

  predicate SupersetHolds(k: Kind, supersetOf: Value, r: Value) {
    supersetOf != Absent ==> IsSubset(k, supersetOf, r)
  }

  predicate SameMembers(k: Kind, a: Value, b: Value) {
    if k.IsSlice() then a.Set() == b.Set() else a == b
  }

  /** `value` and `default` lists without repeated entries. */
  predicate PlainLists(k: Kind, o: Ops) {
    k.IsSlice() ==>
      && NoRepeats(o.default.Items())
      && (o.value.Some? ==> NoRepeats(o.value.value.Items()))
  }

  /** A `value` list without repeated entries. */
  predicate PlainValue(k: Kind, o: Ops) {
    k.IsSlice() && o.value.Some? ==> NoRepeats(o.value.value.Items())
  }

  // ----- Apply -----

  /** Whatever a valid operator set lets through satisfies it. */
  lemma ApplySatisfies(k: Kind, o: Ops, v: Value)
    requires Valid(k, o)
    requires Apply(k, o, v).Ok?
    ensures Satisfies(k, o, Apply(k, o, v).value)
  {
    if o.add != Absent {
      DedupFacts(ApplyValue(o, v).Items() + o.add.Items());
    }
  }

  /** Apply is idempotent, for every operator set: valid or not. */
  lemma ApplyIdempotent(k: Kind, o: Ops, v: Value)
    requires Apply(k, o, v).Ok?
    ensures Apply(k, o, Apply(k, o, v).value) == Apply(k, o, v)
  {
    var r := Apply(k, o, v).value;
    if o.value.None? && o.add != Absent {
      var all := v.Items() + o.add.Items();
      DedupFacts(all);
      assert r == List(Dedup(all));
      DedupOntoAppend([], r.items, o.add.Items());
      DedupFacts(r.items);
      assert forall x :: x in o.add.Items() ==> x in all && x in Members(all);
      DedupOntoAbsorbs(r.items, o.add.Items());
    }
  }

  /** Apply refines Satisfies: a value passes unchanged exactly when it already
      satisfies the operators in the form Apply would have produced. */
  lemma AppliedUnchangedIffSatisfies(k: Kind, o: Ops, v: Value)
    requires Valid(k, o)
    ensures Apply(k, o, v) == Ok(v) <==>
            && Satisfies(k, o, v)
            && (o.value.Some? ==> v == o.value.value)
            && (o.add != Absent ==> v.List? && NoRepeats(v.items))
  {
    if Apply(k, o, v) == Ok(v) {
      ApplySatisfies(k, o, v);
      if o.add != Absent {
        DedupFacts(ApplyValue(o, v).Items() + o.add.Items());
      }
    } else if o.add != Absent && v.List? && NoRepeats(v.items) && o.add.Set() <= v.Set() {
      DedupOntoAppend([], v.items, o.add.Items());
      DedupFacts(v.items);
      assert forall x :: x in o.add.Items() ==> x in o.add.Set();
      DedupOntoAbsorbs(v.items, o.add.Items());
    }
  }

  /** A valid operator set that carries `add` or `default` always yields a value
      for an absent parameter; without them it does so exactly when its checks
      accept the fixed value, or the absence. */
  lemma ApplyToAbsent(k: Kind, o: Ops)
    requires Valid(k, o)
    ensures o.add != Absent || o.default != Absent ==>
              Apply(k, o, Absent).Ok? && Apply(k, o, Absent).value != Absent
    ensures o.add == Absent && o.default == Absent ==>
              (Apply(k, o, Absent).Ok? <==> PassesChecks(k, o, ApplyValue(o, Absent)))
  {
    assert [] + o.add.Items() == o.add.Items();
    DedupFacts(o.add.Items());
    var v := ApplyValue(o, Absent);
    if o.add != Absent {
      assert v == Absent;
      assert ApplyAdd(k, o, v) == Ok(List(Dedup(o.add.Items())));
    } else {
      assert ApplyAdd(k, o, v) == Ok(v);
    }
  }

  // ----- Merge is conjunction -----

  /** What satisfies a merged operator set satisfies the higher side, whatever
      the lower side is: nobody below can loosen an operator. It satisfies the
      lower side too when that side's own `value` list has no repeats. */
  lemma MergeTightens(k: Kind, h: Ops, l: Ops, r: Value)
    requires Merge(k, h, l).Ok?
    requires Satisfies(k, Merge(k, h, l).value, r)
    ensures Satisfies(k, h, r)
    ensures PlainValue(k, l) ==> Satisfies(k, l, r)
  {
    MergeValueConjunction(k, h.value, l.value, r);
    MergeAddConjunction(k, h.add, l.add, r);
    MergeOneOfConjunction(k, h.oneOf, l.oneOf, r);
    MergeSubsetOfConjunction(k, h.subsetOf, l.subsetOf, r);
    MergeSupersetOfConjunction(k, h.supersetOf, l.supersetOf, r);
  }

  /** What satisfies both sides satisfies their merge, without any condition. */
  lemma MergeAdmits(k: Kind, h: Ops, l: Ops, r: Value)
    requires Merge(k, h, l).Ok?
    requires Satisfies(k, h, r) && Satisfies(k, l, r)
    ensures Satisfies(k, Merge(k, h, l).value, r)
  {
    MergeAddConjunction(k, h.add, l.add, r);
    MergeOneOfConjunction(k, h.oneOf, l.oneOf, r);
    MergeSubsetOfConjunction(k, h.subsetOf, l.subsetOf, r);
    MergeSupersetOfConjunction(k, h.supersetOf, l.supersetOf, r);
  }

  /** A merged operator set admits exactly the values both sides admit, so a
      lower authority can only tighten what a higher one imposes. */
  lemma MergeIsConjunction(k: Kind, h: Ops, l: Ops, r: Value)
    requires Merge(k, h, l).Ok?
    requires PlainValue(k, l)
    ensures Satisfies(k, Merge(k, h, l).value, r) <==> Satisfies(k, h, r) && Satisfies(k, l, r)
  {
    if Satisfies(k, Merge(k, h, l).value, r) {
      MergeTightens(k, h, l, r);
    } else if Satisfies(k, h, r) && Satisfies(k, l, r) {
      MergeAdmits(k, h, l, r);
    }
  }

  lemma MergeValueConjunction(k: Kind, h: Option<Value>, l: Option<Value>, r: Value)
    requires MergeValue(k, h, l).Ok?
    ensures ValueHolds(k, MergeValue(k, h, l).value, r) ==> ValueHolds(k, h, r)
    ensures (l.Some? && k.IsSlice() ==> NoRepeats(l.value.Items())) ==>
              (ValueHolds(k, MergeValue(k, h, l).value, r) <==> ValueHolds(k, h, r) && ValueHolds(k, l, r))
  {
    if h.Some? && l.Some? && (k.IsSlice() ==> NoRepeats(l.value.Items())) {
      CompareMeansSameMembers(k, h.value, l.value);
    }
  }

  lemma MergeAddConjunction(k: Kind, h: Value, l: Value, r: Value)
    requires MergeUnion(k, h, l).Ok?
    ensures AddHolds(MergeUnion(k, h, l).value, r) <==> AddHolds(h, r) && AddHolds(l, r)
  {
    UnionMembers(h, l);
  }

  lemma MergeSupersetOfConjunction(k: Kind, h: Value, l: Value, r: Value)
    requires MergeUnion(k, h, l).Ok?
    ensures SupersetHolds(k, MergeUnion(k, h, l).value, r) <==> SupersetHolds(k, h, r) && SupersetHolds(k, l, r)
  {
    MergeAddConjunction(k, h, l, r);
  }

  lemma MergeSubsetOfConjunction(k: Kind, h: Value, l: Value, r: Value)
    requires MergeSubsetOf(k, h, l).Ok?
    ensures SubsetHolds(k, MergeSubsetOf(k, h, l).value, r) <==> SubsetHolds(k, h, r) && SubsetHolds(k, l, r)
  {
    KeepMembers(l.Items(), h.Items());
  }

  lemma MergeOneOfConjunction(k: Kind, h: Option<seq<Value>>, l: Option<seq<Value>>, r: Value)
    requires MergeOneOf(k, h, l).Ok?
    ensures OneOfHolds(MergeOneOf(k, h, l).value, r) <==> OneOfHolds(h, r) && OneOfHolds(l, r)
  {
    if h.Some? && l.Some? {
      KeepMember(l.value, h.value, r);
    }
  }

  lemma UnionMembers(a: Value, b: Value)
    ensures Members(Dedup(a.Items() + b.Items())) == a.Set() + b.Set()
  {
    DedupFacts(a.Items() + b.Items());
    assert Members(a.Items() + b.Items()) == a.Set() + b.Set();
  }

  lemma CompareMeansSameMembers(k: Kind, a: Value, b: Value)
    requires Compare(k, a, b)
    requires k.IsSlice() ==> NoRepeats(b.Items())
    ensures SameMembers(k, a, b)
    ensures k.IsSlice() ==> NoRepeats(a.Items())
  {
    if k.IsSlice() {
      MembersCount(a.Items());
      MembersCount(b.Items());
      SubsetCount(b.Set(), a.Set());
    }
  }

  /** Merging keeps `value` and `default` free of repeats. */
  lemma MergeKeepsPlainLists(k: Kind, h: Ops, l: Ops)
    requires Merge(k, h, l).Ok?
    requires PlainLists(k, h) && PlainLists(k, l)
    ensures PlainLists(k, Merge(k, h, l).value)
  {
  }

  // ----- Merge and grouping -----

  function MergeLeft(k: Kind, a: Ops, b: Ops, c: Ops): Result<Ops> {
    var m :- Merge(k, a, b);
    Merge(k, m, c)
  }

  function MergeRight(k: Kind, a: Ops, b: Ops, c: Ops): Result<Ops> {
    var m :- Merge(k, b, c);
    Merge(k, a, m)
  }

  lemma MergeIdentity(k: Kind, o: Ops)
    ensures Merge(k, NO_OPS, o) == Ok(o) && Merge(k, o, NO_OPS) == Ok(o)
  {
  }

  function Then<T>(r: Result<T>, f: T -> Result<T>): Result<T> {
    var x :- r;
    f(x)
  }

  lemma MergeValueAssociative(k: Kind, a: Option<Value>, b: Option<Value>, c: Option<Value>)
    requires b.Some? && k.IsSlice() ==> NoRepeats(b.value.Items())
    ensures Then(MergeValue(k, a, b), m => MergeValue(k, m, c)) == Then(MergeValue(k, b, c), m => MergeValue(k, a, m))
  {
    if a.Some? && b.Some? && Compare(k, a.value, b.value) {
      CompareMeansSameMembers(k, a.value, b.value);
    }
  }

  lemma MergeDefaultAssociative(k: Kind, a: Value, b: Value, c: Value)
    requires k.IsSlice() ==> NoRepeats(b.Items())
    ensures Then(MergeDefault(k, a, b), m => MergeDefault(k, m, c)) == Then(MergeDefault(k, b, c), m => MergeDefault(k, a, m))
  {
    if Compare(k, a, b) {
      CompareMeansSameMembers(k, a, b);
    }
  }

  lemma MergeUnionAssociative(k: Kind, a: Value, b: Value, c: Value)
    ensures Then(MergeUnion(k, a, b), m => MergeUnion(k, m, c)) == Then(MergeUnion(k, b, c), m => MergeUnion(k, a, m))
  {
    DedupAssociative(a.Items(), b.Items(), c.Items());
  }

  lemma MergeSubsetOfAssociative(k: Kind, a: Value, b: Value, c: Value)
    ensures Then(MergeSubsetOf(k, a, b), m => MergeSubsetOf(k, m, c)) == Then(MergeSubsetOf(k, b, c), m => MergeSubsetOf(k, a, m))
  {
    KeepAssociative(a.Items(), b.Items(), c.Items());
    KeepEmpty(a.Items(), b.Items(), c.Items());
  }

  lemma MergeOneOfAssociative(k: Kind, a: Option<seq<Value>>, b: Option<seq<Value>>, c: Option<seq<Value>>)
    ensures Then(MergeOneOf(k, a, b), m => MergeOneOf(k, m, c)) == Then(MergeOneOf(k, b, c), m => MergeOneOf(k, a, m))
  {
    if a.Some? && b.Some? && c.Some? {
      KeepAssociative(a.value, b.value, c.value);
      KeepEmpty(a.value, b.value, c.value);
    }
  }

  /** An empty pairwise intersection makes the triple intersection empty. */
  lemma KeepEmpty<T>(a: seq<T>, b: seq<T>, c: seq<T>)
    ensures Keep(Keep(c, b), a) != [] ==> Keep(b, a) != [] && Keep(c, b) != []
  {
    if Keep(Keep(c, b), a) != [] {
      var x := Keep(Keep(c, b), a)[0];
      KeepMember(Keep(c, b), a, x);
      KeepMember(c, b, x);
      KeepMember(b, a, x);
    }
  }

  /** A three-way merge, grouped either way, merges operator by operator. */
  lemma MergeLeftParts(k: Kind, a: Ops, b: Ops, c: Ops)
    ensures MergeLeft(k, a, b, c) == Assemble(
      Then(MergeValue(k, a.value, b.value), m => MergeValue(k, m, c.value)),
      Then(MergeUnion(k, a.add, b.add), m => MergeUnion(k, m, c.add)),
      Then(MergeDefault(k, a.default, b.default), m => MergeDefault(k, m, c.default)),
      Then(MergeOneOf(k, a.oneOf, b.oneOf), m => MergeOneOf(k, m, c.oneOf)),
      Then(MergeSubsetOf(k, a.subsetOf, b.subsetOf), m => MergeSubsetOf(k, m, c.subsetOf)),
      Then(MergeUnion(k, a.supersetOf, b.supersetOf), m => MergeUnion(k, m, c.supersetOf)),
      a.essential || b.essential || c.essential)
  {
  }

  lemma MergeRightParts(k: Kind, a: Ops, b: Ops, c: Ops)
    ensures MergeRight(k, a, b, c) == Assemble(
      Then(MergeValue(k, b.value, c.value), m => MergeValue(k, a.value, m)),
      Then(MergeUnion(k, b.add, c.add), m => MergeUnion(k, a.add, m)),
      Then(MergeDefault(k, b.default, c.default), m => MergeDefault(k, a.default, m)),
      Then(MergeOneOf(k, b.oneOf, c.oneOf), m => MergeOneOf(k, a.oneOf, m)),
      Then(MergeSubsetOf(k, b.subsetOf, c.subsetOf), m => MergeSubsetOf(k, a.subsetOf, m)),
      Then(MergeUnion(k, b.supersetOf, c.supersetOf), m => MergeUnion(k, a.supersetOf, m)),
      a.essential || b.essential || c.essential)
  {
  }

  /** Grouping cannot change the outcome of a merge, failures included, when the
      middle operand's `value` and `default` have no repeats. */
  lemma MergeAssociative(k: Kind, a: Ops, b: Ops, c: Ops)
    requires PlainLists(k, b)
    ensures MergeLeft(k, a, b, c) == MergeRight(k, a, b, c)
  {
    MergeLeftParts(k, a, b, c);
    MergeRightParts(k, a, b, c);
    MergeValueAssociative(k, a.value, b.value, c.value);
    MergeUnionAssociative(k, a.add, b.add, c.add);
    MergeDefaultAssociative(k, a.default, b.default, c.default);
    MergeOneOfAssociative(k, a.oneOf, b.oneOf, c.oneOf);
    MergeSubsetOfAssociative(k, a.subsetOf, b.subsetOf, c.subsetOf);
    MergeUnionAssociative(k, a.supersetOf, b.supersetOf, c.supersetOf);
  }

  /** The no-repeats condition is exact: a middle operand associates with every
      pair of neighbours if and only if its lists have no repeats. */
  lemma MergeAssociativeExactly(k: Kind, b: Ops)
    ensures PlainLists(k, b) <==> forall a, c :: MergeLeft(k, a, b, c) == MergeRight(k, a, b, c)
  {
    if PlainLists(k, b) {
      forall a, c ensures MergeLeft(k, a, b, c) == MergeRight(k, a, b, c) {
        MergeAssociative(k, a, b, c);
      }
    } else if b.value.Some? && !NoRepeats(b.value.value.Items()) {
      var x, z := RepeatWitness(b.value.value.items);
      var a, c := NO_OPS.(value := Some(List(x))), NO_OPS.(value := Some(List(z)));
      assert MergeLeft(k, a, b, c) != MergeRight(k, a, b, c);
    } else {
      var x, z := RepeatWitness(b.default.items);
      var a, c := NO_OPS.(default := List(x)), NO_OPS.(default := List(z));
      assert MergeLeft(k, a, b, c) != MergeRight(k, a, b, c);
    }
  }

  /** For a list with a repeat there is a list `x` that compares equal to it but
      has one more member, and a list `z` that tells the two apart. */
  lemma RepeatWitness(y: seq<Atom>) returns (x: seq<Atom>, z: seq<Atom>)
    requires !NoRepeats(y)
    ensures Compare(ListKind, List(x), List(y)) && Members(x) != Members(y)
    ensures Compare(ListKind, List(x), List(z)) && !Compare(ListKind, List(y), List(z))
  {
    var i, j :| 0 <= i < j < |y| && y[i] == y[j];
    var novel := FreshAtom(y);
    x := y[j := novel];
    z := seq(|y|, _ => novel);
    assert x[j] == novel && z[0] == novel;
    forall a | a in y ensures a in x {
      var n :| 0 <= n < |y| && y[n] == a;
      assert x[if n == j then i else n] == a;
    }
    assert forall a :: a in z ==> a == novel;
    assert novel in Members(x) && novel !in Members(y) && novel in Members(z);
  }

  /** The comparison behind `value` and `default` merging means "same members"
      for every high-side list exactly when the low-side list has no repeats. */
  lemma CompareExactly(y: seq<Atom>)
    ensures NoRepeats(y) <==>
            forall x :: Compare(ListKind, List(x), List(y)) ==> Members(x) == Members(y)
  {
    if NoRepeats(y) {
      forall x | Compare(ListKind, List(x), List(y)) ensures Members(x) == Members(y) {
        CompareMeansSameMembers(ListKind, List(x), List(y));
      }
    } else {
      var x, _ := RepeatWitness(y);
    }
  }

  /** A valid low-side operator set is respected by every merge it takes part in
      exactly when its `value` list has no repeats. */
  lemma MergeTightensExactly(k: Kind, l: Ops)
    requires Valid(k, l)
    ensures PlainValue(k, l) <==>
            forall h, r :: Merge(k, h, l).Ok? && Satisfies(k, Merge(k, h, l).value, r) ==> Satisfies(k, l, r)
  {
    if PlainValue(k, l) {
      forall h, r | Merge(k, h, l).Ok? && Satisfies(k, Merge(k, h, l).value, r) ensures Satisfies(k, l, r) {
        MergeTightens(k, h, l, r);
      }
    } else {
      var x, _ := RepeatWitness(l.value.value.items);
      LoosenedBy(k, l, x);
    }
  }

  /** A `value` list with a repeat gives way to a higher list that only looks
      equal to it: the merge succeeds, stays valid and admits that list. */
  lemma LoosenedBy(k: Kind, l: Ops, x: seq<Atom>)
    requires k.IsSlice() && Valid(k, l) && l.value.Some?
    requires Compare(k, List(x), l.value.value) && Members(x) != l.value.value.Set()
    ensures var h := NO_OPS.(value := Some(List(x)));
            && Merge(k, h, l) == Ok(l.(value := h.value)) && Valid(k, l.(value := h.value))
            && Satisfies(k, l.(value := h.value), List(x)) && !Satisfies(k, l, List(x))
  {
  }

  lemma FreshAtom(s: seq<Atom>) returns (novel: Atom)
    ensures novel !in s
    ensures forall a :: a in s ==> |a| < |novel|
  {
    if s == [] {
      novel := "x";
    } else {
      var rest := FreshAtom(s[1..]);
      novel := if |s[0]| < |rest| then rest else s[0] + "x";
    }
  }
}
