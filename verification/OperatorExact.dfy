/** Operators by their operands: when an operator set is valid, what Apply makes of
    a value, when two sets merge and what each merged operator is, written out in
    members and entries without the functions that compute them. */
module OperatorExact {
  import opened Wrappers
  import opened Lists
  import opened Operators

  // ----- Validate -----

  /** Which operators may stand together, and how their lists must lie. */
  lemma ValidByOperands(k: Kind, o: Ops)
    ensures Valid(k, o) <==>
            && (o.value.Some? ==> o.add == o.default == o.subsetOf == o.supersetOf == Absent && o.oneOf.None?)
            && (o.oneOf.Some? ==> o.add == o.subsetOf == o.supersetOf == Absent)
            && (k == ScalarKind ==> o.add == o.subsetOf == o.supersetOf == Absent)
            && (o.oneOf.Some? && o.default != Absent ==> o.default in o.oneOf.value)
            && (forall x :: o.subsetOf != Absent && (x in o.add.Set() || x in o.supersetOf.Set()) ==> x in o.subsetOf.Set())
            && (forall x :: o.subsetOf != Absent && o.default != Absent && x in o.default.Set() ==> x in o.subsetOf.Set())
            && (forall x :: o.add != Absent && x in o.supersetOf.Set() ==> x in o.add.Set())
            && (forall x :: o.default != Absent && x in o.supersetOf.Set() ==> x in o.default.Set())
  {
    assert Absent.Set() == {};
  }

  // ----- Apply -----

  /** The value that is checked in the end: the fixed value; or what was there,
      extended by `add`; or the default for an absent parameter; or what was there. */
  ghost predicate Proposes(k: Kind, o: Ops, v: Value, r: Value) {
    if o.value.Some? then r == o.value.value
    else if o.add != Absent then
      && r.List? && NoRepeats(r.items)
      && (forall x :: x in r.items <==> x in v.Items() || x in o.add.Items())
      && (NoRepeats(v.Items()) ==> v.Items() <= r.items)
    else if v == Absent then r == o.default
    else r == v
  }

  /** The checks on it. */
  ghost predicate Admits(k: Kind, o: Ops, r: Value) {
    && (o.oneOf.Some? ==> exists i :: 0 <= i < |o.oneOf.value| && o.oneOf.value[i] == r)
    && (o.subsetOf != Absent ==> forall x :: x in r.Items() ==> x in o.subsetOf.Items())
    && (o.supersetOf != Absent ==> forall x :: x in o.supersetOf.Items() ==> x in r.Items())
    && (o.essential ==> r != Absent)
  }

  /** Apply yields a proposed value that is admitted, and fails exactly when no
      proposed value is. A value that is present is never replaced by `default`,
      and none of its members is lost to `add`. */
  lemma ApplyByOperands(k: Kind, o: Ops, v: Value)
    requires Valid(k, o)
    ensures Apply(k, o, v).Ok? ==> Proposes(k, o, v, Apply(k, o, v).value) && Admits(k, o, Apply(k, o, v).value)
    ensures Apply(k, o, v).Err? ==> forall r :: Proposes(k, o, v, r) ==> !Admits(k, o, r)
  {
    if o.value.None? && o.add != Absent {
      var all := v.Items() + o.add.Items();
      DedupFacts(all);
      DedupOntoAppend([], v.Items(), o.add.Items());
      DedupFacts(v.Items());
      OntoExtends(Dedup(v.Items()), o.add.Items());
      var r := List(Dedup(all));
      assert forall x :: x in r.items <==> x in Members(r.items);
      assert forall x :: x in all <==> x in Members(all);
      assert ApplyAdd(k, o, v) == Ok(r);
      ChecksByOperands(k, o, r);
      forall q | Proposes(k, o, v, q) ensures Admits(k, o, q) <==> Admits(k, o, r) {
        SameMembersSameChecks(k, o, q, r);
      }
    } else {
      var r := ApplyDefault(o, ApplyValue(o, v));
      ChecksByOperands(k, o, r);
    }
  }

  lemma {:induction false} OntoExtends<T>(s: seq<T>, t: seq<T>)
    ensures s <= DedupOnto(s, t)
    decreases |t|
  {
    if t != [] {
      OntoExtends(if t[0] in s then s else s + [t[0]], t[1..]);
    }
  }

  lemma ChecksByOperands(k: Kind, o: Ops, r: Value)
    requires Valid(k, o)
    ensures PassesChecks(k, o, r) <==> Admits(k, o, r)
  {
    assert forall x :: x in r.Items() <==> x in r.Set();
    assert forall x :: x in o.subsetOf.Items() <==> x in o.subsetOf.Set();
    assert forall x :: x in o.supersetOf.Items() <==> x in o.supersetOf.Set();
  }

  lemma SameMembersSameChecks(k: Kind, o: Ops, q: Value, r: Value)
    requires o.oneOf.None? && q.List? && r.List? && forall x :: x in q.items <==> x in r.items
    ensures Admits(k, o, q) <==> Admits(k, o, r)
  {
  }

  /** A valid operator set lets some value through, unless it fixes an absent value
      that must be present or offers no alternative that may stand. */
  lemma ValidIsSatisfiable(k: Kind, o: Ops)
    requires Valid(k, o)
    ensures (exists v :: Apply(k, o, v).Ok?) <==>
            if o.value.Some? then o.essential ==> o.value.value != Absent
            else if o.oneOf.Some? then exists x :: x in o.oneOf.value && (o.essential ==> x != Absent)
            else true
  {
    if o.value.Some? {
      assert Apply(k, o, Absent).Ok? <==> (o.essential ==> o.value.value != Absent);
    } else if o.oneOf.Some? {
      forall x | x in o.oneOf.value && (o.essential ==> x != Absent) ensures Apply(k, o, x).Ok? {
      }
      forall v | Apply(k, o, v).Ok? ensures Apply(k, o, v).value in o.oneOf.value && (o.essential ==> Apply(k, o, v).value != Absent) {
      }
    } else {
      var v := if o.supersetOf != Absent then o.supersetOf else if k == ScalarKind then Scalar("x") else List([]);
      ApplyByOperands(k, o, v);
      MeetsItself(k, o, v);
    }
  }

  lemma MeetsItself(k: Kind, o: Ops, v: Value)
    requires Valid(k, o) && o.value.None? && o.oneOf.None?
    requires v == if o.supersetOf != Absent then o.supersetOf else if k == ScalarKind then Scalar("x") else List([])
    ensures Apply(k, o, v).Ok?
  {
    var r := if o.add == Absent then v else List(Dedup(v.Items() + o.add.Items()));
    assert ApplyAdd(k, o, v) == Ok(r) && ApplyDefault(o, r) == r;
    OperandsAdmit(k, o, v, r);
    ChecksByOperands(k, o, r);
  }

  lemma OperandsAdmit(k: Kind, o: Ops, v: Value, r: Value)
    requires Valid(k, o) && o.value.None? && o.oneOf.None?
    requires v == if o.supersetOf != Absent then o.supersetOf else if k == ScalarKind then Scalar("x") else List([])
    requires r == if o.add == Absent then v else List(Dedup(v.Items() + o.add.Items()))
    ensures Admits(k, o, r)
  {
    ValidByOperands(k, o);
    hide Valid;
    if o.add != Absent {
      DedupOntoMembers([], v.Items() + o.add.Items());
    }
    assert forall a: Value, x :: x in a.Items() <==> x in a.Set();
  }

  // ----- Merge -----

  /** Two fixed or default values that merge. */
  ghost predicate Agree(k: Kind, a: Value, b: Value) {
    if k == ScalarKind then a == b
    else |a.Items()| == |b.Items()| && forall x :: x in b.Items() ==> x in a.Items()
  }

  /** What two operator sets must have in common to be merged. */
  ghost predicate Mergeable(k: Kind, h: Ops, l: Ops) {
    && (h.value.Some? && l.value.Some? ==> Agree(k, h.value.value, l.value.value))
    && (h.default != Absent && l.default != Absent ==> Agree(k, h.default, l.default))
    && (h.add != Absent && l.add != Absent ==> k != ScalarKind)
    && (h.supersetOf != Absent && l.supersetOf != Absent ==> k != ScalarKind)
    && (h.subsetOf != Absent && l.subsetOf != Absent ==>
          k != ScalarKind && exists x :: x in h.subsetOf.Items() && x in l.subsetOf.Items())
    && (h.oneOf.Some? && l.oneOf.Some? ==> k == ScalarKind && exists x :: x in h.oneOf.value && x in l.oneOf.value)
  }

  /** A merge succeeds exactly then. */
  lemma MergeSucceedsExactly(k: Kind, h: Ops, l: Ops)
    ensures Merge(k, h, l).Ok? <==> Mergeable(k, h, l)
  {
    if h.value.Some? && l.value.Some? { CompareByEntries(k, h.value.value, l.value.value); }
    CompareByEntries(k, h.default, l.default);
    CommonEntries(h.subsetOf.Items(), l.subsetOf.Items());
    if h.oneOf.Some? && l.oneOf.Some? { CommonEntries(h.oneOf.value, l.oneOf.value); }
  }

  lemma CompareByEntries(k: Kind, a: Value, b: Value)
    ensures Compare(k, a, b) <==> Agree(k, a, b)
  {
    assert forall x :: x in a.Items() <==> x in a.Set();
    assert forall x :: x in b.Items() <==> x in b.Set();
  }

  lemma CommonEntries<T>(h: seq<T>, l: seq<T>)
    ensures Keep(l, h) != [] <==> exists x :: x in h && x in l
  {
    if Keep(l, h) != [] {
      KeepMember(l, h, Keep(l, h)[0]);
    }
    if x :| x in h && x in l {
      KeepMember(l, h, x);
    }
  }

  /** The entries of both lists, each once, the higher list's first. */
  ghost predicate UnionOf(h: Value, l: Value, m: Value) {
    if h == Absent then m == l
    else if l == Absent then m == h
    else
      && m.List? && NoRepeats(m.items)
      && (forall x :: x in m.items <==> x in h.Items() || x in l.Items())
      && (NoRepeats(h.Items()) ==> h.Items() <= m.items)
  }

  /** `m` consists of the entries of `l` that occur in `h`, in place. */
  ghost predicate Selects<T(!new)>(h: seq<T>, l: seq<T>, m: seq<T>) {
    exists at: seq<nat> :: Selection(h, l, m, at)
  }

  predicate Selection<T(==)>(h: seq<T>, l: seq<T>, m: seq<T>, at: seq<nat>) {
    && |at| == |m|
    && (forall j :: 0 <= j < |at| ==> at[j] < |l| && m[j] == l[at[j]])
    && (forall i, j :: 0 <= i < j < |at| ==> at[i] < at[j])
    && (forall i :: 0 <= i < |l| ==> (l[i] in h <==> i in at))
  }

  lemma {:induction false} KeepSelects<T>(h: seq<T>, l: seq<T>) returns (at: seq<nat>)
    ensures Selection(h, l, Keep(l, h), at)
    decreases |l|
  {
    if l == [] {
      at := [];
    } else {
      var n := |l| - 1;
      var front, x := l[..n], l[n];
      at := KeepSelects(h, front);
      assert l == front + [x];
      KeepAppend(front, x, h);
      assert forall i :: 0 <= i < n ==> front[i] == l[i];
      if x in h {
        var longer := at + [n];
        assert forall i :: 0 <= i < n ==> (i in longer <==> i in at);
        assert longer[|at|] == n;
        at := longer;
      }
    }
  }

  ghost predicate CommonOf(h: Value, l: Value, m: Value) {
    if h == Absent then m == l
    else if l == Absent then m == h
    else m.List? && Selects(h.Items(), l.Items(), m.items)
  }

  /** What each merged operator is: the higher `value` and `default` win, `add` and
      `superset_of` are united, of `subset_of` and `one_of` the lower side's common
      entries remain, and `essential` holds if either side says so. */
  lemma MergedOperators(k: Kind, h: Ops, l: Ops)
    requires Merge(k, h, l).Ok?
    ensures var m := Merge(k, h, l).value;
            && m.value == (if h.value.Some? then h.value else l.value)
            && m.default == (if h.default != Absent then h.default else l.default)
            && UnionOf(h.add, l.add, m.add) && UnionOf(h.supersetOf, l.supersetOf, m.supersetOf)
            && CommonOf(h.subsetOf, l.subsetOf, m.subsetOf)
            && (if h.oneOf.None? then m.oneOf == l.oneOf else if l.oneOf.None? then m.oneOf == h.oneOf
                else m.oneOf.Some? && Selects(h.oneOf.value, l.oneOf.value, m.oneOf.value))
            && (m.essential <==> h.essential || l.essential)
  {
    UnionByEntries(k, h.add, l.add);
    UnionByEntries(k, h.supersetOf, l.supersetOf);
    var at := KeepSelects(h.subsetOf.Items(), l.subsetOf.Items());
    if h.oneOf.Some? && l.oneOf.Some? {
      var bt := KeepSelects(h.oneOf.value, l.oneOf.value);
    }
  }

  lemma UnionByEntries(k: Kind, h: Value, l: Value)
    requires MergeUnion(k, h, l).Ok?
    ensures UnionOf(h, l, MergeUnion(k, h, l).value)
  {
    var all := h.Items() + l.Items();
    DedupFacts(all);
    DedupFacts(h.Items());
    DedupOntoAppend([], h.Items(), l.Items());
    OntoExtends(Dedup(h.Items()), l.Items());
    assert forall x :: x in Dedup(all) <==> x in Members(Dedup(all));
    assert forall x :: x in all <==> x in Members(all);
  }
}
