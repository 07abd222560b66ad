/** How deep the walk of the clone goes: a pure depth-first walk that enters each
    cell where it first meets it, and its relation to descents in general. */
module CloneDepth {
  import opened Wrappers
  import opened CloneGraph
  import opened CloneFaults

  function Height(n: int): nat {
    if n < 0 then 0 else n + 1
  }

  /** Walking through `v` with `n` more levels allowed below it: the cells met in
      the end, or nothing if some level is too deep. */
  function Walk(g: Graph, v: Val, n: int, met: set<Loc>): Option<set<Loc>>
    decreases Height(n), 0, 0
  {
    if n < 0 then None
    else
      match v
      case Ref(l) => if l in met || l !in g.cells then Some(met) else WalkAll(g, Contents(g.cells[l]), n - 1, met + {l})
      case Box(c, _) => if c.BigInt? || c.Curve? then Some(met) else Walk(g, c, n - 1, met)
      case Array(es, _) => WalkAll(g, es, n - 1, met)
      case Struct(fs, _) => WalkFields(g, fs, n - 1, met)
      case _ => Some(met)
  }

  /** One after the other, from the first to the last. */
  function WalkAll(g: Graph, vs: seq<Val>, n: int, met: set<Loc>): Option<set<Loc>>
    decreases Height(n), 2, |vs|
  {
    if vs == [] then Some(met)
    else
      var before := WalkAll(g, vs[..|vs| - 1], n, met);
      if before.None? then None else Walk(g, vs[|vs| - 1], n, before.value)
  }

  function WalkFields(g: Graph, fs: seq<Field>, n: int, met: set<Loc>): Option<set<Loc>>
    decreases Height(n), 2, |fs|
  {
    if fs == [] then Some(met)
    else
      var before := WalkFields(g, fs[..|fs| - 1], n, met);
      if before.None? then None else WalkField(g, fs[|fs| - 1], n, before.value)
  }

  /** An unexported field is looked through as a value; a cache is not. */
  function WalkField(g: Graph, f: Field, n: int, met: set<Loc>): Option<set<Loc>>
    decreases Height(n), 1, 0
  {
    match f
    case Exported(v) => Walk(g, v, n, met)
    case Hidden(v) => if HiddenDeep(v, Height(n)) then None else Some(met)
    case Cached(_) => Some(met)
  }

  // ----- prefixes -----

  lemma WalkNone(g: Graph, vs: seq<Val>, n: int, met: set<Loc>)
    ensures WalkAll(g, vs[..0], n, met) == Some(met)
  {
  }

  lemma WalkNext(g: Graph, vs: seq<Val>, i: nat, n: int, met: set<Loc>)
    requires i < |vs|
    ensures var before := WalkAll(g, vs[..i], n, met);
            WalkAll(g, vs[..i + 1], n, met) == if before.None? then None else Walk(g, vs[i], n, before.value)
  {
    assert vs[..i + 1][..i] == vs[..i];
  }

  lemma {:induction false} WalkPrefix(g: Graph, vs: seq<Val>, i: nat, n: int, met: set<Loc>)
    requires i <= |vs| && WalkAll(g, vs[..i], n, met).None?
    ensures WalkAll(g, vs, n, met).None?
    decreases |vs| - i
  {
    if i < |vs| {
      WalkNext(g, vs, i, n, met);
      WalkPrefix(g, vs, i + 1, n, met);
    } else {
      assert vs[..i] == vs;
    }
  }

  lemma WalkNoField(g: Graph, fs: seq<Field>, n: int, met: set<Loc>)
    ensures WalkFields(g, fs[..0], n, met) == Some(met)
  {
  }

  lemma WalkNextField(g: Graph, fs: seq<Field>, i: nat, n: int, met: set<Loc>)
    requires i < |fs|
    ensures var before := WalkFields(g, fs[..i], n, met);
            WalkFields(g, fs[..i + 1], n, met) == if before.None? then None else WalkField(g, fs[i], n, before.value)
  {
    assert fs[..i + 1][..i] == fs[..i];
  }

  lemma {:induction false} WalkFieldsPrefix(g: Graph, fs: seq<Field>, i: nat, n: int, met: set<Loc>)
    requires i <= |fs| && WalkFields(g, fs[..i], n, met).None?
    ensures WalkFields(g, fs, n, met).None?
    decreases |fs| - i
  {
    if i < |fs| {
      WalkNextField(g, fs, i, n, met);
      WalkFieldsPrefix(g, fs, i + 1, n, met);
    } else {
      assert fs[..i] == fs;
    }
  }

  /** Fewer levels can always be descended. */
  lemma {:induction false} HiddenDeepLess(v: Val, n: nat, fewer: nat)
    requires HiddenDeep(v, n) && fewer <= n
    ensures HiddenDeep(v, fewer)
    decreases v
  {
    if fewer > 0 {
      match v
      case Box(c, _) => HiddenDeepLess(c, n - 1, fewer - 1);
      case Array(es, _) =>
        var i :| 0 <= i < |es| && HiddenDeep(es[i], n - 1);
        HiddenDeepLess(es[i], n - 1, fewer - 1);
      case Struct(fs, _) =>
        var i :| 0 <= i < |fs| && HiddenDeep(fs[i].v, n - 1);
        HiddenDeepLess(fs[i].v, n - 1, fewer - 1);
      case _ =>
    }
  }

  // ----- walks and descents -----

  lemma {:induction false} WalkGrows(g: Graph, v: Val, n: int, met: set<Loc>)
    ensures Walk(g, v, n, met).Some? ==> met <= Walk(g, v, n, met).value
    decreases Height(n), 0, 0
  {
    if n >= 0 {
      match v
      case Ref(l) => if l !in met && l in g.cells { WalkAllGrows(g, Contents(g.cells[l]), n - 1, met + {l}); }
      case Box(c, _) => WalkGrows(g, c, n - 1, met);
      case Array(es, _) => WalkAllGrows(g, es, n - 1, met);
      case Struct(fs, _) => WalkFieldsGrows(g, fs, n - 1, met);
      case _ =>
    }
  }

  lemma {:induction false} WalkAllGrows(g: Graph, vs: seq<Val>, n: int, met: set<Loc>)
    ensures WalkAll(g, vs, n, met).Some? ==> met <= WalkAll(g, vs, n, met).value
    decreases Height(n), 2, |vs|
  {
    if vs != [] {
      var front := vs[..|vs| - 1];
      WalkAllGrows(g, front, n, met);
      if WalkAll(g, front, n, met).Some? { WalkGrows(g, vs[|vs| - 1], n, WalkAll(g, front, n, met).value); }
    }
  }

  lemma {:induction false} WalkFieldsGrows(g: Graph, fs: seq<Field>, n: int, met: set<Loc>)
    ensures WalkFields(g, fs, n, met).Some? ==> met <= WalkFields(g, fs, n, met).value
    decreases Height(n), 2, |fs|
  {
    if fs != [] {
      var front, last := fs[..|fs| - 1], fs[|fs| - 1];
      WalkFieldsGrows(g, front, n, met);
      if WalkFields(g, front, n, met).Some? && last.Exported? { WalkGrows(g, last.v, n, WalkFields(g, front, n, met).value); }
    }
  }

  /** A walk that is too deep descends too deep, without entering a cell twice. */
  lemma {:induction false} WalkTooDeep(g: Graph, v: Val, n: int, met: set<Loc>)
    requires Walk(g, v, n, met).None?
    ensures Deep(g, v, Height(n), met)
    decreases Height(n), 0, 0
  {
    if n >= 0 {
      match v
      case Ref(l) =>
        var c := WalkAllTooDeep(g, Contents(g.cells[l]), n - 1, met + {l});
      case Box(c, _) => WalkTooDeep(g, c, n - 1, met);
      case Array(es, _) =>
        var c := WalkAllTooDeep(g, es, n - 1, met);
      case Struct(fs, _) =>
        var f := WalkFieldsTooDeep(g, fs, n - 1, met);
      case _ =>
    }
  }

  lemma {:induction false} WalkAllTooDeep(g: Graph, vs: seq<Val>, n: int, met: set<Loc>) returns (c: Val)
    requires WalkAll(g, vs, n, met).None?
    ensures c in vs && Deep(g, c, Height(n), met)
    decreases Height(n), 2, |vs|
  {
    var front := vs[..|vs| - 1];
    if WalkAll(g, front, n, met).None? {
      c := WalkAllTooDeep(g, front, n, met);
    } else {
      c := vs[|vs| - 1];
      var later := WalkAll(g, front, n, met).value;
      WalkAllGrows(g, front, n, met);
      WalkTooDeep(g, c, n, later);
      DeepWithFewer(g, c, Height(n), later, met);
    }
  }

  lemma {:induction false} WalkFieldsTooDeep(g: Graph, fs: seq<Field>, n: int, met: set<Loc>) returns (f: Field)
    requires WalkFields(g, fs, n, met).None?
    ensures f in fs
    ensures (f.Exported? && Deep(g, f.v, Height(n), met)) || (f.Hidden? && HiddenDeep(f.v, Height(n)))
    decreases Height(n), 2, |fs|
  {
    var front := fs[..|fs| - 1];
    if WalkFields(g, front, n, met).None? {
      f := WalkFieldsTooDeep(g, front, n, met);
    } else {
      f := fs[|fs| - 1];
      var later := WalkFields(g, front, n, met).value;
      WalkFieldsGrows(g, front, n, met);
      if f.Exported? {
        WalkTooDeep(g, f.v, n, later);
        DeepWithFewer(g, f.v, Height(n), later, met);
      }
    }
  }

  /** Without references the walk is too deep exactly when a descent is. */
  lemma {:induction false} TreeDepthExactly(g: Graph, v: Val, n: int, met: set<Loc>)
    requires forall l :: !Leads(v, l)
    ensures Walk(g, v, n, met) == if Deep(g, v, Height(n), met) then None else Some(met)
    decreases Height(n), 0, 0
  {
    if n >= 0 {
      match v
      case Ref(l) => assert Leads(v, l);
      case Box(c, _) =>
        assert forall l :: Leads(c, l) ==> Leads(v, l);
        TreeDepthExactly(g, c, n - 1, met);
      case Array(es, _) =>
        forall i, l | 0 <= i < |es| ensures !Leads(es[i], l) { assert Leads(es[i], l) ==> Leads(v, l); }
        TreesDepthExactly(g, es, n - 1, met);
      case Struct(fs, _) =>
        forall i, l | 0 <= i < |fs| && fs[i].Exported? ensures !Leads(fs[i].v, l) { assert Leads(fs[i].v, l) ==> Leads(v, l); }
        FieldsDepthExactly(g, fs, n - 1, met);
      case _ =>
    }
  }

  lemma {:induction false} TreesDepthExactly(g: Graph, vs: seq<Val>, n: int, met: set<Loc>)
    requires forall i, l :: 0 <= i < |vs| ==> !Leads(vs[i], l)
    ensures WalkAll(g, vs, n, met) == if exists c :: c in vs && Deep(g, c, Height(n), met) then None else Some(met)
    decreases Height(n), 2, |vs|
  {
    if vs != [] {
      var front, last := vs[..|vs| - 1], vs[|vs| - 1];
      TreesDepthExactly(g, front, n, met);
      TreeDepthExactly(g, last, n, met);
      assert vs == front + [last];
      assert forall c :: c in vs <==> c in front || c == last;
    }
  }

  lemma {:induction false} FieldsDepthExactly(g: Graph, fs: seq<Field>, n: int, met: set<Loc>)
    requires forall i, l :: 0 <= i < |fs| && fs[i].Exported? ==> !Leads(fs[i].v, l)
    ensures WalkFields(g, fs, n, met) == if exists f :: f in fs && FieldDeep(g, f, n, met) then None else Some(met)
    decreases Height(n), 2, |fs|
  {
    if fs != [] {
      var front, last := fs[..|fs| - 1], fs[|fs| - 1];
      FieldsDepthExactly(g, front, n, met);
      if last.Exported? {
        assert last == fs[|fs| - 1];
        TreeDepthExactly(g, last.v, n, met);
      }
      assert FieldDeep(g, last, n, met) <==> WalkField(g, last, n, met).None?;
      assert !FieldDeep(g, last, n, met) ==> WalkField(g, last, n, met) == Some(met);
      assert fs == front + [last];
      assert forall f :: f in fs <==> f in front || f == last;
    }
  }

  ghost predicate FieldDeep(g: Graph, f: Field, n: int, met: set<Loc>) {
    (f.Exported? && Deep(g, f.v, Height(n), met)) || (f.Hidden? && HiddenDeep(f.v, Height(n)))
  }
}
