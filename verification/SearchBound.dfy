/** The depth limit and completeness: how far below the sufficient bound the
    search stops being complete. */
module SearchBound {
  import opened Wrappers
  import opened Lists
  import opened Policies
  import opened Statements
  import opened Search
  import opened SearchLaws

  const ANY_METADATA := Metadata(None, None)

  function Config(id: Id, hints: Option<seq<Id>>): Claims {
    Claims(id, id, 0, 0, hints, Some(id), ANY_METADATA, None, None, None, true, true)
  }

  function About(issuer: Id, subject: Id): Claims {
    Claims(issuer, subject, 0, 0, None, None, ANY_METADATA, None, None, None, true, true)
  }

  // ----- a line of n authorities -----

  /** Authority `i` is named by `i + 1` letters; every key set is the same. */
  function Name(i: nat): (id: Id)
    ensures |id| == i + 1 && id[0] == 'a'
  {
    seq(i + 1, _ => 'a')
  }

  function SubjectOf(i: nat): Id {
    if i == 0 then "e" else Name(i - 1)
  }

  function ConfigClaims(n: nat, i: nat): Claims
    requires i < n
  {
    Config(Name(i), if i + 1 < n then Some([Name(i + 1)]) else None)
  }

  function ConfigToken(i: nat): Signed {
    "c" + Name(i)
  }

  function StatementToken(i: nat): Signed {
    "s" + Name(i)
  }

  lemma NamesDiffer(i: nat, j: nat)
    ensures Name(i) == Name(j) ==> i == j
    ensures ConfigToken(i) == ConfigToken(j) ==> i == j
    ensures StatementToken(i) == StatementToken(j) ==> i == j
    ensures ConfigToken(i) != StatementToken(j)
    ensures ConfigToken(i) != "e" && StatementToken(i) != "e" && Name(i) != "e"
  {
    assert |Name(i)| == i + 1 && |Name(j)| == j + 1;
    assert |ConfigToken(i)| == i + 2 && |ConfigToken(j)| == j + 2;
    assert |StatementToken(i)| == i + 2 && |StatementToken(j)| == j + 2;
    assert ConfigToken(i)[0] == 'c' && StatementToken(j)[0] == 's';
  }

  /** What the federation returns for authority `i` of `n`: its configuration,
      and its statement about the entity below it. */
  predicate LineEntry(w: World, n: nat, i: nat)
    requires i < n
  {
    && Name(i) in w.configAt && w.configAt[Name(i)] == ConfigToken(i)
    && Says(w, ConfigToken(i), ConfigClaims(n, i))
    && (Name(i), SubjectOf(i)) in w.subordinateAt && w.subordinateAt[(Name(i), SubjectOf(i))] == StatementToken(i)
    && Says(w, StatementToken(i), About(Name(i), SubjectOf(i)))
  }

  predicate Says(w: World, token: Signed, claims: Claims) {
    token in w.claims && w.claims[token] == claims && (token, 0) in w.verified && token in w.acceptable
  }

  const LEAF := Statement(Config("e", Some([Name(0)])), "e")

  function Names(start: nat, n: nat): (path: seq<Id>)
    requires start <= n
    ensures |path| == n - start && forall i :: 0 <= i < |path| ==> path[i] == Name(start + i)
    decreases n - start
  {
    if start == n then [] else [Name(start)] + Names(start + 1, n)
  }

  /** A line: the leaf names authority 0, authority i names authority i + 1, and
      only the last one is trusted. */
  predicate IsLine(w: World, n: nat, depth: int) {
    && n > 0
    && (forall i: nat :: i < n ==> LineEntry(w, n, i))
    && Says(w, "e", LEAF.claims)
    && w.configAt.Keys == Members(Names(0, n))
    && w.trusted == [Name(n - 1)]
    && w.maxDepth == depth
  }

  // ----- lines exist -----

  function ClaimsUpTo(n: nat, k: nat): map<Signed, Claims>
    requires k <= n
  {
    if k == 0 then map["e" := LEAF.claims]
    else ClaimsUpTo(n, k - 1)[ConfigToken(k - 1) := ConfigClaims(n, k - 1)]
                             [StatementToken(k - 1) := About(Name(k - 1), SubjectOf(k - 1))]
  }

  lemma {:induction false} ClaimsUpToHas(n: nat, k: nat, i: nat)
    requires i < k <= n
    ensures var c := ClaimsUpTo(n, k);
            && "e" in c && c["e"] == LEAF.claims
            && ConfigToken(i) in c && c[ConfigToken(i)] == ConfigClaims(n, i)
            && StatementToken(i) in c && c[StatementToken(i)] == About(Name(i), SubjectOf(i))
  {
    NamesDiffer(i, k - 1);
    NamesDiffer(k - 1, i);
    NamesDiffer(k - 1, k - 1);
    if k > 1 {
      ClaimsUpToHas(n, k - 1, if i < k - 1 then i else 0);
    }
  }

  function ConfigsUpTo(k: nat): map<Id, Signed> {
    if k == 0 then map[] else ConfigsUpTo(k - 1)[Name(k - 1) := ConfigToken(k - 1)]
  }

  lemma {:induction false} ConfigsUpToKeys(k: nat)
    ensures ConfigsUpTo(k).Keys == Members(Names(0, k))
  {
    if k > 0 {
      ConfigsUpToKeys(k - 1);
      assert Names(0, k) == Names(0, k - 1) + [Name(k - 1)];
    }
  }

  lemma {:induction false} ConfigsUpToHas(k: nat, i: nat)
    requires i < k
    ensures Name(i) in ConfigsUpTo(k) && ConfigsUpTo(k)[Name(i)] == ConfigToken(i)
  {
    NamesDiffer(i, k - 1);
    if i < k - 1 {
      ConfigsUpToHas(k - 1, i);
    }
  }

  function StatementsUpTo(k: nat): map<(string, Id), Signed> {
    if k == 0 then map[] else StatementsUpTo(k - 1)[(Name(k - 1), SubjectOf(k - 1)) := StatementToken(k - 1)]
  }

  lemma {:induction false} StatementsUpToHas(k: nat, i: nat)
    requires i < k
    ensures (Name(i), SubjectOf(i)) in StatementsUpTo(k) && StatementsUpTo(k)[(Name(i), SubjectOf(i))] == StatementToken(i)
  {
    NamesDiffer(i, k - 1);
    if i < k - 1 {
      StatementsUpToHas(k - 1, i);
    }
  }

  function Line(n: nat, depth: int): World
    requires n > 0
  {
    var claims := ClaimsUpTo(n, n);
    World(claims, set t | t in claims.Keys :: (t, 0), claims.Keys, ConfigsUpTo(n), StatementsUpTo(n), {},
          [Name(n - 1)], depth)
  }

  lemma LineIsLine(n: nat, depth: int)
    requires n > 0
    ensures IsLine(Line(n, depth), n, depth)
  {
    var w := Line(n, depth);
    ConfigsUpToKeys(n);
    ClaimsUpToHas(n, n, 0);
    forall i: nat | i < n ensures LineEntry(w, n, i) {
      ClaimsUpToHas(n, n, i);
      ConfigsUpToHas(n, i);
      StatementsUpToHas(n, i);
    }
  }

  // ----- routes on a line -----

  function Authority(n: nat, i: nat): Statement
    requires i < n
  {
    Statement(ConfigClaims(n, i), ConfigToken(i))
  }

  function LineBelow(n: nat, i: nat): Statement
    requires i < n
  {
    if i == 0 then LEAF else Authority(n, i - 1)
  }

  lemma LineAuthority(w: World, n: nat, depth: int, i: nat)
    requires IsLine(w, n, depth) && i < n
    ensures FetchAuthority(w, Name(i)) == Ok(Authority(n, i))
  {
    assert LineEntry(w, n, i);
  }

  lemma LineLink(w: World, n: nat, depth: int, i: nat)
    requires IsLine(w, n, depth) && i < n
    ensures Link(w, LineBelow(n, i), Authority(n, i)).Ok?
  {
    assert LineEntry(w, n, i);
    if i > 0 {
      assert LineEntry(w, n, i - 1);
    }
  }

  /** From each entity of the line there is exactly one step, and only the last
      one reaches a trusted authority. */
  lemma LineStep(w: World, n: nat, depth: int, i: nat, id: Id)
    requires IsLine(w, n, depth) && i < n
    ensures StepsTo(w, LineBelow(n, i), id) <==> id == Name(i)
    ensures FetchAuthority(w, Name(i)) == Ok(Authority(n, i))
    ensures Trusted(w, Authority(n, i)) <==> i == n - 1
    ensures i == n - 1 ==> Authority(n, i).claims.authorityHints.None?
  {
    LineAuthority(w, n, depth, i);
    LineLink(w, n, depth, i);
    NamesDiffer(i, n - 1);
  }

  lemma {:induction false} LineRoute(w: World, n: nat, depth: int, start: nat)
    requires IsLine(w, n, depth) && start < n
    ensures Route(w, LineBelow(n, start), Names(start, n))
    decreases n - start
  {
    hide FetchAuthority, Link, LineEntry, Name, Route;
    LineStep(w, n, depth, start, Name(start));
    if start + 1 < n {
      LineRoute(w, n, depth, start + 1);
    }
    RouteCons(w, LineBelow(n, start), Name(start), Names(start + 1, n));
  }

  /** The only route along the line uses all of its authorities. */
  lemma {:induction false} LineRouteIsWhole(w: World, n: nat, depth: int, start: nat, path: seq<Id>)
    requires IsLine(w, n, depth) && start < n
    requires Route(w, LineBelow(n, start), path)
    ensures |path| == n - start
    decreases |path|
  {
    hide FetchAuthority, Link, LineEntry, Name;
    LineStep(w, n, depth, start, path[0]);
    if |path| > 1 && start + 1 < n {
      LineRouteIsWhole(w, n, depth, start + 1, path[1..]);
    }
  }

  /** For every number of authorities from two on, and every depth limit that
      does not exceed it, some federation has a route that the search misses:
      the bound of BuildTrustChainComplete cannot be lowered. */
  lemma DepthBoundIsExact(n: nat, depth: int) returns (w: World, entity: Statement)
    requires n >= 2
    requires depth <= n
    ensures |w.configAt.Keys - {entity.claims.subject}| == n && w.maxDepth == depth
    ensures exists path :: Route(w, entity, path) && Fresh(path, {entity.claims.subject})
    ensures BuildTrustChain(w, entity).Err?
  {
    LineIsLine(n, depth);
    w, entity := Line(n, depth), LEAF;
    LineCount(w, n, depth);
    LineRoute(w, n, depth, 0);
    if BuildTrustChain(w, entity).Ok? {
      var found := BuildTrustChainSound(w, entity);
      LineRouteIsWhole(w, n, depth, 0, found);
    }
  }

  lemma LineCount(w: World, n: nat, depth: int)
    requires IsLine(w, n, depth)
    ensures |w.configAt.Keys - {LEAF.claims.subject}| == n
    ensures Fresh(Names(0, n), {LEAF.claims.subject})
  {
    hide LineEntry, Fresh, Name;
    NamesCount(n);
  }

  // ----- hint order and the depth limit -----

  /** A line of `d` authorities below which authority 0 may also name the anchor,
      which vouches for it; the limit is `d`, and further identifiers up to `n`
      lead nowhere. */
  function Fork(n: nat, d: nat, hints: seq<Id>): World
    requires 3 <= d <= n
  {
    var claims := ClaimsUpTo(d, d)[ConfigToken(0) := ForkClaims(d, 0, hints)]["x" := About(Name(d - 1), Name(0))];
    World(claims, set t | t in claims.Keys :: (t, 0), claims.Keys, ConfigsUpTo(n),
          StatementsUpTo(d)[(Name(d - 1), Name(0)) := "x"], {}, [Name(d - 1)], d)
  }

  function ForkClaims(d: nat, i: nat, hints: seq<Id>): Claims
    requires i < d
  {
    if i == 0 then Config(Name(0), Some(hints)) else ConfigClaims(d, i)
  }

  predicate ForkEntry(w: World, d: nat, hints: seq<Id>, i: nat)
    requires i < d
  {
    && Name(i) in w.configAt && w.configAt[Name(i)] == ConfigToken(i)
    && Says(w, ConfigToken(i), ForkClaims(d, i, hints))
    && (Name(i), SubjectOf(i)) in w.subordinateAt && w.subordinateAt[(Name(i), SubjectOf(i))] == StatementToken(i)
    && Says(w, StatementToken(i), About(Name(i), SubjectOf(i)))
  }

  predicate IsFork(w: World, n: nat, d: nat, hints: seq<Id>) {
    && 3 <= d <= n && hints != []
    && (forall i: nat :: i < d ==> ForkEntry(w, d, hints, i))
    && (Name(d - 1), Name(0)) in w.subordinateAt && w.subordinateAt[(Name(d - 1), Name(0))] == "x"
    && Says(w, "x", About(Name(d - 1), Name(0)))
    && Says(w, "e", LEAF.claims)
    && w.configAt.Keys == Members(Names(0, n))
    && w.trusted == [Name(d - 1)]
    && w.maxDepth == d
  }

  lemma ForkIsFork(n: nat, d: nat, hints: seq<Id>)
    requires 3 <= d <= n && hints != []
    ensures IsFork(Fork(n, d, hints), n, d, hints)
  {
    var w := Fork(n, d, hints);
    ConfigsUpToKeys(n);
    ClaimsUpToHas(d, d, 0);
    NamesDiffer(0, 0);
    forall i: nat | i < d ensures ForkEntry(w, d, hints, i) {
      ClaimsUpToHas(d, d, i);
      ConfigsUpToHas(n, i);
      StatementsUpToHas(d, i);
      NamesDiffer(0, i);
      NamesDiffer(i, d - 1);
      NamesDiffer(d - 2, 0);
      assert ConfigToken(i)[0] == 'c' && StatementToken(i)[0] == 's';
    }
  }

  function ForkConfig(d: nat, i: nat, hints: seq<Id>): Statement
    requires i < d
  {
    Statement(ForkClaims(d, i, hints), ConfigToken(i))
  }

  function ForkBelow(d: nat, i: nat, hints: seq<Id>): Statement
    requires i < d
  {
    if i == 0 then LEAF else ForkConfig(d, i - 1, hints)
  }

  lemma ForkLinks(w: World, n: nat, d: nat, hints: seq<Id>, i: nat)
    requires IsFork(w, n, d, hints) && i < d
    ensures FetchAuthority(w, Name(i)) == Ok(ForkConfig(d, i, hints))
    ensures Link(w, ForkBelow(d, i, hints), ForkConfig(d, i, hints)).Ok?
    ensures i == d - 1 ==> Link(w, ForkConfig(d, 0, hints), ForkConfig(d, i, hints)).Ok?
    ensures Trusted(w, ForkConfig(d, i, hints)) <==> i == d - 1
  {
    assert ForkEntry(w, d, hints, i) && ForkEntry(w, d, hints, 0);
    if i > 0 {
      assert ForkEntry(w, d, hints, i - 1);
    }
    NamesDiffer(i, d - 1);
  }

  /** What one hint comes to once the authority is known and vouches. */
  lemma TryUp(w: World, entity: Statement, hint: Id, authority: Statement, visited: set<Id>)
    requires hint !in visited && FetchAuthority(w, hint) == Ok(authority) && Link(w, entity, authority).Ok?
    ensures TryHint(w, entity, hint, visited) ==
            if Trusted(w, authority) then Ok([Link(w, entity, authority).value, authority])
            else
              var rest := FromConfig(w, authority, visited + {hint});
              if rest.Err? || 1 + |rest.value| > w.maxDepth then Err else Ok([Link(w, entity, authority).value] + rest.value)
  {
  }

  /** A first hint that succeeds, or that is the only one, decides. */
  lemma FirstHint(w: World, entity: Statement, hints: seq<Id>, visited: set<Id>)
    requires entity.claims.authorityHints == Some(hints) && hints != []
    requires |hints| == 1 || TryHint(w, entity, hints[0], visited).Ok?
    ensures FromConfig(w, entity, visited) == TryHint(w, entity, hints[0], visited)
  {
    if |hints| == 1 {
      assert TryHints(w, entity, hints[1..], visited) == Err;
    }
  }

  /** Going up the line from authority `i - 1` succeeds, with all of the rest. */
  lemma {:induction false} ForkTry(w: World, n: nat, d: nat, hints: seq<Id>, i: nat, visited: set<Id>)
    requires IsFork(w, n, d, hints) && 1 <= i < d
    requires forall j: nat :: i <= j < d ==> Name(j) !in visited
    ensures var r := TryHint(w, ForkConfig(d, i - 1, hints), Name(i), visited); r.Ok? && |r.value| == d - i + 1
    decreases d - i
  {
    hide FetchAuthority, Link, ForkEntry, Name;
    ForkLinks(w, n, d, hints, i);
    TryUp(w, ForkConfig(d, i - 1, hints), Name(i), ForkConfig(d, i, hints), visited);
    if i < d - 1 {
      var visited' := visited + {Name(i)};
      forall j: nat | i + 1 <= j < d ensures Name(j) !in visited' { NamesDiffer(i, j); }
      ForkTry(w, n, d, hints, i + 1, visited');
      FirstHint(w, ForkConfig(d, i, hints), [Name(i + 1)], visited');
    }
  }

  /** The hints of authority 0 decide: its first success is what counts. */
  lemma ForkOutcome(w: World, n: nat, d: nat, first: nat, hints: seq<Id>)
    requires IsFork(w, n, d, hints) && first in {1, d - 1} && hints[0] == Name(first)
    ensures BuildTrustChain(w, LEAF).Ok? <==> first == d - 1
  {
    hide FetchAuthority, Link, ForkEntry, Name, FromConfig, TryHint;
    var visited: set<Id> := {"e"};
    var visited' := visited + {Name(0)};
    var a := ForkConfig(d, 0, hints);
    NamesDiffer(0, 0);
    ForkLinks(w, n, d, hints, 0);
    TryUp(w, LEAF, Name(0), a, visited);
    FirstHint(w, LEAF, [Name(0)], visited);
    forall j: nat | 1 <= j < d ensures Name(j) !in visited' { NamesDiffer(0, j); NamesDiffer(j, j); }
    if first == 1 {
      ForkTry(w, n, d, hints, 1, visited');
    } else {
      ForkLinks(w, n, d, hints, d - 1);
      TryUp(w, a, Name(d - 1), ForkConfig(d, d - 1, hints), visited');
    }
    FirstHint(w, a, hints, visited');
  }

  lemma ForkRoute(w: World, n: nat, d: nat, hints: seq<Id>)
    requires IsFork(w, n, d, hints) && Name(d - 1) in hints
    ensures Route(w, LEAF, [Name(0), Name(d - 1)]) && Fresh([Name(0), Name(d - 1)], {"e"})
  {
    hide FetchAuthority, Link, ForkEntry, Name, Route;
    ForkLinks(w, n, d, hints, 0);
    ForkLinks(w, n, d, hints, d - 1);
    NamesDiffer(0, d - 1);
    NamesDiffer(d - 1, 0);
    RouteCons(w, ForkConfig(d, 0, hints), Name(d - 1), []);
    assert [Name(d - 1)] + [] == [Name(d - 1)];
    RouteCons(w, LEAF, Name(0), [Name(d - 1)]);
    assert [Name(0)] + [Name(d - 1)] == [Name(0), Name(d - 1)];
  }

  /** There are as many names as numbers, and the leaf has none of them. */
  lemma NamesCount(n: nat)
    ensures Fresh(Names(0, n), {"e"})
    ensures |Members(Names(0, n))| == n
    ensures forall keys: set<Id> :: keys == Members(Names(0, n)) ==> |keys - {"e"}| == n
  {
    hide Name;
    var all := Names(0, n);
    forall i, j | 0 <= i < j < n ensures all[i] != all[j] { NamesDiffer(i, j); }
    forall i | 0 <= i < n ensures all[i] != "e" { NamesDiffer(i, i); }
    MembersCount(all);
    forall keys: set<Id> | keys == Members(all) ensures |keys - {"e"}| == n {
      assert keys - {"e"} == Members(all);
    }
  }

  /** For every limit from three on and every number of identifiers not below it
      there is a federation with a route of two steps in which the order of two
      hints decides between failure and success: the walk keeps the first chain
      a branch yields and does not look for a shorter one when the limit then
      rejects it. */
  lemma HintOrderMatters(n: nat, d: nat) returns (w: World, w': World)
    requires 3 <= d <= n
    ensures w' == w.(claims := w.claims[ConfigToken(0) := Config(Name(0), Some([Name(d - 1), Name(1)]))])
    ensures ConfigToken(0) in w.claims && w.claims[ConfigToken(0)] == Config(Name(0), Some([Name(1), Name(d - 1)]))
    ensures |w.configAt.Keys - {"e"}| == n && w.maxDepth == d
    ensures Route(w, LEAF, [Name(0), Name(d - 1)]) && Fresh([Name(0), Name(d - 1)], {"e"})
    ensures BuildTrustChain(w, LEAF).Err? && BuildTrustChain(w', LEAF).Ok?
  {
    hide Fork, IsFork, BuildTrustChain, Route, Fresh, Name, ConfigToken;
    var hints, hints' := [Name(1), Name(d - 1)], [Name(d - 1), Name(1)];
    w, w' := Fork(n, d, hints), Fork(n, d, hints');
    ForkIsFork(n, d, hints);
    ForkIsFork(n, d, hints');
    ForkRoute(w, n, d, hints);
    ForkOutcome(w, n, d, 1, hints);
    ForkOutcome(w', n, d, d - 1, hints');
    ForkSwapped(n, d, hints, hints');
  }

  /** Forks that differ in the hints differ in one configuration. */
  lemma ForkSwapped(n: nat, d: nat, hints: seq<Id>, hints': seq<Id>)
    requires 3 <= d <= n
    ensures var w := Fork(n, d, hints);
            && ConfigToken(0) in w.claims && w.claims[ConfigToken(0)] == Config(Name(0), Some(hints))
            && |w.configAt.Keys - {"e"}| == n && w.maxDepth == d
            && Fork(n, d, hints') == w.(claims := w.claims[ConfigToken(0) := Config(Name(0), Some(hints'))])
  {
    var w, w' := Fork(n, d, hints), Fork(n, d, hints');
    ConfigsUpToKeys(n);
    NamesCount(n);
    assert ConfigToken(0)[0] == 'c';
    assert w'.claims == w.claims[ConfigToken(0) := Config(Name(0), Some(hints'))];
    assert w'.claims.Keys == w.claims.Keys;
  }

  /** A route whose chain the depth limit allows. */
  predicate WithinLimit(w: World, path: seq<Id>) {
    |path| == 1 || |path| + 1 <= w.maxDepth
  }

  /** A route of one step is always found. */
  lemma OneStepFound(w: World, entity: Statement, path: seq<Id>)
    requires Route(w, entity, path) && Fresh(path, {entity.claims.subject}) && |path| == 1
    ensures BuildTrustChain(w, entity).Ok?
  {
    var hints := entity.claims.authorityHints.value;
    var k :| 0 <= k < |hints| && hints[k] == path[0];
    assert path[0] in path;
    TryHintsReaches(w, entity, hints, {entity.claims.subject}, k);
  }

  /** Every federation of this size with this limit, every entity: a fresh route
      within the limit is enough for the search to succeed. */
  ghost predicate FindsWhatFits(n: nat, depth: int) {
    forall w: World, entity: Statement, path: seq<Id> ::
      |w.configAt.Keys - {entity.claims.subject}| == n && w.maxDepth == depth &&
      Route(w, entity, path) && Fresh(path, {entity.claims.subject}) && WithinLimit(w, path) ==>
        BuildTrustChain(w, entity).Ok?
  }

  /** The search finds a chain whenever a route within the limit exists if and
      only if the limit is at most two or exceeds the number of identifiers. */
  lemma FindsWhatFitsExactly(n: nat, depth: int)
    ensures FindsWhatFits(n, depth) <==> depth <= 2 || depth > n
  {
    if depth <= 2 || depth > n {
      forall w: World, entity: Statement, path: seq<Id> |
        |w.configAt.Keys - {entity.claims.subject}| == n && w.maxDepth == depth &&
        Route(w, entity, path) && Fresh(path, {entity.claims.subject}) && WithinLimit(w, path)
        ensures BuildTrustChain(w, entity).Ok?
      {
        if depth > n {
          BuildTrustChainComplete(w, entity);
        } else {
          OneStepFound(w, entity, path);
        }
      }
    } else {
      var w, _ := HintOrderMatters(n, depth);
      assert WithinLimit(w, [Name(0), Name(depth - 1)]);
    }
  }
}
