/** Names and lookups: a configuration is not compared with the identifier it was
    fetched for, neither for the subject nor for an authority. */
module ServedNames {
  import opened Wrappers
  import opened Policies
  import opened Statements
  import opened Search
  import opened SearchLaws
  import opened SearchBound
  import opened ParseChain
  import opened ResolveChain
  import opened ChainWitnesses

  /** The endpoint of `id` serves a token that names `id` as its issuer. */
  predicate NamesItself(w: World, id: Id) {
    id in w.configAt && w.configAt[id] in w.claims && w.claims[w.configAt[id]].issuer == id
  }

  /** What an identifier resolves to is about that identifier if and only if its
      endpoint names it. */
  lemma ResolvedSubjectExactly(w: World, id: Id)
    requires ResolveEntity(w, id).Ok?
    ensures ResolveEntity(w, id).value.0.claims.subject == id <==> NamesItself(w, id)
  {
    hide BuildTrustChain, Resolve;
    var entity := ParseConfiguration(w, w.configAt[id]).value;
    var path := BuildTrustChainSound(w, entity);
    ResolvedRespectsChain(w, BuildTrustChain(w, entity).value);
  }

  /** A statement on a found chain is issued by the identifier that was followed
      if and only if that identifier's endpoint serves its own configuration. */
  lemma IssuerFollowsPath(w: World, entity: Statement, path: seq<Id>, i: nat)
    requires Route(w, entity, path) && i < |path|
    ensures RouteChain(w, entity, path)[i].claims.issuer == path[i] <==> FaithfulAt(w, path[i])
  {
    RouteChainLinked(w, entity, path, i);
  }

  /** With such endpoints along the path no issuer repeats, nor is the subject one. */
  lemma FaithfulIssuersDiffer(w: World, entity: Statement, path: seq<Id>)
    requires Route(w, entity, path) && Fresh(path, {entity.claims.subject})
    requires forall i :: 0 <= i < |path| ==> FaithfulAt(w, path[i])
    ensures var chain := RouteChain(w, entity, path);
            && (forall i, j :: 0 <= i < j < |path| ==> chain[i].claims.issuer != chain[j].claims.issuer)
            && (forall i :: 0 <= i < |path| ==> chain[i].claims.issuer != entity.claims.subject)
  {
    forall i | 0 <= i < |path| ensures RouteChain(w, entity, path)[i].claims.issuer == path[i] && path[i] in path {
      assert FaithfulAt(w, path[i]);
      IssuerFollowsPath(w, entity, path, i);
    }
  }

  // ----- inputs -----

  const LONE := Statement(Config("e", Some(["t"])), "e")
  const VOUCHED := Statement(About("t", "e"), "s")

  /** The endpoint of "x" serves the configuration of "e". */
  const BORROWED := Signing(
    map["e" := LONE.claims, "t" := T.claims, "s" := VOUCHED.claims], {}, map["x" := "e", "t" := "t"], map[("t", "e") := "s"])

  /** Identifier "x" resolves to a statement about "e". */
  lemma ResolvesToAnother()
    ensures ResolveEntity(BORROWED, "x").Ok? && ResolveEntity(BORROWED, "x").value.0.claims.subject == "e"
  {
    hide FetchAuthority, Link, FromConfig, TryHint;
    BorrowedLinks();
    var visited: set<Id> := {"e"};
    TryUp(BORROWED, LONE, "t", T, visited);
    FirstHint(BORROWED, LONE, ["t"], visited);
    var chain := [LONE] + [VOUCHED, T];
    assert BuildTrustChain(BORROWED, LONE) == Ok(chain);
    var subs := SubordinateStatements(chain);
    assert subs == [VOUCHED];
    assert FoldDown(subs, 1) == Ok(NO_POLICY) && FoldDown(subs, 0) == Ok(NO_POLICY);
    assert Resolve(BORROWED, chain).Ok?;
  }

  lemma BorrowedLinks()
    ensures FetchAuthority(BORROWED, "t") == Ok(T) && Link(BORROWED, LONE, T) == Ok(VOUCHED)
    ensures ParseConfiguration(BORROWED, "e") == Ok(LONE)
  {
    assert ParseConfiguration(BORROWED, "t") == Ok(T);
    assert BORROWED.claims["s"] == VOUCHED.claims && IsSubordinate(BORROWED, "s", 0, "t", "e");
    assert ParseSubordinate(BORROWED, "s", 0, "t", "e") == Ok(VOUCHED);
    assert ("e", 0) in BORROWED.verified by { assert "e" in BORROWED.claims.Keys; }
  }

  const TWICE := Statement(Config("a", Some(["b", "t"])), "a")
  const ITSELF := Statement(About("a", "a"), "q")
  const ABOVE := Statement(About("t", "a"), "r")

  /** The endpoint of "b" serves the configuration of "a", which vouches for itself. */
  const ECHO := Signing(
    map["e" := E.claims, "a" := TWICE.claims, "t" := T.claims, "s" := S.claims, "q" := ITSELF.claims, "r" := ABOVE.claims],
    {}, map["a" := "a", "b" := "a", "t" := "t"], map[("a", "e") := "s", ("a", "a") := "q", ("t", "a") := "r"])

  /** On the chain that is found "a" issues two statements, one of them about itself. */
  lemma IssuerRepeats()
    ensures BuildTrustChain(ECHO, E) == Ok([E, S, ITSELF, ABOVE, T]) && S.claims.issuer == ITSELF.claims.issuer
  {
    hide FetchAuthority, Link, FromConfig, TryHint;
    EchoLinks();
    var v0: set<Id> := {"e"};
    var v1, v2 := v0 + {"a"}, v0 + {"a"} + {"b"};
    TryUp(ECHO, TWICE, "t", T, v2);
    SecondHint(ECHO, TWICE, "b", "t", v2);
    TryUp(ECHO, TWICE, "b", TWICE, v1);
    FirstHint(ECHO, TWICE, ["b", "t"], v1);
    TryUp(ECHO, E, "a", TWICE, v0);
    FirstHint(ECHO, E, ["a"], v0);
    assert FromConfig(ECHO, E, v0) == Ok([S] + ([ITSELF] + [ABOVE, T]));
    assert [E] + ([S] + ([ITSELF] + [ABOVE, T])) == [E, S, ITSELF, ABOVE, T];
  }

  /** A first hint that is on the path already is passed over. */
  lemma SecondHint(w: World, entity: Statement, first: Id, second: Id, visited: set<Id>)
    requires entity.claims.authorityHints == Some([first, second]) && first in visited && TryHint(w, entity, second, visited).Ok?
    ensures FromConfig(w, entity, visited) == TryHint(w, entity, second, visited)
  {
    var hints := [first, second];
    assert hints[1..] == [second];
    assert TryHint(w, entity, first, visited) == Err;
    assert TryHints(w, entity, [second], visited) == TryHint(w, entity, second, visited);
    assert TryHints(w, entity, hints, visited) == TryHints(w, entity, hints[1..], visited);
  }

  lemma EchoLinks()
    ensures FetchAuthority(ECHO, "a") == Ok(TWICE) && FetchAuthority(ECHO, "b") == Ok(TWICE) && FetchAuthority(ECHO, "t") == Ok(T)
    ensures Link(ECHO, E, TWICE) == Ok(S) && Link(ECHO, TWICE, TWICE) == Ok(ITSELF) && Link(ECHO, TWICE, T) == Ok(ABOVE)
  {
    assert ParseConfiguration(ECHO, "a") == Ok(TWICE);
    assert ParseConfiguration(ECHO, "t") == Ok(T);
    EchoStatements();
    assert FetchSubordinate(ECHO, "e", TWICE) == Ok(S) && FetchSubordinate(ECHO, "a", TWICE) == Ok(ITSELF);
    assert ("e", 0) in ECHO.verified && ("a", 0) in ECHO.verified by { assert "e" in ECHO.claims.Keys && "a" in ECHO.claims.Keys; }
  }

  lemma EchoStatements()
    ensures ParseSubordinate(ECHO, "s", 0, "a", "e") == Ok(S)
    ensures ParseSubordinate(ECHO, "q", 0, "a", "a") == Ok(ITSELF)
    ensures ParseSubordinate(ECHO, "r", 0, "t", "a") == Ok(ABOVE)
  {
    assert ECHO.claims["s"] == S.claims && ECHO.claims["q"] == ITSELF.claims && ECHO.claims["r"] == ABOVE.claims;
    assert IsSubordinate(ECHO, "s", 0, "a", "e") && IsSubordinate(ECHO, "q", 0, "a", "a") && IsSubordinate(ECHO, "r", 0, "t", "a");
  }
}
