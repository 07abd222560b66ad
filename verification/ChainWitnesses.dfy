/** Small federations at which the failing side of the trust chain results is
    reached. */
module ChainWitnesses {
  import opened Wrappers
  import opened Statements
  import opened Search
  import opened SearchBound
  import opened ParseChain

  /** Every token verifies with key set 0, and with what `more` adds. */
  function Signing(claims: map<Signed, Claims>, more: set<(Signed, Keys)>, configAt: map<Id, Signed>,
                   subordinateAt: map<(string, Id), Signed>): (w: World)
    ensures forall t :: t in claims ==> (t, 0) in w.verified && t in w.acceptable
  {
    World(claims, (set t | t in claims.Keys :: (t, 0 as Keys)) + more, claims.Keys, configAt, subordinateAt, {}, ["t"], 4)
  }

  /** The subject's configuration followed by the anchor's: parsing panics. */
  lemma ShortChainPanics()
    ensures var w := Signing(map["e" := Config("e", Some(["t"])), "t" := Config("t", None)], {}, map["t" := "t"], map[]);
            ParsePanics(w, ["e", "t"])
  {
    var w := Signing(map["e" := Config("e", Some(["t"])), "t" := Config("t", None)], {}, map["t" := "t"], map[]);
    assert ParseAuthority(w, "t") == Ok(Statement(Config("t", None), "t"));
    assert ParseConfiguration(w, "e").Ok?;
  }

  /** The anchor's endpoint serves the configuration of somebody else who has
      the same keys: the chain is accepted, and ends with the wrong entity. */
  lemma WrongAnchorAccepted()
    ensures var w := Signing(map["e" := Config("e", Some(["t"])), "s" := About("t", "e"), "t" := Config("t", None),
                                 "u" := Config("u", None)], {}, map["t" := "u"], map[]);
            Accepts(w, ["e", "s", "t"]) && Complete(w, ["e", "s", "t"]).value.1.claims.issuer == "u"
  {
    var ts := ["e", "s", "t"];
    var w := Signing(map["e" := Config("e", Some(["t"])), "s" := About("t", "e"), "t" := Config("t", None),
                         "u" := Config("u", None)], {}, map["t" := "u"], map[]);
    assert ParseAuthority(w, "u") == Ok(Statement(Config("u", None), "u"));
    assert ParseAuthority(w, "t").Ok?;
    assert Complete(w, ts) == Ok((ts, Statement(Config("u", None), "u")));
    assert ParseConfiguration(w, "e").Ok?;
    assert w.claims["s"] == About("t", "e") && "s" in w.acceptable && ("s", 0) in w.verified;
    assert IsSubordinate(w, "s", 0, "t", "e");
    assert LinkOk(w, ts, 1);
  }

  // ----- a found chain that is not accepted -----

  /** Anchor "t" vouches for key set 1 of authority "a", which signs its
      configuration with both sets but its statement about "e" with set 0 only. */
  const TWO_KEYS := Signing(
    map["e" := Config("e", Some(["a"])), "a" := Config("a", Some(["t"])), "t" := Config("t", None),
        "s" := About("a", "e"), "r" := About("t", "a").(jwks := 1)],
    {("a", 1)}, map["a" := "a", "t" := "t"], map[("a", "e") := "s", ("t", "a") := "r"])

  const E := Statement(Config("e", Some(["a"])), "e")
  const A := Statement(Config("a", Some(["t"])), "a")
  const T := Statement(Config("t", None), "t")
  const S := Statement(About("a", "e"), "s")
  const R := Statement(About("t", "a").(jwks := 1), "r")

  lemma TwoKeysLinks()
    ensures FetchAuthority(TWO_KEYS, "a") == Ok(A) && FetchAuthority(TWO_KEYS, "t") == Ok(T)
    ensures Link(TWO_KEYS, E, A) == Ok(S) && Link(TWO_KEYS, A, T) == Ok(R)
    ensures ParseConfiguration(TWO_KEYS, "e") == Ok(E)
  {
    assert ParseConfiguration(TWO_KEYS, "a") == Ok(A);
    assert ParseConfiguration(TWO_KEYS, "t") == Ok(T);
    assert TWO_KEYS.claims["s"] == About("a", "e") && TWO_KEYS.claims["r"] == R.claims;
    assert ParseStatement(TWO_KEYS, "s", 0, "a", "e") == Ok(S);
    assert ParseSubordinate(TWO_KEYS, "s", 0, "a", "e") == Ok(S);
    assert ParseSubordinate(TWO_KEYS, "r", 0, "t", "a") == Ok(R);
    assert TWO_KEYS.subordinateAt[("a", "e")] == "s";
    assert FetchSubordinate(TWO_KEYS, "e", A) == Ok(S);
    assert ("e", 0) in TWO_KEYS.verified by { assert "e" in TWO_KEYS.claims.Keys; }
  }

  /** The search finds the chain; supplied as tokens, it is refused. */
  lemma FoundChainRefused()
    ensures BuildTrustChain(TWO_KEYS, E) == Ok([E, S, R, T]) && ServesItself(TWO_KEYS, [E, S, R, T])
    ensures !KeysAbove(TWO_KEYS, [E, S, R, T]) && !Accepts(TWO_KEYS, ["e", "s", "r", "t"])
  {
    TwoKeysFound();
    var chain, ts := [E, S, R, T], ["e", "s", "r", "t"];
    assert (chain[1].signed, chain[2].claims.jwks) !in TWO_KEYS.verified;
    TwoKeysLinks();
    FoundChainReparses(TWO_KEYS, E);
    assert Tokens(chain) == ts;
  }

  lemma TwoKeysFound()
    ensures BuildTrustChain(TWO_KEYS, E) == Ok([E, S, R, T])
  {
    hide FetchAuthority, Link, FromConfig, TryHint;
    TwoKeysLinks();
    var visited: set<Id> := {"e"};
    TryUp(TWO_KEYS, E, "a", A, visited);
    FirstHint(TWO_KEYS, E, ["a"], visited);
    TryUp(TWO_KEYS, A, "t", T, visited + {"a"});
    FirstHint(TWO_KEYS, A, ["t"], visited + {"a"});
    assert FromConfig(TWO_KEYS, E, visited) == Ok([S] + [R, T]);
    assert [E] + ([S] + [R, T]) == [E, S, R, T];
  }
}
