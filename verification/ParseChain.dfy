/** Checking a supplied trust chain link by link, and how it relates to chains
    found by search. */
module ParseChain {
  import opened Wrappers
  import opened Policies
  import opened Statements
  import opened Search
  import opened SearchLaws

  /** A configuration of an authority, which has a fetch endpoint. */
  predicate ServesAuthority(w: World, signed: Signed) {
    IsConfiguration(w, signed) && w.claims[signed].fetchEndpoint.Some?
  }

  /** Step one: the last token must name a trusted anchor whose configuration
      can be fetched; the token list is completed with that configuration when
      it was omitted, and otherwise the supplied one must be signed with the
      anchor's fetched keys. */
  function Complete(w: World, tokens: seq<Signed>): (r: Result<(seq<Signed>, Statement)>)
    ensures r.Ok? <==>
            && |tokens| >= 2 && tokens[|tokens| - 1] in w.claims
            && var lastToken := tokens[|tokens| - 1];
               var last := w.claims[lastToken];
               && last.issuer in w.trusted
               && last.issuer in w.configAt && ServesAuthority(w, w.configAt[last.issuer])
               && (last.subject == last.issuer ==>
                     ServesAuthority(w, lastToken) && (lastToken, w.claims[w.configAt[last.issuer]].jwks) in w.verified)
    ensures r.Ok? ==>
              var last := w.claims[tokens[|tokens| - 1]];
              var anchor := w.configAt[last.issuer];
              && r.value.1 == Statement(w.claims[anchor], anchor)
              && r.value.0 == (if last.subject != last.issuer then tokens + [anchor] else tokens)
  {
    if |tokens| < 2 || tokens[|tokens| - 1] !in w.claims then Err
    else
      var lastToken := tokens[|tokens| - 1];
      var last := w.claims[lastToken];
      if last.issuer !in w.trusted then Err
      else
        var original :- FetchAuthority(w, last.issuer);
        if last.subject != last.issuer then Ok((tokens + [original.signed], original))
        else
          var supplied :- ParseAuthority(w, lastToken);
          var _ :- ParseStatement(w, supplied.signed, original.claims.jwks, supplied.claims.issuer, supplied.claims.issuer);
          Ok((tokens, original))
  }

  /** Token `i` is a subordinate statement about the issuer below, issued by
      the subject above and verified with the keys listed there. */
  predicate LinkOk(w: World, ts: seq<Signed>, i: nat)
    requires 1 <= i < |ts| - 1
  {
    && ts[i - 1] in w.claims && ts[i + 1] in w.claims
    && ParseSubordinate(w, ts[i], w.claims[ts[i + 1]].jwks, w.claims[ts[i + 1]].subject, w.claims[ts[i - 1]].issuer).Ok?
  }

  /** The chain needs a subordinate statement: the code reads it without
      checking that there is one. */
  predicate LinksOk(w: World, ts: seq<Signed>) {
    && |ts| >= 3
    && ts[1] in w.claims
    && ParseConfiguration(w, ts[0]).Ok?
    && (forall i :: 1 <= i < |ts| - 1 ==> LinkOk(w, ts, i))
    && var c := w.claims[ts[0]];
       ParseStatement(w, ts[0], w.claims[ts[1]].jwks, c.issuer, c.subject).Ok?
  }

  predicate AllParse(w: World, ts: seq<Signed>) {
    forall i :: 0 <= i < |ts| ==> ts[i] in w.claims
  }

  function Read(w: World, ts: seq<Signed>): (r: seq<Statement>)
    requires AllParse(w, ts)
    ensures |r| == |ts| && forall i :: 0 <= i < |ts| ==> r[i] == Statement(w.claims[ts[i]], ts[i])
  {
    seq(|ts|, i requires 0 <= i < |ts| => Statement(w.claims[ts[i]], ts[i]))
  }

  lemma LinksOkParse(w: World, ts: seq<Signed>)
    requires LinksOk(w, ts)
    ensures AllParse(w, ts)
  {
    forall i | 0 <= i < |ts| ensures ts[i] in w.claims {
      if 1 <= i < |ts| - 1 {
        assert LinkOk(w, ts, i);
      } else if i > 0 {
        assert LinkOk(w, ts, i - 1);
      }
    }
  }

  predicate Accepts(w: World, tokens: seq<Signed>) {
    Complete(w, tokens).Ok? && LinksOk(w, Complete(w, tokens).value.0)
  }

  /** The list goes straight from the subject's configuration to the anchor's. */
  predicate ParsePanics(w: World, tokens: seq<Signed>) {
    Complete(w, tokens).Ok? && |Complete(w, tokens).value.0| == 2 && ParseConfiguration(w, tokens[0]).Ok?
  }

  /** `parseTrustChain`: accepted exactly when the completed list is linked, and
      then the chain read from it with the fetched anchor configuration last. It
      panics exactly on a list without a subordinate statement that is good up
      to there. */
  method ParseTrustChain(w: World, tokens: seq<Signed>) returns (r: Outcome<seq<Statement>>)
    ensures r.Panicked? <==> ParsePanics(w, tokens)
    ensures r.Returned? ==> (r.result.Ok? <==> Accepts(w, tokens))
    ensures r.Returned? && r.result.Ok? ==>
              var (ts, original) := Complete(w, tokens).value;
              && AllParse(w, ts)
              && r.result.value == Read(w, ts)[..|ts| - 1] + [original]
  {
    var completed := Complete(w, tokens);
    if completed.Err? {
      return Returned(Err);
    }
    var (chainStatements, original) := completed.value;
    var entity := ParseConfiguration(w, chainStatements[0]);
    if entity.Err? {
      return Returned(Err);
    }
    var chain := [entity.value];
    for i := 1 to |chainStatements| - 1
      invariant |chain| == i
      invariant forall j :: 0 <= j < i ==>
        chainStatements[j] in w.claims && chain[j] == Statement(w.claims[chainStatements[j]], chainStatements[j])
      invariant forall j :: 1 <= j < i ==> LinkOk(w, chainStatements, j)
    {
      if chainStatements[i + 1] !in w.claims {
        assert !LinkOk(w, chainStatements, i);
        return Returned(Err);
      }
      var next := w.claims[chainStatements[i + 1]];
      var sub := ParseSubordinate(w, chainStatements[i], next.jwks, next.subject, chain[i - 1].claims.issuer);
      if sub.Err? {
        assert !LinkOk(w, chainStatements, i);
        return Returned(Err);
      }
      chain := chain + [sub.value];
    }
    if |chain| < 2 {
      return Panicked;
    }
    assert LinkOk(w, chainStatements, 1);
    var c := entity.value.claims;
    if ParseStatement(w, entity.value.signed, chain[1].claims.jwks, c.issuer, c.subject).Err? {
      return Returned(Err);
    }
    LinksOkParse(w, chainStatements);
    assert Read(w, chainStatements)[..|chain|] == chain;
    r := Returned(Ok(chain + [original]));
  }

  // ----- what acceptance means -----

  /** Every position between the subject and the anchor is tied to both neighbours. */
  predicate EndToEnd(w: World, ts: seq<Signed>)
    requires AllParse(w, ts) && |ts| >= 3
  {
    && (forall i :: 1 <= i < |ts| - 1 ==>
          && w.claims[ts[i]].subject == w.claims[ts[i - 1]].issuer
          && w.claims[ts[i]].issuer == w.claims[ts[i + 1]].subject
          && (ts[i], w.claims[ts[i + 1]].jwks) in w.verified)
    && (ts[0], w.claims[ts[1]].jwks) in w.verified
    && w.claims[ts[0]].issuer == w.claims[ts[0]].subject
    && (forall i :: 0 <= i < |ts| ==> ts[i] in w.acceptable && w.claims[ts[i]].trustAnchor.None?)
  }

  /** An accepted chain is linked from end to end and its top statement is
      issued by a trusted anchor. */
  lemma AcceptedChainIsLinked(w: World, tokens: seq<Signed>)
    requires Accepts(w, tokens)
    ensures var ts := Complete(w, tokens).value.0;
            && AllParse(w, ts) && |ts| >= 3
            && EndToEnd(w, ts)
            && w.claims[ts[|ts| - 2]].issuer in w.trusted
  {
    var (ts, original) := Complete(w, tokens).value;
    LinksOkParse(w, ts);
    forall i | 1 <= i < |ts| - 1
      ensures && w.claims[ts[i]].subject == w.claims[ts[i - 1]].issuer
              && w.claims[ts[i]].issuer == w.claims[ts[i + 1]].subject
              && (ts[i], w.claims[ts[i + 1]].jwks) in w.verified
    {
      assert LinkOk(w, ts, i);
    }
    forall i | 0 <= i < |ts| ensures ts[i] in w.acceptable && w.claims[ts[i]].trustAnchor.None? {
      if 1 <= i < |ts| - 1 { assert LinkOk(w, ts, i); }
    }
  }

  /** A completed list is accepted exactly when the subject's configuration is one
      and verifies with the keys of the first subordinate statement, and every
      token between it and the last is a subordinate statement about the issuer
      below, issued by the subject above and verified with the keys listed there. */
  lemma AcceptsExactly(w: World, tokens: seq<Signed>)
    ensures Accepts(w, tokens) <==> Complete(w, tokens).Ok? && Linked(w, Complete(w, tokens).value.0)
  {
    if Complete(w, tokens).Ok? {
      var ts := Complete(w, tokens).value.0;
      forall i | 1 <= i < |ts| - 1 ensures LinkOk(w, ts, i) <==> Between(w, ts, i) {
      }
    }
  }

  predicate Linked(w: World, ts: seq<Signed>) {
    && |ts| >= 3 && IsConfiguration(w, ts[0]) && ts[1] in w.claims && (ts[0], w.claims[ts[1]].jwks) in w.verified
    && forall i :: 1 <= i < |ts| - 1 ==> Between(w, ts, i)
  }

  predicate Between(w: World, ts: seq<Signed>, i: nat)
    requires 1 <= i < |ts| - 1
  {
    && ts[i - 1] in w.claims && ts[i] in w.claims && ts[i + 1] in w.claims
    && var below, c, above := w.claims[ts[i - 1]], w.claims[ts[i]], w.claims[ts[i + 1]];
       && ts[i] in w.acceptable && (ts[i], above.jwks) in w.verified && c.trustAnchor.None?
       && c.subject == below.issuer && c.issuer == above.subject
       && c.authorityHints.None? && c.subordinateClaimsOk
       && (c.policy.Some? ==> ValidPolicy(c.policy.value))
  }

  /** The endpoint of `id` serves the configuration of `id`. */
  predicate FaithfulAt(w: World, id: Id) {
    FetchAuthority(w, id).Ok? ==> FetchAuthority(w, id).value.claims.issuer == id
  }

  /** The configuration returned as the anchor's is that of the issuer of the
      top statement exactly when the chain omitted it or the anchor's endpoint
      serves its own configuration: the fetched document is not compared with
      the identifier it was fetched for. */
  lemma AnchorConfigurationExactly(w: World, tokens: seq<Signed>)
    requires Accepts(w, tokens)
    ensures var (ts, original) := Complete(w, tokens).value;
            var last := w.claims[tokens[|tokens| - 1]];
            && AllParse(w, ts)
            && (original.claims.issuer == w.claims[ts[|ts| - 2]].issuer <==>
                last.subject != last.issuer || FaithfulAt(w, last.issuer))
  {
    AcceptedChainIsLinked(w, tokens);
    var (ts, original) := Complete(w, tokens).value;
    var last := w.claims[tokens[|tokens| - 1]];
    var top := w.claims[ts[|ts| - 2]];
    assert top.issuer == w.claims[ts[|ts| - 1]].subject;
    assert FetchAuthority(w, last.issuer) == Ok(original);
    if last.subject != last.issuer {
      assert ts[|ts| - 1] == original.signed;
      assert original.claims == w.claims[original.signed];
    } else {
      assert ts == tokens;
    }
  }

  // ----- supplied chains and found chains -----

  function Tokens(chain: seq<Statement>): (ts: seq<Signed>)
    ensures |ts| == |chain| && forall i :: 0 <= i < |chain| ==> ts[i] == chain[i].signed
  {
    seq(|chain|, i requires 0 <= i < |chain| => chain[i].signed)
  }

  /** Statements that say what their token says. */
  predicate Genuine(w: World, s: Statement) {
    s.signed in w.claims && w.claims[s.signed] == s.claims
  }

  /** Everything on a found chain says what its token says. */
  lemma {:induction false} RouteChainGenuine(w: World, entity: Statement, path: seq<Id>, i: nat)
    requires Route(w, entity, path) && i <= |path|
    ensures Genuine(w, RouteChain(w, entity, path)[i])
    decreases |path|
  {
    if i > 0 && |path| > 1 {
      RouteChainGenuine(w, FetchAuthority(w, path[0]).value, path[1..], i - 1);
    }
  }

  /** The statement above also vouches for the keys that signed this one. */
  predicate KeysAbove(w: World, chain: seq<Statement>) {
    forall i :: 1 <= i < |chain| - 2 ==> (chain[i].signed, chain[i + 1].claims.jwks) in w.verified
  }

  /** Looking up the issuer of the last statement gives that statement. */
  predicate ServesItself(w: World, chain: seq<Statement>)
    requires chain != []
  {
    FetchAuthority(w, chain[|chain| - 1].claims.issuer) == Ok(chain[|chain| - 1])
  }

  /** A chain found by search, presented as tokens, is accepted exactly when
      each subordinate statement below the top one can also be verified with
      the keys in the statement above it: search verifies it with the keys in
      the authority's own configuration instead. */
  lemma FoundChainReparses(w: World, entity: Statement)
    requires ParseConfiguration(w, entity.signed) == Ok(entity)
    requires BuildTrustChain(w, entity).Ok?
    requires ServesItself(w, BuildTrustChain(w, entity).value)
    ensures var chain := BuildTrustChain(w, entity).value;
            && Complete(w, Tokens(chain)) == Ok((Tokens(chain), chain[|chain| - 1]))
            && (LinksOk(w, Tokens(chain)) <==> KeysAbove(w, chain))
            && AllParse(w, Tokens(chain)) && Read(w, Tokens(chain)) == chain
  {
    var path := BuildTrustChainSound(w, entity);
    var chain := BuildTrustChain(w, entity).value;
    var ts := Tokens(chain);
    FoundChainGenuine(w, entity, path);
    assert Read(w, ts) == chain;
    FoundChainAnchor(w, entity, path);
    forall i | 1 <= i < |ts| - 1
      ensures LinkOk(w, ts, i) <==> (i < |chain| - 2 ==> (chain[i].signed, chain[i + 1].claims.jwks) in w.verified)
    {
      FoundChainLink(w, entity, path, i);
    }
    RouteChainLinked(w, entity, path, 0);
    if LinksOk(w, ts) {
      forall i | 1 <= i < |chain| - 2 ensures (chain[i].signed, chain[i + 1].claims.jwks) in w.verified {
        assert LinkOk(w, ts, i);
      }
    }
  }

  lemma FoundChainGenuine(w: World, entity: Statement, path: seq<Id>)
    requires ParseConfiguration(w, entity.signed) == Ok(entity)
    requires Route(w, entity, path)
    ensures var chain := [entity] + RouteChain(w, entity, path);
            AllParse(w, Tokens(chain)) && forall i :: 0 <= i < |chain| ==> Genuine(w, chain[i])
  {
    var chain := [entity] + RouteChain(w, entity, path);
    forall i | 0 <= i < |chain| ensures Genuine(w, chain[i]) {
      if i > 0 { RouteChainGenuine(w, entity, path, i - 1); }
    }
  }

  lemma FoundChainAnchor(w: World, entity: Statement, path: seq<Id>)
    requires Route(w, entity, path)
    requires ServesItself(w, [entity] + RouteChain(w, entity, path))
    ensures var chain := [entity] + RouteChain(w, entity, path);
            Complete(w, Tokens(chain)) == Ok((Tokens(chain), chain[|chain| - 1]))
  {
    var chain := [entity] + RouteChain(w, entity, path);
    var anchor := chain[|chain| - 1];
    RouteChainLinked(w, entity, path, |path| - 1);
    RouteChainGenuine(w, entity, path, |path|);
    assert FetchAuthority(w, path[|path| - 1]) == Ok(anchor);
    assert Tokens(chain)[|chain| - 1] == anchor.signed;
  }

  lemma FoundChainLink(w: World, entity: Statement, path: seq<Id>, i: nat)
    requires ParseConfiguration(w, entity.signed) == Ok(entity)
    requires Route(w, entity, path)
    requires 1 <= i <= |path|
    ensures var chain := [entity] + RouteChain(w, entity, path);
            LinkOk(w, Tokens(chain), i) <==>
            (i < |path| ==> (chain[i].signed, chain[i + 1].claims.jwks) in w.verified)
  {
    hide FetchAuthority, ParseSubordinate;
    var chain := [entity] + RouteChain(w, entity, path);
    FoundChainGenuine(w, entity, path);
    assert Genuine(w, chain[i - 1]) && Genuine(w, chain[i]) && Genuine(w, chain[i + 1]);
    RouteChainLinked(w, entity, path, i - 1);
    RouteChainParses(w, entity, path, i - 1);
    if i > 1 {
      RouteChainLinked(w, entity, path, i - 2);
    }
    if i < |path| {
      RouteChainLinked(w, entity, path, i);
    }
    OnlyKeysMatter(w, chain[i], FetchAuthority(w, path[i - 1]).value.claims.jwks, chain[i + 1].claims.jwks);
    assert chain[i].claims.subject == chain[i - 1].claims.issuer;
    assert chain[i].claims.issuer == chain[i + 1].claims.subject;
  }

  /** A statement that passes with one key set passes with another exactly when it verifies. */
  lemma OnlyKeysMatter(w: World, s: Statement, jwks: Keys, other: Keys)
    requires ParseSubordinate(w, s.signed, jwks, s.claims.issuer, s.claims.subject) == Ok(s)
    ensures ParseSubordinate(w, s.signed, other, s.claims.issuer, s.claims.subject).Ok? <==> (s.signed, other) in w.verified
  {
  }

  /** Subordinate statements on a route passed their checks. */
  lemma {:induction false} RouteChainParses(w: World, entity: Statement, path: seq<Id>, i: nat)
    requires Route(w, entity, path) && i < |path|
    ensures FetchAuthority(w, path[i]).Ok?
    ensures var s := RouteChain(w, entity, path)[i];
            ParseSubordinate(w, s.signed, FetchAuthority(w, path[i]).value.claims.jwks, s.claims.issuer, s.claims.subject) == Ok(s)
    decreases |path|
  {
    if i > 0 {
      RouteChainParses(w, FetchAuthority(w, path[0]).value, path[1..], i - 1);
    }
  }
}
