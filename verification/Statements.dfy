/** Entity statements and the parsing contracts of the federation code. JWT
    decoding, signature checks and HTTP lookups are finite oracles of a `World`. */
module Statements {
  import opened Wrappers
  import opened Policies

  /** Entity identifiers are non-empty, so expected issuers and subjects are
      always compared. */
  type Id = s: string | s != "" witness "a"
  type Signed = string
  type Keys = nat

  datatype Naming = Naming(permitted: Option<seq<string>>, excluded: seq<string>)

  datatype Constraints = Constraints(
    maxPathLength: Option<int>, naming: Option<Naming>, allowedTypes: Option<seq<string>>)

  /** `configClaimsOk` and `subordinateClaimsOk` stand for the claims that a
      configuration and a subordinate statement must not carry and that play
      no other role (trust marks, critical claims, source endpoint). */
  datatype Claims = Claims(
    issuer: Id,
    subject: Id,
    expiresAt: int,
    jwks: Keys,
    authorityHints: Option<seq<Id>>,
    fetchEndpoint: Option<string>,
    metadata: Metadata,
    policy: Option<Policy>,
    constraints: Option<Constraints>,
    trustAnchor: Option<Id>,
    configClaimsOk: bool,
    subordinateClaimsOk: bool)

  datatype Statement = Statement(claims: Claims, signed: Signed)

  /** `claims`: what each parsable token says. `verified`: which key set verifies
      which token. `acceptable`: tokens whose headers, times and required claims
      pass. `configAt`, `subordinateAt`: what the endpoints return.
      `named`: which entity matches which naming constraint. */
  datatype World = World(
    claims: map<Signed, Claims>,
    verified: set<(Signed, Keys)>,
    acceptable: set<Signed>,
    configAt: map<Id, Signed>,
    subordinateAt: map<(string, Id), Signed>,
    named: set<(Id, string)>,
    trusted: seq<Id>,
    maxDepth: int)

  /** Accepted exactly when the token is acceptable, verifies with the given keys
      and has the expected issuer and subject; and then read as it is. */
  function ParseStatement(w: World, signed: Signed, jwks: Keys, issuer: Id, subject: Id): (r: Result<Statement>)
    ensures r.Ok? <==>
            && signed in w.claims && (signed, jwks) in w.verified && signed in w.acceptable
            && w.claims[signed].issuer == issuer && w.claims[signed].subject == subject
            && w.claims[signed].trustAnchor.None?
    ensures r.Ok? ==> r.value == Statement(w.claims[signed], signed)
  {
    if signed !in w.claims || (signed, jwks) !in w.verified then Err
    else if signed !in w.acceptable then Err
    else
      var c := w.claims[signed];
      if c.issuer != issuer || c.subject != subject then Err
      else if c.trustAnchor.Some? then Err
      else Ok(Statement(c, signed))
  }

  /** A configuration: signed with its own keys, about its issuer, with hints that
      are not an empty list, and without policy and constraints. */
  predicate IsConfiguration(w: World, signed: Signed) {
    && signed in w.claims && signed in w.acceptable
    && var c := w.claims[signed];
       && (signed, c.jwks) in w.verified && c.issuer == c.subject && c.trustAnchor.None?
       && c.authorityHints != Some([]) && c.policy.None? && c.constraints.None? && c.configClaimsOk
  }

  function ParseConfiguration(w: World, signed: Signed): (r: Result<Statement>)
    ensures r.Ok? <==> IsConfiguration(w, signed)
    ensures r.Ok? ==> r.value == Statement(w.claims[signed], signed)
  {
    if signed !in w.claims then Err
    else
      var c := w.claims[signed];
      var s :- ParseStatement(w, signed, c.jwks, c.issuer, c.issuer);
      if s.claims.authorityHints == Some([]) then Err
      else if s.claims.policy.Some? || s.claims.constraints.Some? then Err
      else if !s.claims.configClaimsOk then Err
      else Ok(s)
  }

  function ParseAuthority(w: World, signed: Signed): (r: Result<Statement>)
    ensures r.Ok? <==> IsConfiguration(w, signed) && w.claims[signed].fetchEndpoint.Some?
    ensures r.Ok? ==> r.value == Statement(w.claims[signed], signed)
  {
    var s :- ParseConfiguration(w, signed);
    if s.claims.fetchEndpoint.None? then Err else Ok(s)
  }

  /** A subordinate statement of `issuer` about `subject`, verified with `jwks`:
      without hints, and with a valid policy if it has one. */
  predicate IsSubordinate(w: World, signed: Signed, jwks: Keys, issuer: Id, subject: Id) {
    && signed in w.claims && signed in w.acceptable
    && var c := w.claims[signed];
       && (signed, jwks) in w.verified && c.issuer == issuer && c.subject == subject && c.trustAnchor.None?
       && c.authorityHints.None? && c.subordinateClaimsOk
       && (c.policy.Some? ==> ValidPolicy(c.policy.value))
  }

  function ParseSubordinate(w: World, signed: Signed, jwks: Keys, issuer: Id, subject: Id): (r: Result<Statement>)
    ensures r.Ok? <==> IsSubordinate(w, signed, jwks, issuer, subject)
    ensures r.Ok? ==> r.value == Statement(w.claims[signed], signed)
  {
    var s :- ParseStatement(w, signed, jwks, issuer, subject);
    if s.claims.authorityHints.Some? then Err
    else if !s.claims.subordinateClaimsOk then Err
    else if s.claims.policy.Some? && !ValidPolicy(s.claims.policy.value) then Err
    else Ok(s)
  }

  function FetchAuthority(w: World, id: Id): Result<Statement> {
    if id in w.configAt then ParseAuthority(w, w.configAt[id]) else Err
  }

  function FetchSubordinate(w: World, subject: Id, authority: Statement): Result<Statement> {
    var c := authority.claims;
    if c.fetchEndpoint.None? || c.fetchEndpoint.value == "" || (c.fetchEndpoint.value, subject) !in w.subordinateAt then Err
    else ParseSubordinate(w, w.subordinateAt[(c.fetchEndpoint.value, subject)], c.jwks, c.issuer, subject)
  }
}
