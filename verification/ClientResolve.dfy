/** Client metadata resolution as a normaliser. Fields are grouped by the feature
    they belong to; URL syntax, redirect rules, scope lookup and the sector
    identifier document are oracles. An index panic counts as an error. */
module ClientResolve {
  import opened Wrappers

  // ----- choices -----

  /** A list of acceptable values and the single value in use; "" is unset. */
  datatype Choice = Choice(choices: seq<string>, current: string)

  /** The first choice that is supported. */
  function FirstSupported(choices: seq<string>, supported: seq<string>): Result<string> {
    if choices == [] then Err
    else if choices[0] in supported then Ok(choices[0])
    else FirstSupported(choices[1..], supported)
  }

  function Resolved(ch: Choice, supported: seq<string>): Result<string> {
    if ch.choices == [] then Ok(ch.current)
    else if ch.current != "" && ch.current !in ch.choices then Err
    else if ch.current != "" && ch.current in supported then Ok(ch.current)
    else FirstSupported(ch.choices, supported)
  }

  /** `resolveChoice`. */
  method ResolveChoice(ch: Choice, supported: seq<string>) returns (r: Result<string>)
    ensures r == Resolved(ch, supported)
  {
    if |ch.choices| == 0 {
      return Ok(ch.current);
    }
    if ch.current != "" {
      if ch.current !in ch.choices {
        return Err;
      }
      if ch.current in supported {
        return Ok(ch.current);
      }
    }
    for i := 0 to |ch.choices|
      invariant Resolved(ch, supported) == FirstSupported(ch.choices[i..], supported)
    {
      if ch.choices[i] in supported {
        return Ok(ch.choices[i]);
      }
    }
    return Err;
  }

  lemma {:induction false} FirstSupportedFound(choices: seq<string>, supported: seq<string>)
    ensures FirstSupported(choices, supported).Ok? <==> exists c :: c in choices && c in supported
    ensures FirstSupported(choices, supported).Ok? ==>
              FirstSupported(choices, supported).value in choices && FirstSupported(choices, supported).value in supported
  {
    if choices != [] {
      FirstSupportedFound(choices[1..], supported);
      assert choices == [choices[0]] + choices[1..];
    }
  }

  /** A resolved choice stays resolved, and can be resolved again from scratch. */
  lemma ChoiceStable(ch: Choice, supported: seq<string>)
    requires Resolved(ch, supported).Ok? && "" !in supported
    ensures var v := Resolved(ch, supported).value;
            && Resolved(ch.(current := v), supported) == Ok(v)
            && Resolved(ch.(current := ""), supported).Ok?
            && (ch.choices != [] ==> v != "" && v in ch.choices && v in supported)
  {
    FirstSupportedFound(ch.choices, supported);
  }

  // ----- signing and encryption of one kind of document -----

  datatype EncMeta = EncMeta(sig: Choice, key: Choice, content: Choice)

  /** `enabled` and `encEnabled`: the feature and its encryption part.
      `sigRequired`: a signing algorithm is filled in and must be supported.
      `contentDefault`: a missing content algorithm is filled in. */
  datatype EncConfig = EncConfig(
    enabled: bool, encEnabled: bool, sigAlgs: seq<string>, keyAlgs: seq<string>, contentAlgs: seq<string>,
    defaultSig: string, sigRequired: bool, contentDefault: bool)

  function PickEnc(cfg: EncConfig, m: EncMeta): Result<EncMeta> {
    if !cfg.enabled then Ok(EncMeta(m.sig.(choices := []), m.key.(choices := []), m.content.(choices := [])))
    else
      var sig :- Resolved(m.sig, cfg.sigAlgs);
      if !cfg.encEnabled then
        Ok(EncMeta(m.sig.(current := sig), m.key.(choices := []), m.content.(choices := [])))
      else
        var key :- Resolved(m.key, cfg.keyAlgs);
        var content :- Resolved(m.content, cfg.contentAlgs);
        Ok(EncMeta(m.sig.(current := sig), m.key.(current := key), m.content.(current := content)))
  }

  function FillSig(cfg: EncConfig, sig: string): Result<string> {
    var filled := if cfg.sigRequired && sig == "" then cfg.defaultSig else sig;
    if filled in cfg.sigAlgs || (!cfg.sigRequired && filled == "") then Ok(filled) else Err
  }

  function FillContent(cfg: EncConfig, key: string, content: string): Result<string> {
    if key == "" then (if content == "" then Ok("") else Err)
    else if key !in cfg.keyAlgs then Err
    else if content == "" then
      if !cfg.contentDefault then Ok("")
      else if cfg.contentAlgs == [] then Err
      else Ok(cfg.contentAlgs[0])
    else if content in cfg.contentAlgs then Ok(content)
    else Err
  }

  function FillEnc(cfg: EncConfig, m: EncMeta): Result<EncMeta> {
    if !cfg.enabled then Ok(EncMeta(m.sig.(current := ""), m.key.(current := ""), m.content.(current := "")))
    else
      var sig :- FillSig(cfg, m.sig.current);
      if !cfg.encEnabled then Ok(EncMeta(m.sig.(current := sig), m.key.(current := ""), m.content.(current := "")))
      else
        var content :- FillContent(cfg, m.key.current, m.content.current);
        Ok(EncMeta(m.sig.(current := sig), m.key, m.content.(current := content)))
  }

  function ResolveEnc(cfg: EncConfig, choicesOn: bool, m: EncMeta): Result<EncMeta> {
    var picked :- if choicesOn then PickEnc(cfg, m) else Ok(m);
    FillEnc(cfg, picked)
  }

  predicate NoEmptyEnc(cfg: EncConfig) {
    "" !in cfg.sigAlgs && "" !in cfg.keyAlgs && "" !in cfg.contentAlgs
  }

  lemma PickEncStable(cfg: EncConfig, m: EncMeta)
    requires NoEmptyEnc(cfg) && PickEnc(cfg, m).Ok? && FillEnc(cfg, PickEnc(cfg, m).value).Ok?
    ensures var out := FillEnc(cfg, PickEnc(cfg, m).value).value; PickEnc(cfg, out) == Ok(out)
  {
    if cfg.enabled {
      ChoiceStable(m.sig, cfg.sigAlgs);
      if cfg.encEnabled {
        ChoiceStable(m.key, cfg.keyAlgs);
        ChoiceStable(m.content, cfg.contentAlgs);
      }
    }
  }

  lemma FillEncStable(cfg: EncConfig, m: EncMeta)
    requires NoEmptyEnc(cfg) && FillEnc(cfg, m).Ok?
    ensures FillEnc(cfg, FillEnc(cfg, m).value) == FillEnc(cfg, m)
  {
    if cfg.enabled && cfg.encEnabled && cfg.contentAlgs != [] {
      assert cfg.contentAlgs[0] in cfg.contentAlgs;
    }
  }

  lemma ResolveEncStable(cfg: EncConfig, choicesOn: bool, m: EncMeta)
    requires NoEmptyEnc(cfg) && ResolveEnc(cfg, choicesOn, m).Ok?
    ensures ResolveEnc(cfg, choicesOn, ResolveEnc(cfg, choicesOn, m).value) == ResolveEnc(cfg, choicesOn, m)
  {
    if choicesOn {
      PickEncStable(cfg, m);
      FillEncStable(cfg, PickEnc(cfg, m).value);
    } else {
      FillEncStable(cfg, m);
    }
  }

  // ----- client authentication -----

  const PRIVATE_KEY_JWT := "private_key_jwt"
  const SECRET_JWT := "client_secret_jwt"
  const TLS := "tls_client_auth"
  const SELF_SIGNED_TLS := "self_signed_tls_client_auth"
  const NONE := "none"

  /** The three TLS identifiers. */
  datatype TlsNames = TlsNames(dn: string, san: string, ip: string) {
    function Count(): nat {
      (if dn != "" then 1 else 0) + (if san != "" then 1 else 0) + (if ip != "" then 1 else 0)
    }
  }

  const NO_NAMES := TlsNames("", "", "")

  /** Authentication at a secondary endpoint. */
  datatype Endpoint = Endpoint(authnMethod: string, sigAlg: string)

  datatype AuthnMeta = AuthnMeta(
    authnMethod: Choice, sigAlg: Choice, tls: TlsNames, tlsBound: bool, introspection: Endpoint, revocation: Endpoint)

  /** Keys a client can authenticate with. */
  datatype KeySource = KeySource(jwks: bool, jwksUri: string, signedJwksUri: string)

  datatype AuthnConfig = AuthnConfig(
    methods: seq<string>, defaultMethod: string, privateKeyAlgs: seq<string>, secretAlgs: seq<string>,
    federation: bool, mtls: bool, introspection: bool, revocation: bool)

  predicate UsesJwt(authnMethod: string) {
    authnMethod == PRIVATE_KEY_JWT || authnMethod == SECRET_JWT
  }

  predicate SigAlgOk(cfg: AuthnConfig, authnMethod: string, sigAlg: string) {
    && (authnMethod == PRIVATE_KEY_JWT && sigAlg != "" ==> sigAlg in cfg.privateKeyAlgs)
    && (authnMethod == SECRET_JWT && sigAlg != "" ==> sigAlg in cfg.secretAlgs)
  }

  predicate CredentialsOk(cfg: AuthnConfig, keys: KeySource, authnMethod: string, tls: TlsNames) {
    && (authnMethod == PRIVATE_KEY_JWT ==> keys.jwks || keys.jwksUri != "" || (cfg.federation && keys.signedJwksUri != ""))
    && (authnMethod == SELF_SIGNED_TLS ==> keys.jwks || keys.jwksUri != "")
    && (authnMethod == TLS ==> tls.Count() == 1)
  }

  function ResolveEndpoint(cfg: AuthnConfig, enabled: bool, authnMethod: string, e: Endpoint): Result<Endpoint> {
    if !enabled then Ok(Endpoint("", ""))
    else if e.authnMethod == "" then Ok(e)
    else if e.authnMethod != authnMethod || !SigAlgOk(cfg, e.authnMethod, e.sigAlg) then Err
    else Ok(if UsesJwt(e.authnMethod) then e else e.(sigAlg := ""))
  }

  function PickAuthn(cfg: AuthnConfig, m: AuthnMeta): Result<AuthnMeta> {
    var authnMethod :- Resolved(m.authnMethod, cfg.methods);
    var sigAlg :- Resolved(m.sigAlg, cfg.privateKeyAlgs + cfg.secretAlgs);
    Ok(m.(authnMethod := m.authnMethod.(current := authnMethod), sigAlg := m.sigAlg.(current := sigAlg)))
  }

  function FillAuthn(cfg: AuthnConfig, keys: KeySource, m: AuthnMeta): Result<AuthnMeta> {
    var authnMethod := if m.authnMethod.current == "" then cfg.defaultMethod else m.authnMethod.current;
    if || authnMethod == "" || authnMethod !in cfg.methods
       || !SigAlgOk(cfg, authnMethod, m.sigAlg.current) || !CredentialsOk(cfg, keys, authnMethod, m.tls) then Err
    else
      var introspection :- ResolveEndpoint(cfg, cfg.introspection, authnMethod, m.introspection);
      var revocation :- ResolveEndpoint(cfg, cfg.revocation, authnMethod, m.revocation);
      Ok(AuthnMeta(
        m.authnMethod.(current := authnMethod),
        if UsesJwt(authnMethod) then m.sigAlg else m.sigAlg.(current := ""),
        if authnMethod == TLS && cfg.mtls then m.tls else NO_NAMES,
        m.tlsBound && cfg.mtls,
        introspection,
        revocation))
  }

  function ResolveAuthn(cfg: AuthnConfig, choicesOn: bool, keys: KeySource, m: AuthnMeta): Result<AuthnMeta> {
    var picked :- if choicesOn then PickAuthn(cfg, m) else Ok(m);
    FillAuthn(cfg, keys, picked)
  }

  predicate NoEmptyAuthn(cfg: AuthnConfig) {
    "" !in cfg.methods && "" !in cfg.privateKeyAlgs && "" !in cfg.secretAlgs
  }

  lemma FillAuthnStable(cfg: AuthnConfig, keys: KeySource, m: AuthnMeta, again: AuthnMeta)
    requires FillAuthn(cfg, keys, m).Ok?
    requires var out := FillAuthn(cfg, keys, m).value;
             again == out || (again == out.(sigAlg := again.sigAlg) && !UsesJwt(out.authnMethod.current)
                              && again.sigAlg.choices == out.sigAlg.choices)
    ensures var out := FillAuthn(cfg, keys, m).value;
            FillAuthn(cfg, keys, again) ==
            if out.authnMethod.current == TLS && !cfg.mtls then Err else Ok(out)
  {
  }

  /** Resolving client authentication again changes nothing, unless TLS
      authentication was resolved with mutual TLS switched off: then the
      identifiers were dropped and the second run fails. */
  lemma ResolveAuthnStable(cfg: AuthnConfig, choicesOn: bool, keys: KeySource, m: AuthnMeta)
    requires NoEmptyAuthn(cfg) && ResolveAuthn(cfg, choicesOn, keys, m).Ok?
    ensures var out := ResolveAuthn(cfg, choicesOn, keys, m).value;
            && out.authnMethod.current in cfg.methods
            && ResolveAuthn(cfg, choicesOn, keys, out) ==
               if out.authnMethod.current == TLS && !cfg.mtls then Err else Ok(out)
  {
    var picked := if choicesOn then PickAuthn(cfg, m).value else m;
    var out := FillAuthn(cfg, keys, picked).value;
    if choicesOn {
      ChoiceStable(m.authnMethod, cfg.methods);
      ChoiceStable(m.sigAlg, cfg.privateKeyAlgs + cfg.secretAlgs);
      assert Resolved(out.authnMethod, cfg.methods) == Ok(out.authnMethod.current);
      assert Resolved(out.sigAlg, cfg.privateKeyAlgs + cfg.secretAlgs).Ok?;
      FillAuthnStable(cfg, keys, picked, PickAuthn(cfg, out).value);
    } else {
      FillAuthnStable(cfg, keys, picked, out);
    }
  }

  // ----- the whole record -----

  const AUTHORIZATION_CODE := "authorization_code"
  const IMPLICIT := "implicit"
  const CLIENT_CREDENTIALS := "client_credentials"
  const CIBA := "urn:openid:params:grant-type:ciba"
  const CODE := "code"
  const WEB := "web"
  const PAIRWISE := "pairwise"

  datatype CibaMeta = CibaMeta(delivery: string, endpoint: string, jarSig: Choice, userCode: bool)

  datatype Flags = Flags(
    applicationType: string, parRequired: bool, jarRequired: bool, dpopBound: bool, credentialOffer: string,
    requestUris: seq<string>, detailTypes: seq<string>, postLogout: seq<string>)

  datatype Meta = Meta(
    authn: AuthnMeta, keys: KeySource, idToken: EncMeta, userInfo: EncMeta, jar: EncMeta, jarm: EncMeta,
    grantTypes: seq<string>, responseTypes: seq<string>, subject: Choice, ciba: CibaMeta, flags: Flags,
    scopes: string, redirectUris: seq<string>, sectorUri: string, maxAge: Option<int>, otherUris: seq<string>)

  datatype Server = Server(
    choicesOn: bool, authn: AuthnConfig, idToken: EncConfig, userInfo: EncConfig, jar: EncConfig, jarm: EncConfig,
    grantTypes: seq<string>, responseTypes: seq<string>, subjectTypes: seq<string>, subjectDefault: string,
    cibaModes: seq<string>, cibaJar: bool, cibaJarAlgs: seq<string>, cibaUserCode: bool,
    par: bool, dpop: bool, vci: bool, jarByReference: bool, rar: bool, detailTypes: seq<string>, logout: bool,
    scopesOk: string -> bool, urlOk: string -> bool, redirectOk: (string, string) -> bool, host: string -> string,
    implicitType: string -> bool, codeType: string -> bool, jwksOk: bool,
    sector: string -> Option<seq<string>>)

  function FillGrantTypes(s: Server, grantTypes: seq<string>): seq<string> {
    if grantTypes == [] && AUTHORIZATION_CODE in s.grantTypes then [AUTHORIZATION_CODE] else grantTypes
  }

  function FillResponseTypes(s: Server, grantTypes: seq<string>, responseTypes: seq<string>): seq<string> {
    if responseTypes == [] && CODE in s.responseTypes && AUTHORIZATION_CODE in grantTypes then [CODE] else responseTypes
  }

  function FillFlags(s: Server, f: Flags): Flags {
    Flags(
      if f.applicationType == "" then WEB else f.applicationType,
      f.parRequired && s.par,
      f.jarRequired && s.jar.enabled,
      f.dpopBound && s.dpop,
      if s.vci then f.credentialOffer else "",
      if s.jarByReference then f.requestUris else [],
      if s.rar then f.detailTypes else [],
      if s.logout then f.postLogout else [])
  }

  function PickSubject(s: Server, ch: Choice): Result<Choice> {
    var current :- Resolved(ch, s.subjectTypes);
    Ok(ch.(current := current))
  }

  function FillSubject(s: Server, ch: Choice): Result<Choice> {
    var filled := if ch.current == "" then s.subjectDefault else ch.current;
    if filled in s.subjectTypes then Ok(ch.(current := filled)) else Err
  }

  function ResolveSubject(s: Server, ch: Choice): Result<Choice> {
    var picked :- if s.choicesOn then PickSubject(s, ch) else Ok(ch);
    FillSubject(s, picked)
  }

  predicate Notifies(delivery: string) {
    delivery == "ping" || delivery == "push"
  }

  function PickCiba(s: Server, c: CibaMeta): Result<CibaMeta> {
    if CIBA !in s.grantTypes then Ok(c.(jarSig := c.jarSig.(choices := [])))
    else
      var current :- Resolved(c.jarSig, s.cibaJarAlgs);
      Ok(c.(jarSig := c.jarSig.(current := current)))
  }

  function FillCiba(s: Server, grantTypes: seq<string>, c: CibaMeta): Result<CibaMeta> {
    if CIBA !in grantTypes then Ok(CibaMeta("", "", Choice([], ""), false))
    else if c.delivery == "" || c.delivery !in s.cibaModes then Err
    else if Notifies(c.delivery) && (c.endpoint == "" || !s.urlOk(c.endpoint)) then Err
    else if s.cibaJar && c.jarSig.current != "" && c.jarSig.current !in s.cibaJarAlgs then Err
    else Ok(CibaMeta(
      c.delivery,
      if Notifies(c.delivery) then c.endpoint else "",
      if s.cibaJar then c.jarSig else c.jarSig.(current := ""),
      c.userCode && s.cibaUserCode))
  }

  function ResolveCiba(s: Server, grantTypes: seq<string>, c: CibaMeta): Result<CibaMeta> {
    var picked :- if s.choicesOn then PickCiba(s, c) else Ok(c);
    FillCiba(s, grantTypes, picked)
  }

  /** The checks that read the resolved record and change nothing. */
  predicate Acceptable(s: Server, m: Meta) {
    && s.scopesOk(m.scopes)
    && GrantTypesOk(s, m.grantTypes, m.authn.authnMethod.current)
    && (m.maxAge.Some? ==> m.maxAge.value >= 0)
    && RedirectsOk(s, m.flags.applicationType, m.redirectUris)
    && UrlsOk(s, m.flags.requestUris)
    && ResponseTypesOk(s, m.grantTypes, m.responseTypes)
    && KeysOk(s, m.keys)
    && DetailsOk(s, m.flags.detailTypes)
    && UrlsOk(s, m.otherUris)
    && UrlsOk(s, m.flags.postLogout)
    && PairwiseOk(s, m) && CibaOk(m) && SectorOk(s, m)
  }

  predicate GrantTypesOk(s: Server, grantTypes: seq<string>, authnMethod: string) {
    && (forall g :: g in grantTypes ==> g in s.grantTypes)
    && (CLIENT_CREDENTIALS in grantTypes ==> authnMethod != NONE)
  }

  predicate RedirectsOk(s: Server, applicationType: string, uris: seq<string>) {
    forall u :: u in uris ==> s.redirectOk(applicationType, u)
  }

  predicate UrlsOk(s: Server, uris: seq<string>) {
    forall u :: u in uris ==> s.urlOk(u)
  }

  predicate DetailsOk(s: Server, types: seq<string>) {
    forall d :: d in types ==> d in s.detailTypes
  }

  predicate ResponseTypesOk(s: Server, grantTypes: seq<string>, responseTypes: seq<string>) {
    forall t :: t in responseTypes ==>
      && t in s.responseTypes
      && (s.implicitType(t) ==> IMPLICIT in grantTypes)
      && (s.codeType(t) ==> AUTHORIZATION_CODE in grantTypes)
  }

  predicate KeysOk(s: Server, k: KeySource) {
    && (k.jwks ==> k.jwksUri == "" && s.jwksOk)
    && (k.jwksUri != "" ==> s.urlOk(k.jwksUri))
    && (k.signedJwksUri != "" ==> s.urlOk(k.signedJwksUri))
  }

  predicate Redirects(m: Meta) {
    AUTHORIZATION_CODE in m.grantTypes || IMPLICIT in m.grantTypes
  }

  /** Without a sector document, pairwise subjects need a single redirect host. */
  predicate PairwiseOk(s: Server, m: Meta) {
    m.subject.current == PAIRWISE && m.sectorUri == "" && Redirects(m) ==>
      |set u | u in m.redirectUris :: s.host(u)| == 1
  }

  predicate CibaOk(m: Meta) {
    CIBA in m.grantTypes ==>
      && m.authn.authnMethod.current != NONE
      && (m.subject.current == PAIRWISE && m.ciba.delivery != "push" ==>
            && m.keys.jwksUri != ""
            && (m.authn.authnMethod.current in {PRIVATE_KEY_JWT, SELF_SIGNED_TLS} || m.ciba.jarSig.current != ""))
  }

  predicate SectorOk(s: Server, m: Meta) {
    m.sectorUri != "" ==>
      && s.urlOk(m.sectorUri) && s.sector(m.sectorUri).Some?
      && var listed := s.sector(m.sectorUri).value;
         && (Redirects(m) ==> forall u :: u in m.redirectUris ==> u in listed)
         && (CIBA in m.grantTypes && m.ciba.delivery == "push" ==> m.ciba.endpoint in listed)
         && (CIBA in m.grantTypes && m.ciba.delivery != "push" && m.keys.jwksUri != "" ==> m.keys.jwksUri in listed)
  }

  /** `Resolve`: fill in and clear fields group by group, then check the result. */
  function Resolve(s: Server, c: Meta): Result<Meta> {
    var authn :- ResolveAuthn(s.authn, s.choicesOn, c.keys, c.authn);
    var idToken :- ResolveEnc(s.idToken, s.choicesOn, c.idToken);
    var userInfo :- ResolveEnc(s.userInfo, s.choicesOn, c.userInfo);
    var jar :- ResolveEnc(s.jar, s.choicesOn, c.jar);
    var jarm :- ResolveEnc(s.jarm, s.choicesOn, c.jarm);
    var subject :- ResolveSubject(s, c.subject);
    var grantTypes := FillGrantTypes(s, c.grantTypes);
    var ciba :- ResolveCiba(s, grantTypes, c.ciba);
    var out := c.(authn := authn, idToken := idToken, userInfo := userInfo, jar := jar, jarm := jarm,
                  subject := subject, grantTypes := grantTypes,
                  responseTypes := FillResponseTypes(s, grantTypes, c.responseTypes),
                  ciba := ciba, flags := FillFlags(s, c.flags));
    if Acceptable(s, out) then Ok(out) else Err
  }

  predicate NoEmptySupported(s: Server) {
    && NoEmptyAuthn(s.authn) && NoEmptyEnc(s.idToken) && NoEmptyEnc(s.userInfo) && NoEmptyEnc(s.jar) && NoEmptyEnc(s.jarm)
    && "" !in s.subjectTypes && "" !in s.cibaJarAlgs
  }

  lemma FlagsStable(s: Server, f: Flags)
    ensures FillFlags(s, FillFlags(s, f)) == FillFlags(s, f)
  {
  }

  lemma ResolveSubjectStable(s: Server, ch: Choice)
    requires "" !in s.subjectTypes && ResolveSubject(s, ch).Ok?
    ensures ResolveSubject(s, ResolveSubject(s, ch).value) == ResolveSubject(s, ch)
  {
    if s.choicesOn { ChoiceStable(ch, s.subjectTypes); }
  }

  lemma ResolveCibaStable(s: Server, grantTypes: seq<string>, c: CibaMeta)
    requires "" !in s.cibaJarAlgs && ResolveCiba(s, grantTypes, c).Ok?
    ensures ResolveCiba(s, grantTypes, ResolveCiba(s, grantTypes, c).value) == ResolveCiba(s, grantTypes, c)
  {
    if s.choicesOn && CIBA in s.grantTypes { ChoiceStable(c.jarSig, s.cibaJarAlgs); }
  }

  /** Resolution is a normaliser: run on its own result it succeeds and changes
      nothing, if and only if the resolved method is not TLS client
      authentication on a server with mutual TLS switched off. */
  lemma ResolveIsNormaliser(s: Server, c: Meta)
    requires NoEmptySupported(s) && Resolve(s, c).Ok?
    ensures var out := Resolve(s, c).value;
            (Resolve(s, out) == Ok(out) <==> !(out.authn.authnMethod.current == TLS && !s.authn.mtls))
    ensures (TLS in s.authn.methods ==> s.authn.mtls) ==> Resolve(s, Resolve(s, c).value) == Resolve(s, c)
  {
    hide ResolveAuthn, ResolveEnc, ResolveSubject, ResolveCiba, Acceptable, FillFlags;
    FlagsStable(s, c.flags);
    ResolveAuthnStable(s.authn, s.choicesOn, c.keys, c.authn);
    ResolveEncStable(s.idToken, s.choicesOn, c.idToken);
    ResolveEncStable(s.userInfo, s.choicesOn, c.userInfo);
    ResolveEncStable(s.jar, s.choicesOn, c.jar);
    ResolveEncStable(s.jarm, s.choicesOn, c.jarm);
    ResolveSubjectStable(s, c.subject);
    ResolveCibaStable(s, FillGrantTypes(s, c.grantTypes), c.ciba);
  }

  // ----- the normal forms -----

  /** A value in use agrees with the choices, if the client lists any. */
  predicate Agrees(choicesOn: bool, ch: Choice, supported: seq<string>) {
    choicesOn && ch.choices != [] ==> ch.current in ch.choices && ch.current in supported
  }

  predicate Unset(choicesOn: bool, ch: Choice) {
    ch.current == "" && (choicesOn ==> ch.choices == [])
  }

  predicate EncCanonical(cfg: EncConfig, choicesOn: bool, m: EncMeta) {
    if !cfg.enabled then Unset(choicesOn, m.sig) && Unset(choicesOn, m.key) && Unset(choicesOn, m.content)
    else
      && (m.sig.current in cfg.sigAlgs || (m.sig.current == "" && !cfg.sigRequired))
      && Agrees(choicesOn, m.sig, cfg.sigAlgs)
      && if !cfg.encEnabled then Unset(choicesOn, m.key) && Unset(choicesOn, m.content)
         else
           && Agrees(choicesOn, m.key, cfg.keyAlgs) && Agrees(choicesOn, m.content, cfg.contentAlgs)
           && (m.key.current == "" ==> m.content.current == "")
           && (m.key.current != "" ==>
                 && m.key.current in cfg.keyAlgs
                 && (m.content.current in cfg.contentAlgs || (m.content.current == "" && !cfg.contentDefault)))
  }

  lemma EncFixpoints(cfg: EncConfig, choicesOn: bool, m: EncMeta)
    requires NoEmptyEnc(cfg)
    ensures ResolveEnc(cfg, choicesOn, m) == Ok(m) <==> EncCanonical(cfg, choicesOn, m)
  {
    if choicesOn {
      FirstSupportedFound(m.sig.choices, cfg.sigAlgs);
      FirstSupportedFound(m.key.choices, cfg.keyAlgs);
      FirstSupportedFound(m.content.choices, cfg.contentAlgs);
      if ResolveEnc(cfg, choicesOn, m) == Ok(m) {
        PickEncStable(cfg, m);
      }
    }
  }

  predicate EndpointCanonical(cfg: AuthnConfig, enabled: bool, authnMethod: string, e: Endpoint) {
    if !enabled then e == Endpoint("", "")
    else e.authnMethod != "" ==>
      && e.authnMethod == authnMethod && SigAlgOk(cfg, authnMethod, e.sigAlg)
      && (e.sigAlg != "" ==> UsesJwt(authnMethod))
  }

  /** Everything about authentication but the choices. */
  predicate AuthnFilled(cfg: AuthnConfig, keys: KeySource, m: AuthnMeta) {
    var authnMethod := m.authnMethod.current;
    && authnMethod in cfg.methods
    && (if UsesJwt(authnMethod) then SigAlgOk(cfg, authnMethod, m.sigAlg.current) else m.sigAlg.current == "")
    && CredentialsOk(cfg, keys, authnMethod, m.tls)
    && (m.tls != NO_NAMES ==> authnMethod == TLS && cfg.mtls)
    && (m.tlsBound ==> cfg.mtls)
    && EndpointCanonical(cfg, cfg.introspection, authnMethod, m.introspection)
    && EndpointCanonical(cfg, cfg.revocation, authnMethod, m.revocation)
  }

  /** A signing algorithm that is cleared anyway only has to be resolvable. */
  predicate AuthnCanonical(cfg: AuthnConfig, choicesOn: bool, keys: KeySource, m: AuthnMeta) {
    var algs := cfg.privateKeyAlgs + cfg.secretAlgs;
    && AuthnFilled(cfg, keys, m)
    && Agrees(choicesOn, m.authnMethod, cfg.methods)
    && (if UsesJwt(m.authnMethod.current) then Agrees(choicesOn, m.sigAlg, algs)
        else choicesOn && m.sigAlg.choices != [] ==> exists a :: a in m.sigAlg.choices && a in algs)
  }

  lemma EndpointFixpoints(cfg: AuthnConfig, enabled: bool, authnMethod: string, e: Endpoint)
    ensures ResolveEndpoint(cfg, enabled, authnMethod, e) == Ok(e) <==> EndpointCanonical(cfg, enabled, authnMethod, e)
  {
  }

  lemma ChoiceFixpoints(ch: Choice, supported: seq<string>)
    requires "" !in supported
    ensures Resolved(ch, supported) == Ok(ch.current) <==> Agrees(true, ch, supported)
    ensures ch.current == "" ==>
              (Resolved(ch, supported).Ok? <==> (ch.choices != [] ==> exists a :: a in ch.choices && a in supported))
  {
    FirstSupportedFound(ch.choices, supported);
  }

  /** Filling `p` in yields `m`, where `p` may still carry an algorithm that is dropped. */
  lemma FillAuthnFixpoints(cfg: AuthnConfig, keys: KeySource, p: AuthnMeta, m: AuthnMeta)
    requires NoEmptyAuthn(cfg)
    requires m == p.(sigAlg := m.sigAlg) && m.sigAlg.choices == p.sigAlg.choices
    requires p == m || (!UsesJwt(m.authnMethod.current) && m.sigAlg.current == "")
    ensures FillAuthn(cfg, keys, p) == Ok(m) <==> AuthnFilled(cfg, keys, m)
  {
    hide ResolveEndpoint, EndpointCanonical, SigAlgOk;
    SigAlgUnused(cfg, m.authnMethod.current, p.sigAlg.current);
    EndpointFixpoints(cfg, cfg.introspection, m.authnMethod.current, m.introspection);
    EndpointFixpoints(cfg, cfg.revocation, m.authnMethod.current, m.revocation);
  }

  lemma SigAlgUnused(cfg: AuthnConfig, authnMethod: string, sigAlg: string)
    ensures !UsesJwt(authnMethod) ==> SigAlgOk(cfg, authnMethod, sigAlg)
  {
  }

  lemma AuthnFixpoints(cfg: AuthnConfig, choicesOn: bool, keys: KeySource, m: AuthnMeta)
    requires NoEmptyAuthn(cfg)
    ensures ResolveAuthn(cfg, choicesOn, keys, m) == Ok(m) <==> AuthnCanonical(cfg, choicesOn, keys, m)
  {
    hide AuthnFilled, FillAuthn, Resolved;
    FillAuthnFixpoints(cfg, keys, m, m);
    if choicesOn {
      var algs := cfg.privateKeyAlgs + cfg.secretAlgs;
      ChoiceFixpoints(m.authnMethod, cfg.methods);
      ChoiceFixpoints(m.sigAlg, algs);
      if AuthnFilled(cfg, keys, m) { FilledFacts(cfg, keys, m); }
      if PickAuthn(cfg, m).Ok? {
        var p := PickAuthn(cfg, m).value;
        PickedFacts(cfg, keys, p);
        if !UsesJwt(m.authnMethod.current) && m.sigAlg.current == "" && p.authnMethod == m.authnMethod {
          FillAuthnFixpoints(cfg, keys, p, m);
        }
        if Resolved(m.authnMethod, cfg.methods).Ok? && "" !in cfg.methods {
          ChoiceNonempty(m.authnMethod, cfg.methods);
        }
      }
    }
  }

  lemma ChoiceNonempty(ch: Choice, supported: seq<string>)
    requires "" !in supported && Resolved(ch, supported).Ok?
    ensures ch.choices != [] ==> Resolved(ch, supported).value != ""
    ensures ch.choices == [] ==> Resolved(ch, supported).value == ch.current
  {
    ChoiceStable(ch, supported);
  }

  lemma FilledFacts(cfg: AuthnConfig, keys: KeySource, m: AuthnMeta)
    requires AuthnFilled(cfg, keys, m)
    ensures !UsesJwt(m.authnMethod.current) ==> m.sigAlg.current == ""
  {
  }

  /** Filling in keeps a method that is set, and clears only unused algorithms. */
  lemma PickedFacts(cfg: AuthnConfig, keys: KeySource, p: AuthnMeta)
    ensures FillAuthn(cfg, keys, p).Ok? ==>
              var out := FillAuthn(cfg, keys, p).value;
              && out.authnMethod.choices == p.authnMethod.choices && out.sigAlg.choices == p.sigAlg.choices
              && (p.authnMethod.current != "" ==> out.authnMethod == p.authnMethod)
              && (if UsesJwt(out.authnMethod.current) then out.sigAlg == p.sigAlg else out.sigAlg.current == "")
  {
  }

  predicate CibaCanonical(s: Server, grantTypes: seq<string>, c: CibaMeta) {
    if CIBA !in grantTypes then c == CibaMeta("", "", Choice([], ""), false)
    else
      && c.delivery != "" && c.delivery in s.cibaModes
      && (if Notifies(c.delivery) then c.endpoint != "" && s.urlOk(c.endpoint) else c.endpoint == "")
      && (c.userCode ==> s.cibaUserCode)
      && (if s.cibaJar then
            && (c.jarSig.current == "" || c.jarSig.current in s.cibaJarAlgs)
            && (CIBA in s.grantTypes ==> Agrees(s.choicesOn, c.jarSig, s.cibaJarAlgs))
          else
            && c.jarSig.current == ""
            && (s.choicesOn && CIBA in s.grantTypes && c.jarSig.choices != [] ==>
                  exists a :: a in c.jarSig.choices && a in s.cibaJarAlgs))
      && (s.choicesOn && CIBA !in s.grantTypes ==> c.jarSig.choices == [])
  }

  lemma CibaFixpoints(s: Server, grantTypes: seq<string>, c: CibaMeta)
    requires "" !in s.cibaJarAlgs
    ensures ResolveCiba(s, grantTypes, c) == Ok(c) <==> CibaCanonical(s, grantTypes, c)
  {
    if Resolved(c.jarSig, s.cibaJarAlgs).Ok? { ChoiceStable(c.jarSig, s.cibaJarAlgs); }
    FirstSupportedFound(c.jarSig.choices, s.cibaJarAlgs);
  }

  /** Every group in normal form, the defaults filled in, and the whole acceptable. */
  predicate Canonical(s: Server, m: Meta) {
    && AuthnCanonical(s.authn, s.choicesOn, m.keys, m.authn)
    && EncCanonical(s.idToken, s.choicesOn, m.idToken) && EncCanonical(s.userInfo, s.choicesOn, m.userInfo)
    && EncCanonical(s.jar, s.choicesOn, m.jar) && EncCanonical(s.jarm, s.choicesOn, m.jarm)
    && m.subject.current in s.subjectTypes && Agrees(s.choicesOn, m.subject, s.subjectTypes)
    && CibaCanonical(s, m.grantTypes, m.ciba)
    && (m.grantTypes == [] ==> AUTHORIZATION_CODE !in s.grantTypes)
    && (m.responseTypes == [] ==> CODE !in s.responseTypes || AUTHORIZATION_CODE !in m.grantTypes)
    && FlagsCanonical(s, m.flags)
    && Acceptable(s, m)
  }

  /** An application type is set, and nothing belongs to a feature that is off. */
  predicate FlagsCanonical(s: Server, f: Flags) {
    && f.applicationType != ""
    && (f.parRequired ==> s.par) && (f.jarRequired ==> s.jar.enabled) && (f.dpopBound ==> s.dpop)
    && (f.credentialOffer != "" ==> s.vci) && (f.requestUris != [] ==> s.jarByReference)
    && (f.detailTypes != [] ==> s.rar) && (f.postLogout != [] ==> s.logout)
  }

  lemma FlagsFixpoints(s: Server, f: Flags)
    ensures FillFlags(s, f) == f <==> FlagsCanonical(s, f)
  {
  }

  lemma SubjectFixpoints(s: Server, ch: Choice)
    requires "" !in s.subjectTypes
    ensures ResolveSubject(s, ch) == Ok(ch) <==> ch.current in s.subjectTypes && Agrees(s.choicesOn, ch, s.subjectTypes)
  {
    if Resolved(ch, s.subjectTypes).Ok? { ChoiceStable(ch, s.subjectTypes); }
    FirstSupportedFound(ch.choices, s.subjectTypes);
  }

  /** The records that resolution leaves alone are exactly the normal forms. */
  lemma ResolveFixpoints(s: Server, m: Meta)
    requires NoEmptySupported(s)
    ensures Resolve(s, m) == Ok(m) <==> Canonical(s, m)
  {
    hide ResolveAuthn, ResolveEnc, ResolveSubject, ResolveCiba, Acceptable, FillFlags,
         AuthnCanonical, EncCanonical, CibaCanonical, FlagsCanonical, Agrees;
    FlagsFixpoints(s, m.flags);
    AuthnFixpoints(s.authn, s.choicesOn, m.keys, m.authn);
    EncFixpoints(s.idToken, s.choicesOn, m.idToken);
    EncFixpoints(s.userInfo, s.choicesOn, m.userInfo);
    EncFixpoints(s.jar, s.choicesOn, m.jar);
    EncFixpoints(s.jarm, s.choicesOn, m.jarm);
    SubjectFixpoints(s, m.subject);
    CibaFixpoints(s, m.grantTypes, m.ciba);
  }
}
