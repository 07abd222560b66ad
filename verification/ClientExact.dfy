/** Client resolution field by field: which value each field ends with, and which
    clients are refused, written out without the functions that compute them. */
module ClientExact {
  import opened Wrappers
  import opened ClientResolve

  // ----- choices -----

  /** `v` is the supported choice at the least position. */
  predicate IsFirst(choices: seq<string>, supported: seq<string>, v: string) {
    exists n :: 0 <= n < |choices| && choices[n] == v && v in supported && forall j :: 0 <= j < n ==> choices[j] !in supported
  }

  lemma {:induction false} FirstExactly(choices: seq<string>, supported: seq<string>, v: string)
    ensures FirstSupported(choices, supported) == Ok(v) <==> IsFirst(choices, supported, v)
    decreases |choices|
  {
    if choices != [] && choices[0] !in supported {
      var rest := choices[1..];
      FirstExactly(rest, supported, v);
      if n :| 0 <= n < |choices| && choices[n] == v && v in supported && forall j :: 0 <= j < n ==> choices[j] !in supported {
        assert rest[n - 1] == v && forall j :: 0 <= j < n - 1 ==> rest[j] == choices[j + 1];
      }
      if n :| 0 <= n < |rest| && rest[n] == v && v in supported && forall j :: 0 <= j < n ==> rest[j] !in supported {
        assert choices[n + 1] == v && forall j :: 0 < j < n + 1 ==> choices[j] == rest[j - 1];
      }
    }
  }

  /** What a choice comes to: without a list, or where lists are not read, the
      value in use; otherwise that value if it is listed and supported, and the
      first supported one of the list if none is in use or it is not supported. */
  predicate Chosen(on: bool, ch: Choice, supported: seq<string>, v: string) {
    if !on || ch.choices == [] then v == ch.current
    else if ch.current == "" then IsFirst(ch.choices, supported, v)
    else ch.current in ch.choices && if ch.current in supported then v == ch.current else IsFirst(ch.choices, supported, v)
  }

  lemma ChosenExactly(on: bool, ch: Choice, supported: seq<string>)
    ensures var picked := if on then Resolved(ch, supported) else Ok(ch.current);
            && (forall v :: picked == Ok(v) <==> Chosen(on, ch, supported, v))
            && (picked.Ok? ==> Chosen(on, ch, supported, picked.value))
  {
    forall v ensures (if on then Resolved(ch, supported) else Ok(ch.current)) == Ok(v) <==> Chosen(on, ch, supported, v) {
      FirstExactly(ch.choices, supported, v);
    }
  }

  // ----- signing and encryption -----

  /** The fields of a feature that is off. */
  predicate Off(on: bool, ch: Choice, out: Choice) {
    out.current == "" && out.choices == if on then [] else ch.choices
  }

  predicate SigSettled(cfg: EncConfig, v: string, out: string) {
    && (v != "" ==> out == v && v in cfg.sigAlgs)
    && (v == "" && cfg.sigRequired ==> out == cfg.defaultSig && out in cfg.sigAlgs)
    && (v == "" && !cfg.sigRequired ==> out == "")
  }

  /** A content algorithm needs a key algorithm, and gets the server's first one
      where the server has a default. */
  predicate ContentSettled(cfg: EncConfig, key: string, v: string, out: string) {
    && (key == "" ==> v == "" && out == "")
    && (key != "" ==>
          && key in cfg.keyAlgs
          && (v != "" ==> out == v && v in cfg.contentAlgs)
          && (v == "" && cfg.contentDefault ==> cfg.contentAlgs != [] && out == cfg.contentAlgs[0])
          && (v == "" && !cfg.contentDefault ==> out == ""))
  }

  ghost predicate EncSettled(cfg: EncConfig, on: bool, m: EncMeta, out: EncMeta) {
    if !cfg.enabled then Off(on, m.sig, out.sig) && Off(on, m.key, out.key) && Off(on, m.content, out.content)
    else
      && out.sig.choices == m.sig.choices
      && (exists v :: Chosen(on, m.sig, cfg.sigAlgs, v) && SigSettled(cfg, v, out.sig.current))
      && if !cfg.encEnabled then Off(on, m.key, out.key) && Off(on, m.content, out.content)
         else
           && out.key.choices == m.key.choices && out.content.choices == m.content.choices
           && Chosen(on, m.key, cfg.keyAlgs, out.key.current)
           && exists v :: Chosen(on, m.content, cfg.contentAlgs, v) && ContentSettled(cfg, out.key.current, v, out.content.current)
  }

  lemma EncExactly(cfg: EncConfig, on: bool, m: EncMeta, out: EncMeta)
    ensures ResolveEnc(cfg, on, m) == Ok(out) <==> EncSettled(cfg, on, m, out)
  {
    hide Resolved, Chosen;
    ChosenExactly(on, m.sig, cfg.sigAlgs);
    ChosenExactly(on, m.key, cfg.keyAlgs);
    ChosenExactly(on, m.content, cfg.contentAlgs);
  }

  // ----- client authentication -----

  /** The signing algorithm used with a method: checked against the method's own
      list, and dropped for methods that sign nothing. */
  predicate AlgSettled(cfg: AuthnConfig, authnMethod: string, v: string, out: string) {
    if authnMethod == "private_key_jwt" then out == v && (v == "" || v in cfg.privateKeyAlgs)
    else if authnMethod == "client_secret_jwt" then out == v && (v == "" || v in cfg.secretAlgs)
    else out == ""
  }

  predicate EndpointSettled(cfg: AuthnConfig, enabled: bool, authnMethod: string, e: Endpoint, out: Endpoint) {
    if !enabled then out.authnMethod == "" && out.sigAlg == ""
    else if e.authnMethod == "" then out == e
    else e.authnMethod == authnMethod && out.authnMethod == authnMethod && AlgSettled(cfg, authnMethod, e.sigAlg, out.sigAlg)
  }

  /** The client has what it needs to authenticate. */
  predicate Equipped(cfg: AuthnConfig, keys: KeySource, authnMethod: string, tls: TlsNames) {
    match authnMethod
    case "private_key_jwt" => keys.jwks || keys.jwksUri != "" || (cfg.federation && keys.signedJwksUri != "")
    case "self_signed_tls_client_auth" => keys.jwks || keys.jwksUri != ""
    case "tls_client_auth" =>
      || (tls.dn != "" && tls.san == "" && tls.ip == "")
      || (tls.dn == "" && tls.san != "" && tls.ip == "")
      || (tls.dn == "" && tls.san == "" && tls.ip != "")
    case _ => true
  }

  /** Client authentication from the chosen method and the chosen algorithm. */
  predicate AuthnFrom(cfg: AuthnConfig, keys: KeySource, chosen: string, alg: string, m: AuthnMeta, out: AuthnMeta) {
    var authnMethod := out.authnMethod.current;
    && out.authnMethod.choices == m.authnMethod.choices && out.sigAlg.choices == m.sigAlg.choices
    && authnMethod == (if chosen != "" then chosen else cfg.defaultMethod)
    && authnMethod != "" && authnMethod in cfg.methods
    && AlgSettled(cfg, authnMethod, alg, out.sigAlg.current)
    && Equipped(cfg, keys, authnMethod, m.tls)
    && out.tls == (if authnMethod == "tls_client_auth" && cfg.mtls then m.tls else TlsNames("", "", ""))
    && (out.tlsBound <==> m.tlsBound && cfg.mtls)
    && EndpointSettled(cfg, cfg.introspection, authnMethod, m.introspection, out.introspection)
    && EndpointSettled(cfg, cfg.revocation, authnMethod, m.revocation, out.revocation)
  }

  ghost predicate AuthnSettled(cfg: AuthnConfig, on: bool, keys: KeySource, m: AuthnMeta, out: AuthnMeta) {
    exists chosen, alg ::
      && Chosen(on, m.authnMethod, cfg.methods, chosen)
      && Chosen(on, m.sigAlg, cfg.privateKeyAlgs + cfg.secretAlgs, alg)
      && AuthnFrom(cfg, keys, chosen, alg, m, out)
  }

  lemma EndpointExactly(cfg: AuthnConfig, enabled: bool, authnMethod: string, e: Endpoint, out: Endpoint)
    ensures ResolveEndpoint(cfg, enabled, authnMethod, e) == Ok(out) <==> EndpointSettled(cfg, enabled, authnMethod, e, out)
  {
  }

  lemma AlgExactly(cfg: AuthnConfig, authnMethod: string, v: string, out: string)
    ensures AlgSettled(cfg, authnMethod, v, out) <==> SigAlgOk(cfg, authnMethod, v) && out == if UsesJwt(authnMethod) then v else ""
  {
  }

  lemma EquippedExactly(cfg: AuthnConfig, keys: KeySource, authnMethod: string, tls: TlsNames)
    ensures CredentialsOk(cfg, keys, authnMethod, tls) <==> Equipped(cfg, keys, authnMethod, tls)
  {
  }

  lemma AuthnFromExactly(cfg: AuthnConfig, keys: KeySource, chosen: string, alg: string, m: AuthnMeta, out: AuthnMeta)
    ensures FillAuthn(cfg, keys, m.(authnMethod := m.authnMethod.(current := chosen), sigAlg := m.sigAlg.(current := alg))) == Ok(out) <==>
            AuthnFrom(cfg, keys, chosen, alg, m, out)
  {
    hide ResolveEndpoint, EndpointSettled, SigAlgOk, AlgSettled, UsesJwt, CredentialsOk, Equipped;
    var authnMethod := out.authnMethod.current;
    AlgExactly(cfg, authnMethod, alg, out.sigAlg.current);
    EquippedExactly(cfg, keys, authnMethod, m.tls);
    EndpointExactly(cfg, cfg.introspection, authnMethod, m.introspection, out.introspection);
    EndpointExactly(cfg, cfg.revocation, authnMethod, m.revocation, out.revocation);
  }

  lemma AuthnExactly(cfg: AuthnConfig, on: bool, keys: KeySource, m: AuthnMeta, out: AuthnMeta)
    ensures ResolveAuthn(cfg, on, keys, m) == Ok(out) <==> AuthnSettled(cfg, on, keys, m, out)
  {
    hide Resolved, Chosen, FillAuthn, AuthnFrom;
    ChosenExactly(on, m.authnMethod, cfg.methods);
    ChosenExactly(on, m.sigAlg, cfg.privateKeyAlgs + cfg.secretAlgs);
    if on {
      if PickAuthn(cfg, m).Ok? {
        var p := PickAuthn(cfg, m).value;
        AuthnFromExactly(cfg, keys, p.authnMethod.current, p.sigAlg.current, m, out);
      }
    } else {
      AuthnFromExactly(cfg, keys, m.authnMethod.current, m.sigAlg.current, m, out);
    }
  }

  // ----- subject type and CIBA -----

  ghost predicate SubjectSettled(s: Server, ch: Choice, out: Choice) {
    && out.choices == ch.choices && out.current in s.subjectTypes
    && exists v :: Chosen(s.choicesOn, ch, s.subjectTypes, v) && out.current == if v != "" then v else s.subjectDefault
  }

  lemma SubjectExactly(s: Server, ch: Choice, out: Choice)
    ensures ResolveSubject(s, ch) == Ok(out) <==> SubjectSettled(s, ch, out)
  {
    hide Resolved, Chosen;
    ChosenExactly(s.choicesOn, ch, s.subjectTypes);
  }

  predicate JarSigSettled(s: Server, grantTypes: seq<string>, v: string, out: string) {
    if CIBA !in grantTypes || !s.cibaJar then out == ""
    else out == v && (v == "" || v in s.cibaJarAlgs)
  }

  /** A list of request-signing algorithms has to be resolvable wherever the
      server has CIBA; the rest matters only to clients that use it. */
  ghost predicate CibaSettled(s: Server, grantTypes: seq<string>, c: CibaMeta, out: CibaMeta) {
    var lists := s.choicesOn && CIBA in s.grantTypes;
    && (exists v :: Chosen(lists, c.jarSig, s.cibaJarAlgs, v) && JarSigSettled(s, grantTypes, v, out.jarSig.current))
    && if CIBA !in grantTypes then out == CibaMeta("", "", Choice([], ""), false)
       else
         && out.delivery == c.delivery && c.delivery != "" && c.delivery in s.cibaModes
         && (c.delivery == "ping" || c.delivery == "push" ==> out.endpoint == c.endpoint && c.endpoint != "" && s.urlOk(c.endpoint))
         && (c.delivery != "ping" && c.delivery != "push" ==> out.endpoint == "")
         && out.jarSig.choices == (if s.choicesOn && CIBA !in s.grantTypes then [] else c.jarSig.choices)
         && (out.userCode <==> c.userCode && s.cibaUserCode)
  }

  lemma CibaExactly(s: Server, grantTypes: seq<string>, c: CibaMeta, out: CibaMeta)
    ensures ResolveCiba(s, grantTypes, c) == Ok(out) <==> CibaSettled(s, grantTypes, c, out)
  {
    hide Resolved, Chosen;
    var lists := s.choicesOn && CIBA in s.grantTypes;
    ChosenExactly(lists, c.jarSig, s.cibaJarAlgs);
    var picked := if lists then Resolved(c.jarSig, s.cibaJarAlgs) else Ok(c.jarSig.current);
    if ResolveCiba(s, grantTypes, c) == Ok(out) {
      assert JarSigSettled(s, grantTypes, picked.value, out.jarSig.current);
    }
  }

  // ----- the checks -----

  /** URIs that the sector document has to list. */
  function Wanted(m: Meta): set<string> {
    (if "authorization_code" in m.grantTypes || "implicit" in m.grantTypes then set u | u in m.redirectUris else {})
    + (if CIBA !in m.grantTypes then {}
       else if m.ciba.delivery == "push" then {m.ciba.endpoint}
       else if m.keys.jwksUri != "" then {m.keys.jwksUri} else {})
  }

  /** What every accepted client satisfies. */
  ghost predicate Sound(s: Server, m: Meta) {
    && (forall g :: g in m.grantTypes ==> g in s.grantTypes)
    && (m.authn.authnMethod.current == "none" ==> "client_credentials" !in m.grantTypes && CIBA !in m.grantTypes)
    && (forall t :: t in m.responseTypes ==>
          && t in s.responseTypes
          && (s.implicitType(t) ==> "implicit" in m.grantTypes) && (s.codeType(t) ==> "authorization_code" in m.grantTypes))
    && (forall u :: u in m.redirectUris ==> s.redirectOk(m.flags.applicationType, u))
    && (forall u :: u in m.flags.requestUris || u in m.otherUris || u in m.flags.postLogout ==> s.urlOk(u))
    && (forall d :: d in m.flags.detailTypes ==> d in s.detailTypes)
    && s.scopesOk(m.scopes) && (m.maxAge == None || m.maxAge.value >= 0)
    && !(m.keys.jwks && m.keys.jwksUri != "") && (m.keys.jwks ==> s.jwksOk)
    && (m.keys.jwksUri == "" || s.urlOk(m.keys.jwksUri)) && (m.keys.signedJwksUri == "" || s.urlOk(m.keys.signedJwksUri))
    && (m.subject.current == "pairwise" ==> HostSound(s, m) && CibaSound(m))
    && (m.sectorUri != "" ==>
          && s.urlOk(m.sectorUri)
          && exists listed :: s.sector(m.sectorUri) == Some(listed) && forall u :: u in Wanted(m) ==> u in listed)
  }

  /** A client with pairwise subjects names its sector, or all its redirect URIs
      share one host. */
  ghost predicate HostSound(s: Server, m: Meta) {
    m.sectorUri == "" && ("authorization_code" in m.grantTypes || "implicit" in m.grantTypes) ==>
      m.redirectUris != [] && forall u, v :: u in m.redirectUris && v in m.redirectUris ==> s.host(u) == s.host(v)
  }

  /** With CIBA it shows that it controls its keys. */
  predicate CibaSound(m: Meta) {
    CIBA in m.grantTypes && m.ciba.delivery != "push" ==>
      && m.keys.jwksUri != ""
      && (|| m.authn.authnMethod.current == "private_key_jwt" || m.authn.authnMethod.current == "self_signed_tls_client_auth"
          || m.ciba.jarSig.current != "")
  }

  lemma OneHost(s: Server, uris: seq<string>)
    ensures |set u | u in uris :: s.host(u)| == 1 <==>
            uris != [] && forall u, v :: u in uris && v in uris ==> s.host(u) == s.host(v)
  {
    var hosts := set u | u in uris :: s.host(u);
    if uris == [] {
      assert hosts == {};
    } else {
      var h := s.host(uris[0]);
      assert uris[0] in uris;
      assert h in hosts && |hosts - {h}| == |hosts| - 1;
      if |hosts| == 1 {
        forall u | u in uris ensures s.host(u) == h {
          assert s.host(u) in hosts;
          assert hosts - {h} == {} ;
        }
      }
      if forall u, v :: u in uris && v in uris ==> s.host(u) == s.host(v) {
        assert hosts == {h};
      }
    }
  }

  lemma SectorExactly(s: Server, m: Meta)
    ensures SectorOk(s, m) <==> (m.sectorUri != "" ==>
              && s.urlOk(m.sectorUri)
              && exists listed :: s.sector(m.sectorUri) == Some(listed) && forall u :: u in Wanted(m) ==> u in listed)
  {
  }

  lemma PairwiseExactly(s: Server, m: Meta)
    ensures PairwiseOk(s, m) && CibaOk(m) <==>
            && (m.authn.authnMethod.current == "none" ==> CIBA !in m.grantTypes)
            && (m.subject.current == "pairwise" ==> HostSound(s, m) && CibaSound(m))
  {
    OneHost(s, m.redirectUris);
    assert PairwiseOk(s, m) <==> (m.subject.current == "pairwise" ==> HostSound(s, m));
    hide PairwiseOk, HostSound;
  }

  lemma SoundExactly(s: Server, m: Meta)
    ensures Acceptable(s, m) <==> Sound(s, m)
  {
    hide PairwiseOk, CibaOk, HostSound, CibaSound, SectorOk, Wanted;
    SectorExactly(s, m);
    PairwiseExactly(s, m);
  }

  // ----- the whole record -----

  /** An omitted list or application type gets its default; what belongs to a
      feature that is off is cleared; anything else stays. */
  predicate FlagsSettled(s: Server, f: Flags, out: Flags) {
    && out.applicationType == (if f.applicationType != "" then f.applicationType else "web")
    && (out.parRequired <==> s.par && f.parRequired)
    && (out.jarRequired <==> s.jar.enabled && f.jarRequired)
    && (out.dpopBound <==> s.dpop && f.dpopBound)
    && out.credentialOffer == (if s.vci then f.credentialOffer else "")
    && out.requestUris == (if s.jarByReference then f.requestUris else [])
    && out.detailTypes == (if s.rar then f.detailTypes else [])
    && out.postLogout == (if s.logout then f.postLogout else [])
  }

  predicate ListsSettled(s: Server, c: Meta, out: Meta) {
    && (c.grantTypes != [] ==> out.grantTypes == c.grantTypes)
    && (c.grantTypes == [] ==> out.grantTypes == if "authorization_code" in s.grantTypes then ["authorization_code"] else [])
    && (c.responseTypes != [] ==> out.responseTypes == c.responseTypes)
    && (c.responseTypes == [] ==>
          out.responseTypes == if "code" in s.responseTypes && "authorization_code" in out.grantTypes then ["code"] else [])
  }

  ghost predicate Settled(s: Server, c: Meta, out: Meta) {
    && AuthnSettled(s.authn, s.choicesOn, c.keys, c.authn, out.authn)
    && EncSettled(s.idToken, s.choicesOn, c.idToken, out.idToken) && EncSettled(s.userInfo, s.choicesOn, c.userInfo, out.userInfo)
    && EncSettled(s.jar, s.choicesOn, c.jar, out.jar) && EncSettled(s.jarm, s.choicesOn, c.jarm, out.jarm)
    && SubjectSettled(s, c.subject, out.subject)
    && ListsSettled(s, c, out) && CibaSettled(s, out.grantTypes, c.ciba, out.ciba) && FlagsSettled(s, c.flags, out.flags)
    && out.keys == c.keys && out.scopes == c.scopes && out.redirectUris == c.redirectUris
    && out.sectorUri == c.sectorUri && out.maxAge == c.maxAge && out.otherUris == c.otherUris
    && Sound(s, out)
  }

  lemma DefaultsExactly(s: Server, c: Meta, out: Meta)
    ensures FlagsSettled(s, c.flags, out.flags) <==> out.flags == FillFlags(s, c.flags)
    ensures ListsSettled(s, c, out) <==>
            out.grantTypes == FillGrantTypes(s, c.grantTypes) && out.responseTypes == FillResponseTypes(s, out.grantTypes, c.responseTypes)
  {
  }

  /** A client resolves to `out` exactly when every field of `out` is settled and
      `out` is sound. */
  lemma ResolveExactly(s: Server, c: Meta, out: Meta)
    ensures Resolve(s, c) == Ok(out) <==> Settled(s, c, out)
  {
    hide ResolveAuthn, ResolveEnc, ResolveSubject, ResolveCiba, Acceptable,
         AuthnSettled, EncSettled, SubjectSettled, CibaSettled, Sound, FlagsSettled, FillFlags,
         ListsSettled, FillGrantTypes, FillResponseTypes;
    DefaultsExactly(s, c, out);
    AuthnExactly(s.authn, s.choicesOn, c.keys, c.authn, out.authn);
    EncExactly(s.idToken, s.choicesOn, c.idToken, out.idToken);
    EncExactly(s.userInfo, s.choicesOn, c.userInfo, out.userInfo);
    EncExactly(s.jar, s.choicesOn, c.jar, out.jar);
    EncExactly(s.jarm, s.choicesOn, c.jarm, out.jarm);
    SubjectExactly(s, c.subject, out.subject);
    CibaExactly(s, out.grantTypes, c.ciba, out.ciba);
    SoundExactly(s, out);
  }
}
