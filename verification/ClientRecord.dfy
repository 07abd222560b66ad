/** Client metadata resolution as it runs: the fields of a client record are
    rewritten in place, first from the client's lists of choices, then from the
    server's settings. A run that fails leaves the record half rewritten. */
module ClientRecord {
  import opened Wrappers
  import opened ClientResolve

  // ----- the choices -----

  predicate Pickable(s: Server, m: Meta) {
    && PickSubject(s, m.subject).Ok?
    && PickEnc(s.idToken, m.idToken).Ok? && PickEnc(s.userInfo, m.userInfo).Ok?
    && PickEnc(s.jar, m.jar).Ok? && PickAuthn(s.authn, m.authn).Ok?
    && PickCiba(s, m.ciba).Ok? && PickEnc(s.jarm, m.jarm).Ok?
  }

  function Picked(s: Server, m: Meta): Meta
    requires Pickable(s, m)
  {
    m.(subject := PickSubject(s, m.subject).value,
       idToken := PickEnc(s.idToken, m.idToken).value, userInfo := PickEnc(s.userInfo, m.userInfo).value,
       jar := PickEnc(s.jar, m.jar).value, authn := PickAuthn(s.authn, m.authn).value,
       ciba := PickCiba(s, m.ciba).value, jarm := PickEnc(s.jarm, m.jarm).value)
  }

  function Without(ch: Choice): Choice {
    ch.(current := "")
  }

  /** A group without the first value in it that fails. */
  function ClearedEnc(cfg: EncConfig, m: EncMeta): EncMeta {
    if Resolved(m.sig, cfg.sigAlgs).Err? then m.(sig := Without(m.sig))
    else if Resolved(m.key, cfg.keyAlgs).Err? then m.(key := Without(m.key))
    else m.(content := Without(m.content))
  }

  function ClearedAuthn(cfg: AuthnConfig, m: AuthnMeta): AuthnMeta {
    if Resolved(m.authnMethod, cfg.methods).Err? then m.(authnMethod := Without(m.authnMethod))
    else m.(sigAlg := Without(m.sigAlg))
  }

  /** A record without the first value in it, in the order of resolution, that
      its list of choices does not allow. */
  function Cleared(s: Server, m: Meta): Meta {
    if PickSubject(s, m.subject).Err? then m.(subject := Without(m.subject))
    else if PickEnc(s.idToken, m.idToken).Err? then m.(idToken := ClearedEnc(s.idToken, m.idToken))
    else if PickEnc(s.userInfo, m.userInfo).Err? then m.(userInfo := ClearedEnc(s.userInfo, m.userInfo))
    else if PickEnc(s.jar, m.jar).Err? then m.(jar := ClearedEnc(s.jar, m.jar))
    else if PickAuthn(s.authn, m.authn).Err? then m.(authn := ClearedAuthn(s.authn, m.authn))
    else if PickCiba(s, m.ciba).Err? then m.(ciba := m.ciba.(jarSig := Without(m.ciba.jarSig)))
    else m.(jarm := ClearedEnc(s.jarm, m.jarm))
  }

  /** A choice that failed can be made once its value is cleared, if and only if
      the list holds something supported. */
  lemma ChoiceRetry(ch: Choice, supported: seq<string>)
    requires Resolved(ch, supported).Err?
    ensures Resolved(Without(ch), supported).Ok? <==> exists c :: c in ch.choices && c in supported
  {
    FirstSupportedFound(ch.choices, supported);
  }

  /** A choice in place: an error clears the value. */
  method Take(ch: Choice, supported: seq<string>) returns (ok: bool, out: Choice)
    ensures ok <==> Resolved(ch, supported).Ok?
    ensures out == ch.(current := if ok then Resolved(ch, supported).value else "")
    ensures ok && "" !in supported ==> Resolved(out, supported) == Resolved(ch, supported)
  {
    var x := ResolveChoice(ch, supported);
    if x.Ok? && "" !in supported {
      ChoiceStable(ch, supported);
    }
    return x.Ok?, ch.(current := if x.Ok? then x.value else "");
  }

  /** One signing and encryption group: choosing again from what is left gives
      what choosing from the group, or from the group without the value that
      failed, gives. */
  method PickGroup(cfg: EncConfig, m: EncMeta) returns (ok: bool, out: EncMeta)
    ensures ok <==> PickEnc(cfg, m).Ok?
    ensures ok ==> PickEnc(cfg, m) == Ok(out)
    ensures NoEmptyEnc(cfg) ==> PickEnc(cfg, out) == PickEnc(cfg, if ok then m else ClearedEnc(cfg, m))
  {
    hide Resolved;
    out := m;
    if !cfg.enabled {
      out := EncMeta(m.sig.(choices := []), m.key.(choices := []), m.content.(choices := []));
      return true, out;
    }
    var x;
    ok, x := Take(m.sig, cfg.sigAlgs);
    out := out.(sig := x);
    if !ok { return; }
    if !cfg.encEnabled {
      out := out.(key := m.key.(choices := []), content := m.content.(choices := []));
      return;
    }
    ok, x := Take(m.key, cfg.keyAlgs);
    out := out.(key := x);
    if !ok { return; }
    ok, x := Take(m.content, cfg.contentAlgs);
    out := out.(content := x);
  }

  method PickAuthentication(cfg: AuthnConfig, m: AuthnMeta) returns (ok: bool, out: AuthnMeta)
    ensures ok <==> PickAuthn(cfg, m).Ok?
    ensures ok ==> PickAuthn(cfg, m) == Ok(out)
    ensures NoEmptyAuthn(cfg) ==> PickAuthn(cfg, out) == PickAuthn(cfg, if ok then m else ClearedAuthn(cfg, m))
  {
    hide Resolved;
    out := m;
    var x;
    ok, x := Take(m.authnMethod, cfg.methods);
    out := out.(authnMethod := x);
    if !ok { return; }
    ok, x := Take(m.sigAlg, cfg.privateKeyAlgs + cfg.secretAlgs);
    out := out.(sigAlg := x);
  }

  /** Records that come to the same choices come to the same resolution. */
  lemma SameOutcome(s: Server, a: Meta, b: Meta)
    requires s.choicesOn
    requires a == b.(subject := a.subject, idToken := a.idToken, userInfo := a.userInfo, jar := a.jar, authn := a.authn,
                     ciba := a.ciba, jarm := a.jarm)
    requires PickSubject(s, a.subject) == PickSubject(s, b.subject)
    requires PickEnc(s.idToken, a.idToken) == PickEnc(s.idToken, b.idToken)
    requires PickEnc(s.userInfo, a.userInfo) == PickEnc(s.userInfo, b.userInfo)
    requires PickEnc(s.jar, a.jar) == PickEnc(s.jar, b.jar) && PickEnc(s.jarm, a.jarm) == PickEnc(s.jarm, b.jarm)
    requires PickAuthn(s.authn, a.authn) == PickAuthn(s.authn, b.authn) && PickCiba(s, a.ciba) == PickCiba(s, b.ciba)
    ensures Resolve(s, a) == Resolve(s, b)
  {
    hide PickSubject, PickEnc, PickAuthn, PickCiba, FillSubject, FillEnc, FillAuthn, FillCiba, FillFlags, Acceptable,
         FillGrantTypes, FillResponseTypes;
  }

  /** The first phase. What it leaves resolves as the record did or, when a
      choice failed, as the record would without the value that failed. */
  method PickChoices(s: Server, m: Meta) returns (ok: bool, out: Meta)
    requires s.choicesOn
    ensures ok <==> Pickable(s, m)
    ensures ok ==> out == Picked(s, m)
    ensures Fixed(m, out)
    ensures NoEmptySupported(s) ==> Resolve(s, out) == Resolve(s, if ok then m else Cleared(s, m))
  {
    hide PickEnc, PickAuthn, Resolved, Resolve, ClearedEnc, ClearedAuthn;
    out := m;
    var subject;
    ok, subject := Take(m.subject, s.subjectTypes);
    out := out.(subject := subject);
    if ok {
      ok, out := PickGroups(s, m, out);
    }
    if NoEmptySupported(s) {
      SameOutcome(s, out, if ok then m else Cleared(s, m));
    }
  }

  /** Everything after the subject type. */
  method PickGroups(s: Server, ghost m: Meta, start: Meta) returns (ok: bool, out: Meta)
    requires PickSubject(s, m.subject).Ok? && start == m.(subject := PickSubject(s, m.subject).value)
    ensures ok <==> Pickable(s, m)
    ensures ok ==> out == Picked(s, m)
    ensures var goal := if ok then m else Cleared(s, m);
            && out == start.(idToken := out.idToken, userInfo := out.userInfo, jar := out.jar, authn := out.authn,
                             ciba := out.ciba, jarm := out.jarm)
            && (NoEmptySupported(s) ==>
                  && PickEnc(s.idToken, out.idToken) == PickEnc(s.idToken, goal.idToken)
                  && PickEnc(s.userInfo, out.userInfo) == PickEnc(s.userInfo, goal.userInfo)
                  && PickEnc(s.jar, out.jar) == PickEnc(s.jar, goal.jar)
                  && PickAuthn(s.authn, out.authn) == PickAuthn(s.authn, goal.authn)
                  && PickCiba(s, out.ciba) == PickCiba(s, goal.ciba)
                  && PickEnc(s.jarm, out.jarm) == PickEnc(s.jarm, goal.jarm))
  {
    hide PickEnc, PickAuthn, PickSubject, Resolved, ClearedEnc, ClearedAuthn;
    out := start;
    var group;
    ok, group := PickGroup(s.idToken, out.idToken);
    out := out.(idToken := group);
    if !ok { return; }
    ok, group := PickGroup(s.userInfo, out.userInfo);
    out := out.(userInfo := group);
    if !ok { return; }
    ok, group := PickGroup(s.jar, out.jar);
    out := out.(jar := group);
    if !ok { return; }
    var authn;
    ok, authn := PickAuthentication(s.authn, out.authn);
    out := out.(authn := authn);
    if !ok { return; }
    if CIBA in s.grantTypes {
      var jarSig;
      ok, jarSig := Take(out.ciba.jarSig, s.cibaJarAlgs);
      out := out.(ciba := out.ciba.(jarSig := jarSig));
      if !ok { return; }
    } else {
      out := out.(ciba := out.ciba.(jarSig := out.ciba.jarSig.(choices := [])));
    }
    ok, group := PickGroup(s.jarm, out.jarm);
    out := out.(jarm := group);
  }

  // ----- the defaults and checks, one group at a time -----

  /** `h` is what is left of `m`: it resolves to what `m` resolves to, or not at all. */
  predicate EncNoBetter(cfg: EncConfig, on: bool, m: EncMeta, h: EncMeta) {
    ResolveEnc(cfg, on, h).Ok? ==> ResolveEnc(cfg, on, h) == ResolveEnc(cfg, on, m)
  }

  predicate AuthnNoBetter(cfg: AuthnConfig, on: bool, keys: KeySource, m: AuthnMeta, h: AuthnMeta) {
    ResolveAuthn(cfg, on, keys, h).Ok? ==> ResolveAuthn(cfg, on, keys, h) == ResolveAuthn(cfg, on, keys, m)
  }

  predicate SubjectNoBetter(s: Server, m: Choice, h: Choice) {
    ResolveSubject(s, h).Ok? ==> ResolveSubject(s, h) == ResolveSubject(s, m)
  }

  predicate CibaNoBetter(s: Server, grantTypes: seq<string>, m: CibaMeta, h: CibaMeta) {
    ResolveCiba(s, grantTypes, h).Ok? ==> ResolveCiba(s, grantTypes, h) == ResolveCiba(s, grantTypes, m)
  }

  /** Choices already made are made again. */
  lemma PickEncAgain(cfg: EncConfig, on: bool, orig: EncMeta, m: EncMeta)
    requires NoEmptyEnc(cfg) && if on then PickEnc(cfg, orig) == Ok(m) else m == orig
    ensures on ==> PickEnc(cfg, m) == Ok(m)
    ensures on && cfg.enabled && m.sig.choices != [] ==> m.sig.current != ""
    ensures ResolveEnc(cfg, on, m) == ResolveEnc(cfg, on, orig) == FillEnc(cfg, m)
  {
    if on && cfg.enabled {
      ChoiceStable(orig.sig, cfg.sigAlgs);
      if cfg.encEnabled {
        ChoiceStable(orig.key, cfg.keyAlgs);
        ChoiceStable(orig.content, cfg.contentAlgs);
      }
    }
  }

  /** A group that fails with its signing algorithm filled in fails again. */
  lemma FillEncLeft(cfg: EncConfig, on: bool, orig: EncMeta, m: EncMeta, sig: string)
    requires NoEmptyEnc(cfg) && if on then PickEnc(cfg, orig) == Ok(m) else m == orig
    requires cfg.enabled && FillEnc(cfg, m).Err?
    requires sig == if cfg.sigRequired && m.sig.current == "" then cfg.defaultSig else m.sig.current
    ensures EncNoBetter(cfg, on, orig, m.(sig := m.sig.(current := sig)))
  {
    PickEncAgain(cfg, on, orig, m);
    var out := m.(sig := m.sig.(current := sig));
    assert on ==> PickEnc(cfg, out) == Ok(out);
    assert FillEnc(cfg, out).Err?;
  }

  /** Defaults and checks of a group whose choices are made. */
  method FillGroup(cfg: EncConfig, on: bool, ghost orig: EncMeta, m: EncMeta) returns (ok: bool, out: EncMeta)
    requires if on then PickEnc(cfg, orig) == Ok(m) else m == orig
    ensures ok <==> ResolveEnc(cfg, on, orig).Ok?
    ensures ok ==> ResolveEnc(cfg, on, orig) == Ok(out)
    ensures NoEmptyEnc(cfg) ==> EncNoBetter(cfg, on, orig, out)
  {
    ok, out := FillGroupValue(cfg, m);
    if NoEmptyEnc(cfg) {
      if ok {
        ResolveEncStable(cfg, on, orig);
      } else {
        FillEncLeft(cfg, on, orig, m, out.sig.current);
      }
    }
  }

  method FillGroupValue(cfg: EncConfig, m: EncMeta) returns (ok: bool, out: EncMeta)
    ensures ok <==> FillEnc(cfg, m).Ok?
    ensures ok ==> FillEnc(cfg, m) == Ok(out)
    ensures !ok ==>
              && cfg.enabled
              && out == m.(sig := m.sig.(current := if cfg.sigRequired && m.sig.current == "" then cfg.defaultSig else m.sig.current))
  {
    out := m;
    if !cfg.enabled {
      return true, EncMeta(Without(m.sig), Without(m.key), Without(m.content));
    }
    if cfg.sigRequired && out.sig.current == "" {
      out := out.(sig := out.sig.(current := cfg.defaultSig));
    }
    if (cfg.sigRequired || out.sig.current != "") && out.sig.current !in cfg.sigAlgs {
      return false, out;
    }
    if !cfg.encEnabled {
      return true, out.(key := Without(out.key), content := Without(out.content));
    }
    if out.key.current == "" {
      return out.content.current == "", out;
    }
    if out.key.current !in cfg.keyAlgs {
      return false, out;
    }
    if cfg.contentDefault && out.content.current == "" {
      if |cfg.contentAlgs| == 0 {
        return false, out;
      }
      out := out.(content := out.content.(current := cfg.contentAlgs[0]));
    }
    ok := out.content.current == "" || out.content.current in cfg.contentAlgs;
  }

  // ----- client authentication -----

  /** Client authentication before the names for TLS are dropped. */
  function FillAuthnFirst(cfg: AuthnConfig, keys: KeySource, m: AuthnMeta): Result<AuthnMeta> {
    FillAuthn(cfg.(mtls := true), keys, m)
  }

  function DropNames(cfg: AuthnConfig, m: AuthnMeta): AuthnMeta {
    if cfg.mtls then m else m.(tls := NO_NAMES, tlsBound := false)
  }

  lemma DropNamesLast(cfg: AuthnConfig, keys: KeySource, m: AuthnMeta)
    ensures FillAuthn(cfg, keys, m) ==
            if FillAuthnFirst(cfg, keys, m).Err? then Err else Ok(DropNames(cfg, FillAuthnFirst(cfg, keys, m).value))
  {
    hide SigAlgOk, CredentialsOk;
    EndpointIgnoresMtls(cfg, cfg.introspection, m.introspection);
    EndpointIgnoresMtls(cfg, cfg.revocation, m.revocation);
    CredentialsIgnoreMtls(cfg, keys, m);
  }

  lemma EndpointIgnoresMtls(cfg: AuthnConfig, enabled: bool, e: Endpoint)
    ensures forall authnMethod ::
              ResolveEndpoint(cfg.(mtls := true), enabled, authnMethod, e) == ResolveEndpoint(cfg, enabled, authnMethod, e)
  {
  }

  lemma CredentialsIgnoreMtls(cfg: AuthnConfig, keys: KeySource, m: AuthnMeta)
    ensures forall authnMethod :: CredentialsOk(cfg.(mtls := true), keys, authnMethod, m.tls) == CredentialsOk(cfg, keys, authnMethod, m.tls)
    ensures forall authnMethod, sigAlg :: SigAlgOk(cfg.(mtls := true), authnMethod, sigAlg) == SigAlgOk(cfg, authnMethod, sigAlg)
  {
  }

  lemma PickAuthnAgain(cfg: AuthnConfig, on: bool, keys: KeySource, orig: AuthnMeta, m: AuthnMeta)
    requires NoEmptyAuthn(cfg) && if on then PickAuthn(cfg, orig) == Ok(m) else m == orig
    ensures on ==> PickAuthn(cfg, m) == Ok(m)
    ensures on && m.authnMethod.choices != [] ==> m.authnMethod.current != ""
    ensures on ==> Resolved(Without(m.sigAlg), cfg.privateKeyAlgs + cfg.secretAlgs).Ok?
    ensures ResolveAuthn(cfg, on, keys, m) == ResolveAuthn(cfg, on, keys, orig) == FillAuthn(cfg, keys, m)
  {
    hide FillAuthn;
    if on {
      ChoiceStable(orig.authnMethod, cfg.methods);
      ChoiceStable(orig.sigAlg, cfg.privateKeyAlgs + cfg.secretAlgs);
    }
  }

  /** What authentication can look like when it fails: the method filled in, an
      unused algorithm and unused names cleared, the introspection endpoint done. */
  predicate AuthnLeft(cfg: AuthnConfig, m: AuthnMeta, out: AuthnMeta) {
    var authnMethod := if m.authnMethod.current == "" then cfg.defaultMethod else m.authnMethod.current;
    && out == m.(authnMethod := m.authnMethod.(current := authnMethod), sigAlg := out.sigAlg, tls := out.tls,
                 introspection := out.introspection)
    && (out.sigAlg == m.sigAlg || (out.sigAlg == Without(m.sigAlg) && !UsesJwt(authnMethod)))
    && (out.tls == m.tls || (out.tls == NO_NAMES && authnMethod != TLS))
    && (|| out.introspection == m.introspection
        || Ok(out.introspection) == ResolveEndpoint(cfg, cfg.introspection, authnMethod, m.introspection))
  }

  lemma AuthnLeftFails(cfg: AuthnConfig, on: bool, keys: KeySource, orig: AuthnMeta, m: AuthnMeta, out: AuthnMeta)
    requires NoEmptyAuthn(cfg) && if on then PickAuthn(cfg, orig) == Ok(m) else m == orig
    requires FillAuthn(cfg, keys, m).Err? && AuthnLeft(cfg, m, out)
    ensures AuthnNoBetter(cfg, on, keys, orig, out)
  {
    PickAuthnAgain(cfg, on, keys, orig, m);
    var again := if on && out.sigAlg != m.sigAlg && m.sigAlg.choices != [] then
      out.(sigAlg := out.sigAlg.(current := Resolved(out.sigAlg, cfg.privateKeyAlgs + cfg.secretAlgs).value)) else out;
    assert on ==> PickAuthn(cfg, out) == Ok(again);
    EndpointAgain(cfg, cfg.introspection, m.introspection);
    FillAuthnFails(cfg, keys, m, again);
  }

  lemma EndpointAgain(cfg: AuthnConfig, enabled: bool, e: Endpoint)
    ensures forall authnMethod :: ResolveEndpoint(cfg, enabled, authnMethod, e).Ok? ==>
              ResolveEndpoint(cfg, enabled, authnMethod, ResolveEndpoint(cfg, enabled, authnMethod, e).value) ==
              ResolveEndpoint(cfg, enabled, authnMethod, e)
  {
  }

  lemma FillAuthnFails(cfg: AuthnConfig, keys: KeySource, m: AuthnMeta, out: AuthnMeta)
    requires FillAuthn(cfg, keys, m).Err?
    requires var authnMethod := if m.authnMethod.current == "" then cfg.defaultMethod else m.authnMethod.current;
             && out.authnMethod.current == authnMethod && out.revocation == m.revocation
             && (out.sigAlg.current == m.sigAlg.current || !UsesJwt(authnMethod))
             && (out.tls == m.tls || authnMethod != TLS)
             && (ResolveEndpoint(cfg, cfg.introspection, authnMethod, out.introspection).Ok? ==>
                   ResolveEndpoint(cfg, cfg.introspection, authnMethod, m.introspection).Ok?)
    ensures FillAuthn(cfg, keys, out).Err?
  {
    hide ResolveEndpoint;
  }

  method FillEndpoint(cfg: AuthnConfig, enabled: bool, authnMethod: string, e: Endpoint) returns (ok: bool, out: Endpoint)
    ensures ok <==> ResolveEndpoint(cfg, enabled, authnMethod, e).Ok?
    ensures out == if ok then ResolveEndpoint(cfg, enabled, authnMethod, e).value else e
  {
    if !enabled {
      return true, Endpoint("", "");
    }
    out := e;
    if out.authnMethod == "" {
      return true, out;
    }
    if out.authnMethod != authnMethod || !SigAlgOk(cfg, out.authnMethod, out.sigAlg) {
      return false, out;
    }
    if out.authnMethod != PRIVATE_KEY_JWT && out.authnMethod != SECRET_JWT {
      out := out.(sigAlg := "");
    }
    return true, out;
  }

  method FillAuthenticationValue(cfg: AuthnConfig, keys: KeySource, m: AuthnMeta) returns (ok: bool, out: AuthnMeta)
    ensures ok <==> FillAuthnFirst(cfg, keys, m).Ok?
    ensures ok ==> FillAuthnFirst(cfg, keys, m) == Ok(out)
    ensures !ok ==> AuthnLeft(cfg, m, out)
  {
    hide SigAlgOk, CredentialsOk, ResolveEndpoint;
    EndpointIgnoresMtls(cfg, cfg.introspection, m.introspection);
    EndpointIgnoresMtls(cfg, cfg.revocation, m.revocation);
    CredentialsIgnoreMtls(cfg, keys, m);
    out := m;
    if out.authnMethod.current == "" {
      out := out.(authnMethod := out.authnMethod.(current := cfg.defaultMethod));
      if cfg.defaultMethod == "" {
        return false, out;
      }
    }
    var authnMethod := out.authnMethod.current;
    if authnMethod !in cfg.methods || !SigAlgOk(cfg, authnMethod, m.sigAlg.current)
       || !CredentialsOk(cfg, keys, authnMethod, m.tls) {
      return false, out;
    }
    if authnMethod != PRIVATE_KEY_JWT && authnMethod != SECRET_JWT {
      out := out.(sigAlg := Without(out.sigAlg));
    }
    if authnMethod != TLS {
      out := out.(tls := NO_NAMES);
    }
    var e;
    ok, e := FillEndpoint(cfg, cfg.introspection, authnMethod, m.introspection);
    out := out.(introspection := e);
    if !ok { return; }
    ok, e := FillEndpoint(cfg, cfg.revocation, authnMethod, m.revocation);
    out := out.(revocation := e);
  }

  /** Names that are to be dropped resolve as names already dropped, or better. */
  lemma UndroppedNoBetter(cfg: AuthnConfig, on: bool, keys: KeySource, orig: AuthnMeta, m: AuthnMeta, out: AuthnMeta)
    requires NoEmptyAuthn(cfg) && if on then PickAuthn(cfg, orig) == Ok(m) else m == orig
    requires FillAuthnFirst(cfg, keys, m) == Ok(out)
    ensures AuthnNoBetter(cfg, on, keys, orig, out) && AuthnNoBetter(cfg, on, keys, orig, DropNames(cfg, out))
    ensures ResolveAuthn(cfg, on, keys, orig) == Ok(DropNames(cfg, out))
    ensures out.authnMethod.current == DropNames(cfg, out).authnMethod.current
  {
    hide FillAuthn, Resolved;
    PickAuthnAgain(cfg, on, keys, orig, m);
    DropNamesLast(cfg, keys, m);
    ResolveAuthnStable(cfg, on, keys, orig);
    var first := cfg.(mtls := true);
    ResolveAuthnStable(first, on, keys, orig);
    if on {
      DropNamesLast(cfg, keys, PickAuthn(cfg, out).value);
    } else {
      DropNamesLast(cfg, keys, out);
    }
  }

  method FillAuthentication(cfg: AuthnConfig, on: bool, keys: KeySource, ghost orig: AuthnMeta, m: AuthnMeta)
    returns (ok: bool, out: AuthnMeta)
    requires if on then PickAuthn(cfg, orig) == Ok(m) else m == orig
    ensures ok <==> ResolveAuthn(cfg, on, keys, orig).Ok?
    ensures ok ==> ResolveAuthn(cfg, on, keys, orig) == Ok(DropNames(cfg, out))
    ensures ok ==> out.authnMethod.current == DropNames(cfg, out).authnMethod.current
    ensures NoEmptyAuthn(cfg) ==>
              && AuthnNoBetter(cfg, on, keys, orig, out)
              && (ok ==> AuthnNoBetter(cfg, on, keys, orig, DropNames(cfg, out)))
  {
    hide FillAuthn, PickAuthn;
    ok, out := FillAuthenticationValue(cfg, keys, m);
    DropNamesLast(cfg, keys, m);
    if NoEmptyAuthn(cfg) {
      if ok {
        UndroppedNoBetter(cfg, on, keys, orig, m, out);
      } else {
        AuthnLeftFails(cfg, on, keys, orig, m, out);
      }
    }
  }

  // ----- CIBA and the subject type -----

  method FillCibaGroup(s: Server, grantTypes: seq<string>, ghost orig: CibaMeta, m: CibaMeta) returns (ok: bool, out: CibaMeta)
    requires if s.choicesOn then PickCiba(s, orig) == Ok(m) else m == orig
    ensures ok <==> ResolveCiba(s, grantTypes, orig).Ok?
    ensures ok ==> ResolveCiba(s, grantTypes, orig) == Ok(out)
    ensures "" !in s.cibaJarAlgs ==> CibaNoBetter(s, grantTypes, orig, out)
  {
    ok, out := FillCibaValue(s, grantTypes, m);
    if "" !in s.cibaJarAlgs {
      if ok {
        ResolveCibaStable(s, grantTypes, orig);
      } else {
        CibaLeftFails(s, grantTypes, orig, m, out);
      }
    }
  }

  lemma CibaLeftFails(s: Server, grantTypes: seq<string>, orig: CibaMeta, m: CibaMeta, out: CibaMeta)
    requires "" !in s.cibaJarAlgs && if s.choicesOn then PickCiba(s, orig) == Ok(m) else m == orig
    requires FillCiba(s, grantTypes, m).Err?
    requires out == m || (s.cibaJar && out == m.(endpoint := if Notifies(m.delivery) then m.endpoint else "", userCode := out.userCode))
    ensures CibaNoBetter(s, grantTypes, orig, out)
  {
    hide Resolved;
    if s.choicesOn && CIBA in s.grantTypes {
      ChoiceStable(orig.jarSig, s.cibaJarAlgs);
    }
    assert s.choicesOn ==> PickCiba(s, out) == Ok(out);
  }

  method FillCibaValue(s: Server, grantTypes: seq<string>, m: CibaMeta) returns (ok: bool, out: CibaMeta)
    ensures ok <==> FillCiba(s, grantTypes, m).Ok?
    ensures ok ==> FillCiba(s, grantTypes, m) == Ok(out)
    ensures !ok ==> out == m || (s.cibaJar && out == m.(endpoint := if Notifies(m.delivery) then m.endpoint else "", userCode := out.userCode))
  {
    out := m;
    if CIBA !in grantTypes {
      return true, CibaMeta("", "", Choice([], ""), false);
    }
    if m.delivery == "" || m.delivery !in s.cibaModes {
      return false, out;
    }
    if Notifies(m.delivery) {
      if m.endpoint == "" || !s.urlOk(m.endpoint) { return false, out; }
    } else {
      out := out.(endpoint := "");
    }
    if !s.cibaUserCode { out := out.(userCode := false); }
    if s.cibaJar {
      ok := out.jarSig.current == "" || out.jarSig.current in s.cibaJarAlgs;
    } else {
      return true, out.(jarSig := Without(out.jarSig));
    }
  }

  method FillSubjectType(s: Server, ghost orig: Choice, m: Choice) returns (ok: bool, out: Choice)
    requires if s.choicesOn then PickSubject(s, orig) == Ok(m) else m == orig
    ensures ok <==> ResolveSubject(s, orig).Ok?
    ensures ok ==> ResolveSubject(s, orig) == Ok(out)
    ensures "" !in s.subjectTypes ==> SubjectNoBetter(s, orig, out)
  {
    out := m;
    if out.current == "" { out := out.(current := s.subjectDefault); }
    ok := out.current in s.subjectTypes;
    if "" !in s.subjectTypes {
      if s.choicesOn { ChoiceStable(orig, s.subjectTypes); }
      if ok { ResolveSubjectStable(s, orig); }
    }
  }

  // ----- the record half rewritten -----

  /** `h` is what is left of `m` in some half-rewritten state. */
  predicate NoBetter(s: Server, m: Meta, h: Meta) {
    var grantTypes := FillGrantTypes(s, m.grantTypes);
    && h == m.(authn := h.authn, idToken := h.idToken, userInfo := h.userInfo, jar := h.jar, jarm := h.jarm,
               subject := h.subject, grantTypes := h.grantTypes, responseTypes := h.responseTypes, ciba := h.ciba, flags := h.flags)
    && AuthnNoBetter(s.authn, s.choicesOn, m.keys, m.authn, h.authn)
    && EncNoBetter(s.idToken, s.choicesOn, m.idToken, h.idToken) && EncNoBetter(s.userInfo, s.choicesOn, m.userInfo, h.userInfo)
    && EncNoBetter(s.jar, s.choicesOn, m.jar, h.jar) && EncNoBetter(s.jarm, s.choicesOn, m.jarm, h.jarm)
    && SubjectNoBetter(s, m.subject, h.subject) && CibaNoBetter(s, grantTypes, m.ciba, h.ciba)
    && FillGrantTypes(s, h.grantTypes) == grantTypes
    && FillResponseTypes(s, grantTypes, h.responseTypes) == FillResponseTypes(s, grantTypes, m.responseTypes)
    && FillFlags(s, h.flags) == FillFlags(s, m.flags)
  }

  /** What is left of a record that does not resolve does not resolve. */
  lemma NoBetterFails(s: Server, m: Meta, h: Meta)
    requires NoBetter(s, m, h) && Resolve(s, m).Err?
    ensures Resolve(s, h).Err?
  {
    hide ResolveAuthn, ResolveEnc, ResolveSubject, ResolveCiba, FillGrantTypes, FillResponseTypes, FillFlags, Acceptable;
  }

  /** The record as the second phase finds it. */
  ghost predicate Ready(s: Server, before: Meta, m: Meta) {
    if s.choicesOn then Pickable(s, before) && m == Picked(s, before) else m == before
  }

  lemma ReadyNoBetter(s: Server, before: Meta, m: Meta)
    requires NoEmptySupported(s) && Ready(s, before, m)
    ensures NoBetter(s, before, m)
  {
    hide PickEnc, FillEnc, PickAuthn, FillAuthn, FillCiba, FillFlags, FillGrantTypes, FillResponseTypes;
    PickEncAgain(s.idToken, s.choicesOn, before.idToken, m.idToken);
    PickEncAgain(s.userInfo, s.choicesOn, before.userInfo, m.userInfo);
    PickEncAgain(s.jar, s.choicesOn, before.jar, m.jar);
    PickEncAgain(s.jarm, s.choicesOn, before.jarm, m.jarm);
    PickAuthnAgain(s.authn, s.choicesOn, before.keys, before.authn, m.authn);
    if s.choicesOn {
      ChoiceStable(before.subject, s.subjectTypes);
      if CIBA in s.grantTypes { ChoiceStable(before.ciba.jarSig, s.cibaJarAlgs); }
    }
  }

  /** What a resolvable record comes to, group by group. */
  lemma Required(s: Server, m: Meta)
    requires Resolve(s, m).Ok?
    ensures var out := Resolve(s, m).value;
            && out == m.(authn := out.authn, idToken := out.idToken, userInfo := out.userInfo, jar := out.jar, jarm := out.jarm,
                         subject := out.subject, grantTypes := out.grantTypes, responseTypes := out.responseTypes,
                         ciba := out.ciba, flags := out.flags)
            && ResolveAuthn(s.authn, s.choicesOn, m.keys, m.authn) == Ok(out.authn)
            && ResolveEnc(s.idToken, s.choicesOn, m.idToken) == Ok(out.idToken)
            && ResolveEnc(s.userInfo, s.choicesOn, m.userInfo) == Ok(out.userInfo)
            && ResolveEnc(s.jar, s.choicesOn, m.jar) == Ok(out.jar) && ResolveEnc(s.jarm, s.choicesOn, m.jarm) == Ok(out.jarm)
            && ResolveSubject(s, m.subject) == Ok(out.subject)
            && out.grantTypes == FillGrantTypes(s, m.grantTypes)
            && out.responseTypes == FillResponseTypes(s, out.grantTypes, m.responseTypes)
            && ResolveCiba(s, out.grantTypes, m.ciba) == Ok(out.ciba)
            && out.flags == FillFlags(s, m.flags)
            && Acceptable(s, out)
  {
    hide ResolveAuthn, ResolveEnc, ResolveSubject, ResolveCiba, FillGrantTypes, FillResponseTypes, FillFlags, Acceptable;
  }

  lemma AcceptableParts(s: Server, m: Meta)
    requires Acceptable(s, m)
    ensures s.scopesOk(m.scopes) && GrantTypesOk(s, m.grantTypes, m.authn.authnMethod.current)
    ensures m.maxAge.Some? ==> m.maxAge.value >= 0
  {
  }

  // ----- the second phase, in the order of the code -----

  lemma TypesAgain(s: Server, m: Meta)
    ensures var grantTypes := FillGrantTypes(s, m.grantTypes);
            var responseTypes := FillResponseTypes(s, grantTypes, m.responseTypes);
            FillGrantTypes(s, grantTypes) == grantTypes && FillResponseTypes(s, grantTypes, responseTypes) == responseTypes
  {
  }

  /** The flags are filled in three steps: early, with request objects, and late. */
  function EarlyFlags(s: Server, f: Flags): Flags {
    f.(applicationType := if f.applicationType == "" then WEB else f.applicationType, parRequired := f.parRequired && s.par)
  }

  function JarFlags(s: Server, f: Flags): Flags {
    f.(jarRequired := f.jarRequired && s.jar.enabled)
  }

  function LateFlags(s: Server, f: Flags): Flags {
    f.(requestUris := if s.jarByReference then f.requestUris else [],
       detailTypes := if s.rar then f.detailTypes else [],
       dpopBound := f.dpopBound && s.dpop,
       credentialOffer := if s.vci then f.credentialOffer else "",
       postLogout := if s.logout then f.postLogout else [])
  }

  lemma FlagsInSteps(s: Server, f: Flags)
    ensures FillFlags(s, EarlyFlags(s, f)) == FillFlags(s, f) == FillFlags(s, JarFlags(s, f))
    ensures LateFlags(s, JarFlags(s, EarlyFlags(s, f))) == FillFlags(s, f)
    ensures JarFlags(s, EarlyFlags(s, f)).applicationType == FillFlags(s, f).applicationType
  {
  }

  /** What identity comes to, on the way to `done`. */
  ghost predicate IdentityFilled(s: Server, before: Meta, m: Meta, out: Meta) {
    && out == m.(grantTypes := FillGrantTypes(s, m.grantTypes), authn := out.authn, flags := out.flags,
                 responseTypes := FillResponseTypes(s, FillGrantTypes(s, m.grantTypes), m.responseTypes))
    && out.flags == EarlyFlags(s, m.flags)
    && ResolveAuthn(s.authn, s.choicesOn, m.keys, before.authn) == Ok(DropNames(s.authn, out.authn))
    && out.authn.authnMethod.current == DropNames(s.authn, out.authn).authnMethod.current
    && (NoEmptySupported(s) ==> AuthnNoBetter(s.authn, s.choicesOn, m.keys, before.authn, DropNames(s.authn, out.authn)))
    && s.scopesOk(m.scopes) && GrantTypesOk(s, out.grantTypes, out.authn.authnMethod.current)
    && (m.maxAge.Some? ==> m.maxAge.value >= 0)
  }

  /** Scopes, grant types, client authentication, and what goes with them. */
  method FillIdentity(s: Server, ghost before: Meta, m: Meta) returns (ok: bool, out: Meta)
    requires Ready(s, before, m)
    ensures Fixed(m, out)
    ensures NoEmptySupported(s) ==> NoBetter(s, before, out)
    ensures !ok ==> Resolve(s, before).Err?
    ensures ok ==> IdentityFilled(s, before, m, out)
  {
    hide AuthnNoBetter, EncNoBetter, SubjectNoBetter, CibaNoBetter, DropNames, Resolve, PickEnc, PickAuthn, PickCiba, PickSubject,
         GrantTypesOk, FillFlags, EarlyFlags, FillGrantTypes, FillResponseTypes, Acceptable;
    if Resolve(s, before).Ok? { Required(s, before); AcceptableParts(s, Resolve(s, before).value); }
    if NoEmptySupported(s) { ReadyNoBetter(s, before, m); }
    TypesAgain(s, before);
    FlagsInSteps(s, m.flags);
    out := m;
    if !s.scopesOk(out.scopes) {
      return false, out;
    }
    out := out.(grantTypes := FillGrantTypes(s, out.grantTypes));
    out := out.(responseTypes := FillResponseTypes(s, out.grantTypes, out.responseTypes));
    var authn;
    ok, authn := FillAuthentication(s.authn, s.choicesOn, out.keys, before.authn, out.authn);
    out := out.(authn := authn);
    if !ok { return; }
    if !GrantTypesOk(s, out.grantTypes, out.authn.authnMethod.current) {
      return false, out;
    }
    out := out.(flags := EarlyFlags(s, out.flags));
    ok := out.maxAge.Some? ==> out.maxAge.value >= 0;
  }

  ghost predicate RawGroup(cfg: EncConfig, on: bool, orig: EncMeta, m: EncMeta) {
    if on then PickEnc(cfg, orig) == Ok(m) else m == orig
  }

  ghost predicate GroupsFilled(s: Server, before: Meta, m: Meta, out: Meta) {
    && out == m.(idToken := out.idToken, userInfo := out.userInfo, jar := out.jar, jarm := out.jarm, flags := out.flags)
    && ResolveEnc(s.idToken, s.choicesOn, before.idToken) == Ok(out.idToken)
    && ResolveEnc(s.userInfo, s.choicesOn, before.userInfo) == Ok(out.userInfo)
    && ResolveEnc(s.jar, s.choicesOn, before.jar) == Ok(out.jar)
    && ResolveEnc(s.jarm, s.choicesOn, before.jarm) == Ok(out.jarm)
    && out.flags == JarFlags(s, m.flags)
  }

  /** `h` is `f` with some of what belongs to features that are off cleared. */
  predicate PartFlags(s: Server, f: Flags, h: Flags) {
    && h.applicationType == f.applicationType && h.parRequired == f.parRequired && h.jarRequired == f.jarRequired
    && (h.requestUris == f.requestUris || (!s.jarByReference && h.requestUris == []))
    && (h.detailTypes == f.detailTypes || (!s.rar && h.detailTypes == []))
    && (h.dpopBound == f.dpopBound || (!s.dpop && !h.dpopBound))
    && (h.credentialOffer == f.credentialOffer || (!s.vci && h.credentialOffer == ""))
    && (h.postLogout == f.postLogout || (!s.logout && h.postLogout == []))
  }

  lemma PartFlagsFill(s: Server, f: Flags, h: Flags)
    requires PartFlags(s, f, h)
    ensures FillFlags(s, h) == FillFlags(s, f)
  {
  }

  /** Signing and encryption, group by group. */
  method FillGroups(s: Server, ghost before: Meta, m: Meta) returns (ok: bool, out: Meta)
    requires RawGroup(s.idToken, s.choicesOn, before.idToken, m.idToken) && RawGroup(s.userInfo, s.choicesOn, before.userInfo, m.userInfo)
    requires RawGroup(s.jar, s.choicesOn, before.jar, m.jar) && RawGroup(s.jarm, s.choicesOn, before.jarm, m.jarm)
    requires NoEmptySupported(s) ==> NoBetter(s, before, m)
    ensures Fixed(m, out)
    ensures NoEmptySupported(s) ==> NoBetter(s, before, out)
    ensures !ok ==> Resolve(s, before).Err?
    ensures ok ==> GroupsFilled(s, before, m, out)
  {
    hide AuthnNoBetter, EncNoBetter, SubjectNoBetter, CibaNoBetter, Resolve, ResolveEnc, PickEnc, FillFlags, FillGrantTypes,
         FillResponseTypes, JarFlags, Acceptable;
    if Resolve(s, before).Ok? { Required(s, before); }
    FlagsInSteps(s, m.flags);
    out := m;
    var group;
    ok, group := FillGroup(s.idToken, s.choicesOn, before.idToken, out.idToken);
    out := out.(idToken := group);
    if !ok { return; }
    ok, group := FillGroup(s.userInfo, s.choicesOn, before.userInfo, out.userInfo);
    out := out.(userInfo := group);
    if !ok { return; }
    out := out.(flags := JarFlags(s, out.flags));
    ok, group := FillGroup(s.jar, s.choicesOn, before.jar, out.jar);
    out := out.(jar := group);
    if !ok { return; }
    ok, group := FillGroup(s.jarm, s.choicesOn, before.jarm, out.jarm);
    out := out.(jarm := group);
  }

  predicate LinksOk(s: Server, m: Meta) {
    var flags := LateFlags(s, m.flags);
    && RedirectsOk(s, flags.applicationType, m.redirectUris) && UrlsOk(s, flags.requestUris)
    && ResponseTypesOk(s, m.grantTypes, m.responseTypes) && KeysOk(s, m.keys) && DetailsOk(s, flags.detailTypes)
    && UrlsOk(s, m.otherUris) && UrlsOk(s, flags.postLogout)
  }

  /** Redirects, request and logout URIs, response types, keys, authorization
      details and token binding. `late`: mutual TLS has been looked at. */
  method CheckLinks(s: Server, m: Meta) returns (ok: bool, flags: Flags, late: bool)
    ensures ok <==> LinksOk(s, m)
    ensures PartFlags(s, m.flags, flags)
    ensures ok ==> late && flags == LateFlags(s, m.flags)
  {
    hide RedirectsOk, UrlsOk, ResponseTypesOk, KeysOk, DetailsOk;
    NoUrls(s);
    flags, late := m.flags, false;
    if !RedirectsOk(s, flags.applicationType, m.redirectUris) { return false, flags, late; }
    if s.jarByReference {
      if !UrlsOk(s, flags.requestUris) { return false, flags, late; }
    } else {
      flags := flags.(requestUris := []);
    }
    if !ResponseTypesOk(s, m.grantTypes, m.responseTypes) || !KeysOk(s, m.keys) { return false, flags, late; }
    if s.rar {
      if !DetailsOk(s, flags.detailTypes) { return false, flags, late; }
    } else {
      flags := flags.(detailTypes := []);
    }
    if !s.dpop { flags := flags.(dpopBound := false); }
    late := true;
    if !s.vci { flags := flags.(credentialOffer := ""); }
    if !UrlsOk(s, m.otherUris) { return false, flags, late; }
    ok := true;
    if s.logout {
      ok := UrlsOk(s, flags.postLogout);
    } else {
      flags := flags.(postLogout := []);
    }
  }

  lemma NoUrls(s: Server)
    ensures UrlsOk(s, []) && DetailsOk(s, [])
  {
  }

  method FillLinks(s: Server, ghost before: Meta, m: Meta) returns (ok: bool, out: Meta)
    requires NoEmptySupported(s) ==>
               NoBetter(s, before, m) && AuthnNoBetter(s.authn, s.choicesOn, before.keys, before.authn, DropNames(s.authn, m.authn))
    ensures Fixed(m, out)
    ensures NoEmptySupported(s) ==> NoBetter(s, before, out)
    ensures ok <==> LinksOk(s, m)
    ensures ok ==> out == m.(flags := LateFlags(s, m.flags), authn := DropNames(s.authn, m.authn))
  {
    hide AuthnNoBetter, EncNoBetter, SubjectNoBetter, CibaNoBetter, FillFlags, FillGrantTypes, FillResponseTypes, LinksOk,
         DropNames, LateFlags, PartFlags;
    var flags, late;
    ok, flags, late := CheckLinks(s, m);
    PartFlagsFill(s, m.flags, flags);
    out := m.(flags := flags);
    if late {
      out := out.(authn := DropNames(s.authn, out.authn));
    }
  }

  lemma LinksRequired(s: Server, goal: Meta, m: Meta)
    requires Acceptable(s, goal) && goal.flags == LateFlags(s, m.flags)
    requires goal.grantTypes == m.grantTypes && goal.responseTypes == m.responseTypes
    requires goal.redirectUris == m.redirectUris && goal.keys == m.keys && goal.otherUris == m.otherUris
    ensures LinksOk(s, m)
  {
    hide RedirectsOk, UrlsOk, ResponseTypesOk, KeysOk, DetailsOk, GrantTypesOk, PairwiseOk, CibaOk, SectorOk;
  }

  ghost predicate RawTail(s: Server, before: Meta, m: Meta) {
    && (if s.choicesOn then PickSubject(s, before.subject) == Ok(m.subject) else m.subject == before.subject)
    && (if s.choicesOn then PickCiba(s, before.ciba) == Ok(m.ciba) else m.ciba == before.ciba)
    && m.grantTypes == FillGrantTypes(s, before.grantTypes)
  }

  /** Subject type, CIBA settings and the sector document. */
  method FillTail(s: Server, ghost before: Meta, m: Meta) returns (ok: bool, out: Meta)
    requires RawTail(s, before, m)
    requires NoEmptySupported(s) ==> NoBetter(s, before, m)
    requires Resolve(s, before).Ok? ==>
               Resolve(s, before).value == m.(subject := Resolve(s, before).value.subject, ciba := Resolve(s, before).value.ciba)
    ensures Fixed(m, out)
    ensures NoEmptySupported(s) ==> NoBetter(s, before, out)
    ensures !ok ==> Resolve(s, before).Err?
    ensures ok ==>
              && out == m.(subject := out.subject, ciba := out.ciba)
              && ResolveSubject(s, before.subject) == Ok(out.subject) && ResolveCiba(s, m.grantTypes, before.ciba) == Ok(out.ciba)
              && PairwiseOk(s, out) && CibaOk(out) && SectorOk(s, out)
  {
    hide AuthnNoBetter, EncNoBetter, SubjectNoBetter, CibaNoBetter, Resolve, ResolveSubject, ResolveCiba, PickSubject, PickCiba,
         FillFlags, FillGrantTypes, FillResponseTypes, Acceptable, PairwiseOk, CibaOk, SectorOk;
    if Resolve(s, before).Ok? {
      Required(s, before);
      TailParts(s, Resolve(s, before).value);
    }
    out := m;
    var subject;
    ok, subject := FillSubjectType(s, before.subject, out.subject);
    out := out.(subject := subject);
    if !ok { return; }
    if Resolve(s, before).Ok? { PairwiseSame(s, Resolve(s, before).value, out); }
    if !PairwiseOk(s, out) { return false, out; }
    if CIBA in out.grantTypes && out.authn.authnMethod.current == NONE {
      return false, out;
    }
    var ciba;
    ok, ciba := FillCibaGroup(s, out.grantTypes, before.ciba, out.ciba);
    out := out.(ciba := ciba);
    if !ok { return; }
    PairwiseSame(s, out, m.(subject := subject));
    ok := CibaOk(out) && SectorOk(s, out);
  }

  lemma TailParts(s: Server, m: Meta)
    requires Acceptable(s, m)
    ensures PairwiseOk(s, m) && CibaOk(m) && SectorOk(s, m)
    ensures CIBA in m.grantTypes ==> m.authn.authnMethod.current != NONE
  {
    hide SectorOk, PairwiseOk;
  }

  lemma PairwiseSame(s: Server, a: Meta, b: Meta)
    requires a.subject == b.subject && a.sectorUri == b.sectorUri && a.grantTypes == b.grantTypes && a.redirectUris == b.redirectUris
    ensures PairwiseOk(s, a) <==> PairwiseOk(s, b)
  {
  }

  /** Every group resolved and the whole acceptable is the resolution. */
  lemma AllFilled(s: Server, before: Meta, out: Meta)
    requires out == before.(authn := out.authn, idToken := out.idToken, userInfo := out.userInfo, jar := out.jar, jarm := out.jarm,
                            subject := out.subject, grantTypes := out.grantTypes, responseTypes := out.responseTypes,
                            ciba := out.ciba, flags := out.flags)
    requires ResolveAuthn(s.authn, s.choicesOn, before.keys, before.authn) == Ok(out.authn)
    requires ResolveEnc(s.idToken, s.choicesOn, before.idToken) == Ok(out.idToken)
    requires ResolveEnc(s.userInfo, s.choicesOn, before.userInfo) == Ok(out.userInfo)
    requires ResolveEnc(s.jar, s.choicesOn, before.jar) == Ok(out.jar) && ResolveEnc(s.jarm, s.choicesOn, before.jarm) == Ok(out.jarm)
    requires ResolveSubject(s, before.subject) == Ok(out.subject)
    requires out.grantTypes == FillGrantTypes(s, before.grantTypes)
    requires out.responseTypes == FillResponseTypes(s, out.grantTypes, before.responseTypes)
    requires ResolveCiba(s, out.grantTypes, before.ciba) == Ok(out.ciba)
    requires out.flags == FillFlags(s, before.flags)
    requires Acceptable(s, out)
    ensures Resolve(s, before) == Ok(out)
  {
    hide ResolveAuthn, ResolveEnc, ResolveSubject, ResolveCiba, FillGrantTypes, FillResponseTypes, FillFlags, Acceptable;
  }

  /** The second phase: it ends as the resolution says, and what it leaves when
      it fails does not resolve. */
  method FillIn(s: Server, ghost before: Meta, m: Meta) returns (ok: bool, out: Meta)
    requires Ready(s, before, m)
    ensures ok <==> Resolve(s, before).Ok?
    ensures ok ==> Resolve(s, before) == Ok(out)
    ensures !ok && NoEmptySupported(s) ==> Resolve(s, out).Err?
    ensures Fixed(before, out)
  {
    hide NoBetter, Resolve, NoEmptySupported, IdentityFilled, GroupsFilled, RawGroup, RawTail, LinksOk, Ready, AuthnNoBetter,
         ResolveSubject, ResolveCiba, PairwiseOk, CibaOk, SectorOk, DropNames, LateFlags;
    ReadyFacts(s, before, m);
    ok, out := FillIdentity(s, before, m);
    if ok {
      var a := out;
      AfterIdentity(s, before, m, a);
      ok, out := FillGroups(s, before, a);
      if ok {
        var b := out;
        AfterGroups(s, before, m, a, b);
        ok, out := FillLinks(s, before, b);
        if ok {
          var c := out;
          AfterLinks(s, before, m, a, b, c);
          ok, out := FillTail(s, before, c);
          if ok {
            AfterTail(s, before, m, a, b, c, out);
          }
        } else {
          LinksRefused(s, before, m, a, b);
        }
      }
    }
    if !ok && NoEmptySupported(s) {
      NoBetterFails(s, before, out);
    }
  }

  /** What no run ever changes. */
  predicate Fixed(m: Meta, out: Meta) {
    && out.keys == m.keys && out.scopes == m.scopes && out.redirectUris == m.redirectUris
    && out.sectorUri == m.sectorUri && out.maxAge == m.maxAge && out.otherUris == m.otherUris
  }

  // ----- how the steps fit together -----

  lemma ReadyFacts(s: Server, before: Meta, m: Meta)
    requires Ready(s, before, m)
    ensures Fixed(before, m)
    ensures m == before.(subject := m.subject, idToken := m.idToken, userInfo := m.userInfo, jar := m.jar, authn := m.authn,
                         ciba := m.ciba, jarm := m.jarm)
    ensures RawGroup(s.idToken, s.choicesOn, before.idToken, m.idToken) && RawGroup(s.userInfo, s.choicesOn, before.userInfo, m.userInfo)
    ensures RawGroup(s.jar, s.choicesOn, before.jar, m.jar) && RawGroup(s.jarm, s.choicesOn, before.jarm, m.jarm)
    ensures RawTail(s, before, m.(grantTypes := FillGrantTypes(s, m.grantTypes)))
  {
    hide PickEnc, PickAuthn, PickCiba, PickSubject;
  }

  lemma AfterIdentity(s: Server, before: Meta, m: Meta, a: Meta)
    requires Ready(s, before, m) && IdentityFilled(s, before, m, a)
    ensures RawGroup(s.idToken, s.choicesOn, before.idToken, a.idToken) && RawGroup(s.userInfo, s.choicesOn, before.userInfo, a.userInfo)
    ensures RawGroup(s.jar, s.choicesOn, before.jar, a.jar) && RawGroup(s.jarm, s.choicesOn, before.jarm, a.jarm)
  {
    hide RawGroup, Ready, DropNames, ResolveAuthn, AuthnNoBetter, GrantTypesOk;
    ReadyFacts(s, before, m);
  }

  ghost predicate UpToGroups(s: Server, before: Meta, m: Meta, a: Meta, b: Meta) {
    Ready(s, before, m) && IdentityFilled(s, before, m, a) && GroupsFilled(s, before, a, b)
  }

  lemma AfterGroups(s: Server, before: Meta, m: Meta, a: Meta, b: Meta)
    requires UpToGroups(s, before, m, a, b)
    ensures NoEmptySupported(s) ==> AuthnNoBetter(s.authn, s.choicesOn, before.keys, before.authn, DropNames(s.authn, b.authn))
    ensures b.grantTypes == FillGrantTypes(s, before.grantTypes)
    ensures b.responseTypes == FillResponseTypes(s, b.grantTypes, before.responseTypes)
    ensures ResolveAuthn(s.authn, s.choicesOn, before.keys, before.authn) == Ok(DropNames(s.authn, b.authn))
    ensures LateFlags(s, b.flags) == FillFlags(s, before.flags)
    ensures RawTail(s, before, b) && Fixed(before, b)
    ensures s.scopesOk(b.scopes) && GrantTypesOk(s, b.grantTypes, DropNames(s.authn, b.authn).authnMethod.current)
    ensures b.maxAge.Some? ==> b.maxAge.value >= 0
  {
    hide RawGroup, Ready, DropNames, ResolveAuthn, ResolveEnc, AuthnNoBetter, GrantTypesOk, FillGrantTypes, FillResponseTypes,
         FillFlags, EarlyFlags, JarFlags, LateFlags, PickSubject, PickCiba, NoEmptySupported;
    ReadyFacts(s, before, m);
    FlagsInSteps(s, m.flags);
  }

  lemma LinksRefused(s: Server, before: Meta, m: Meta, a: Meta, b: Meta)
    requires UpToGroups(s, before, m, a, b) && !LinksOk(s, b)
    ensures Resolve(s, before).Err?
  {
    hide UpToGroups, LinksOk, Resolve, Acceptable, FillFlags, LateFlags, ResolveAuthn, RawTail, DropNames, AuthnNoBetter;
    AfterGroups(s, before, m, a, b);
    if Resolve(s, before).Ok? {
      Required(s, before);
      LinksRequired(s, Resolve(s, before).value, b);
    }
  }

  lemma AfterLinks(s: Server, before: Meta, m: Meta, a: Meta, b: Meta, c: Meta)
    requires UpToGroups(s, before, m, a, b)
    requires c == b.(flags := LateFlags(s, b.flags), authn := DropNames(s.authn, b.authn))
    ensures RawTail(s, before, c)
    ensures Resolve(s, before).Ok? ==>
              Resolve(s, before).value == c.(subject := Resolve(s, before).value.subject, ciba := Resolve(s, before).value.ciba)
  {
    hide Resolve, Acceptable, FillFlags, LateFlags, ResolveAuthn, ResolveEnc, DropNames, AuthnNoBetter, Ready, IdentityFilled,
         PickSubject, PickCiba, FillGrantTypes, FillResponseTypes, JarFlags, GrantTypesOk;
    AfterGroups(s, before, m, a, b);
    if Resolve(s, before).Ok? {
      Required(s, before);
    }
  }

  lemma AfterTail(s: Server, before: Meta, m: Meta, a: Meta, b: Meta, c: Meta, out: Meta)
    requires UpToGroups(s, before, m, a, b) && LinksOk(s, b)
    requires c == b.(flags := LateFlags(s, b.flags), authn := DropNames(s.authn, b.authn))
    requires out == c.(subject := out.subject, ciba := out.ciba)
    requires ResolveSubject(s, before.subject) == Ok(out.subject) && ResolveCiba(s, c.grantTypes, before.ciba) == Ok(out.ciba)
    requires PairwiseOk(s, out) && CibaOk(out) && SectorOk(s, out)
    ensures Resolve(s, before) == Ok(out)
  {
    hide Resolve, Acceptable, FillFlags, LateFlags, ResolveAuthn, ResolveEnc, ResolveSubject, ResolveCiba, DropNames, AuthnNoBetter,
         Ready, IdentityFilled, RawTail, FillGrantTypes, FillResponseTypes, JarFlags, GrantTypesOk, PairwiseOk, CibaOk, SectorOk;
    AfterGroups(s, before, m, a, b);
    AcceptableFrom(s, b, out);
    AllFilled(s, before, out);
  }

  lemma AcceptableFrom(s: Server, b: Meta, out: Meta)
    requires LinksOk(s, b) && PairwiseOk(s, out) && CibaOk(out) && SectorOk(s, out)
    requires out == b.(flags := LateFlags(s, b.flags), authn := out.authn, subject := out.subject, ciba := out.ciba)
    requires s.scopesOk(b.scopes) && GrantTypesOk(s, b.grantTypes, out.authn.authnMethod.current)
    requires b.maxAge.Some? ==> b.maxAge.value >= 0
    ensures Acceptable(s, out)
  {
    hide RedirectsOk, UrlsOk, ResponseTypesOk, KeysOk, DetailsOk, GrantTypesOk, PairwiseOk, CibaOk, SectorOk;
  }

  // ----- the record -----

  class Client {
    var meta: Meta

    constructor (m: Meta)
      ensures meta == m
    {
      meta := m;
    }

    /** `Resolve`: the record in place becomes its resolution. A failed run
        changes only the resolved groups, and what it leaves can be resolved by a
        second run exactly when the first one failed at a choice and the record
        without the value that failed resolves: that value has been cleared. */
    method ResolveInPlace(s: Server) returns (ok: bool)
      modifies this
      ensures ok <==> Resolve(s, old(meta)).Ok?
      ensures ok ==> meta == Resolve(s, old(meta)).value
      ensures Fixed(old(meta), meta)
      ensures !ok && NoEmptySupported(s) ==>
                Resolve(s, meta) ==
                if s.choicesOn && !Pickable(s, old(meta)) then Resolve(s, Cleared(s, old(meta))) else Err
    {
      hide Resolve, Pickable, Picked, Cleared, NoEmptySupported;
      var m := meta;
      if s.choicesOn {
        ok, m := PickChoices(s, m);
        meta := m;
        if !ok {
          Unpickable(s, old(meta));
          return;
        }
      }
      ok, m := FillIn(s, old(meta), m);
      meta := m;
    }
  }

  lemma Unpickable(s: Server, m: Meta)
    requires s.choicesOn && !Pickable(s, m)
    ensures Resolve(s, m).Err?
  {
    hide PickSubject, PickEnc, PickAuthn, PickCiba, FillSubject, FillEnc, FillAuthn, FillCiba, FillFlags, Acceptable,
         FillGrantTypes, FillResponseTypes;
  }
}
