/** Client records at which a second resolution does not end as the first. */
module ClientWitnesses {
  import opened Wrappers
  import opened ClientResolve
  import opened ClientRecord

  const NO_CHOICE := Choice([], "")
  const NO_ENC := EncMeta(NO_CHOICE, NO_CHOICE, NO_CHOICE)
  const SIGNED := EncConfig(true, false, ["RS256"], [], [], "RS256", true, true)
  const OFF := EncConfig(false, false, [], [], [], "", false, false)

  /** A server without optional features that accepts every URL. */
  function Plain(choicesOn: bool, authnMethod: string): Server {
    Server(choicesOn, AuthnConfig([authnMethod], authnMethod, [], [], false, false, false, false), SIGNED, OFF, OFF, OFF,
           [], [], ["public"], "public", [], false, [], false, false, false, false, false, false, [], false,
           _ => true, _ => true, (_, _) => true, u => u, _ => false, _ => false, true, _ => None)
  }

  /** A client that sets little more than its subject type and TLS names. */
  function Record(subject: Choice, names: TlsNames): Meta {
    Meta(AuthnMeta(NO_CHOICE, NO_CHOICE, names, false, Endpoint("", ""), Endpoint("", "")), KeySource(false, "", ""),
         NO_ENC, NO_ENC, NO_ENC, NO_ENC, [], [], subject, CibaMeta("", "", NO_CHOICE, false),
         Flags(WEB, false, false, false, "", [], [], []), "", [], "", None, [])
  }

  lemma PlainAccepts(choicesOn: bool, authnMethod: string, m: Meta)
    requires m.grantTypes == [] && m.responseTypes == [] && m.redirectUris == [] && m.otherUris == [] && m.sectorUri == ""
    requires m.flags == Flags(WEB, false, false, false, "", [], [], []) && m.keys == KeySource(false, "", "") && m.maxAge == None
    ensures Acceptable(Plain(choicesOn, authnMethod), m)
  {
  }

  /** The groups other than authentication and subject. */
  lemma PlainGroups(choicesOn: bool, authnMethod: string)
    ensures var s := Plain(choicesOn, authnMethod);
            && ResolveEnc(s.idToken, choicesOn, NO_ENC) == Ok(EncMeta(Choice([], "RS256"), NO_CHOICE, NO_CHOICE))
            && ResolveEnc(s.userInfo, choicesOn, NO_ENC) == Ok(NO_ENC) && ResolveEnc(s.jar, choicesOn, NO_ENC) == Ok(NO_ENC)
            && ResolveEnc(s.jarm, choicesOn, NO_ENC) == Ok(NO_ENC)
            && ResolveCiba(s, [], CibaMeta("", "", NO_CHOICE, false)) == Ok(CibaMeta("", "", NO_CHOICE, false))
            && FillFlags(s, Flags(WEB, false, false, false, "", [], [], [])) == Flags(WEB, false, false, false, "", [], [], [])
            && FillGrantTypes(s, []) == [] && FillResponseTypes(s, [], []) == []
  {
  }

  /** With TLS authentication offered while mutual TLS is off, a first resolution
      succeeds and a second one fails. */
  lemma SecondRunFails()
    ensures var s := Plain(false, TLS);
            var c := Record(Choice([], "public"), TlsNames("cn", "", ""));
            NoEmptySupported(s) && Resolve(s, c).Ok? && Resolve(s, Resolve(s, c).value).Err?
  {
    hide ResolveEnc, ResolveCiba, FillFlags, Acceptable, FillGrantTypes, FillResponseTypes;
    var s := Plain(false, TLS);
    var c := Record(Choice([], "public"), TlsNames("cn", "", ""));
    PlainGroups(false, TLS);
    assert ResolveSubject(s, c.subject) == Ok(c.subject);
    var authn := c.authn.(authnMethod := Choice([], TLS), tls := NO_NAMES);
    assert ResolveAuthn(s.authn, false, c.keys, c.authn) == Ok(authn);
    var out := c.(authn := authn, idToken := EncMeta(Choice([], "RS256"), NO_CHOICE, NO_CHOICE));
    PlainAccepts(false, TLS, out);
    assert Resolve(s, c) == Ok(out);
    assert ResolveAuthn(s.authn, false, c.keys, authn).Err?;
  }

  /** A subject type that is not on the client's own list fails; the failed run
      clears it, and a second run takes the first type from the list. */
  lemma SecondRunSucceeds()
    ensures var s := Plain(true, NONE);
            var c := Record(Choice(["public"], "pairwise"), NO_NAMES);
            && NoEmptySupported(s) && Resolve(s, c).Err? && !Pickable(s, c)
            && Cleared(s, c) == Record(Choice(["public"], ""), NO_NAMES) && Resolve(s, Cleared(s, c)).Ok?
  {
    hide ResolveEnc, ResolveCiba, FillFlags, Acceptable, FillGrantTypes, FillResponseTypes;
    var s := Plain(true, NONE);
    var c := Record(Choice(["public"], "pairwise"), NO_NAMES);
    assert PickSubject(s, c.subject).Err?;
    Unpickable(s, c);
    var d := Record(Choice(["public"], ""), NO_NAMES);
    PlainGroups(true, NONE);
    assert ResolveSubject(s, d.subject) == Ok(Choice(["public"], "public"));
    var authn := d.authn.(authnMethod := Choice([], NONE));
    assert ResolveAuthn(s.authn, true, d.keys, d.authn) == Ok(authn);
    var out := d.(authn := authn, idToken := EncMeta(Choice([], "RS256"), NO_CHOICE, NO_CHOICE), subject := Choice(["public"], "public"));
    PlainAccepts(true, NONE, out);
    assert Resolve(s, d) == Ok(out);
  }
}
