/** Redeeming authorization codes (section 4.1.2 of RFC 6749) and CIBA requests,
    one request at a time over a store that keeps its grants. Authentication,
    binding, PKCE, resource and scope checks, saving and issuing are oracle bits
    of each request. */
module Redemption {
  /** What a token request presents: a code, or an auth_req_id. */
  datatype Handle = Code(code: string) | AuthReq(id: string)

  datatype Delivery = Poll | Ping | Push

  /** Times are seconds since 1970; 0 means "not yet". */
  datatype Grant = Grant(
    clientId: string, expiresAt: int, consumedAt: nat, revokedAt: nat,
    jwkThumbprint: string, certThumbprint: string)

  datatype Status = Pending | Success | Failure
  datatype Session = Session(
    clientId: string, expiresAt: int, status: Status, jwkThumbprint: string, certThumbprint: string)

  datatype Client = Client(id: string, grantTypeAllowed: bool, delivery: Delivery)

  /** A token request. `admitted`: everything before the grant is looked up;
      `checksPass`: the validations between the grant checks and consumption. */
  datatype Request = Request(
    handle: Handle, client: Client, admitted: bool, lookupOk: bool, checksPass: bool,
    jwkThumbprint: string, certThumbprint: string,
    saveOk: bool, issueOk: bool, idTokenOk: bool, revokeOk: bool)

  /** Saving the denial, loading the client and notifying it. */
  datatype Denial = Denial(id: string, saveOk: bool, clientOk: bool, delivery: Delivery, notifyOk: bool)

  /** An approval of a CIBA request: the client's mode, whether it is supported,
      and which of the calls succeed; `denial` is used when it comes too late. */
  datatype Approval = Approval(
    id: string, lookupOk: bool, clientOk: bool, delivery: Delivery, modeOk: bool, newGrantOk: bool,
    saveSessionOk: bool, issueOk: bool, idTokenOk: bool, notifyOk: bool, denial: Denial)

  /** Tokens issued for a redemption, or delivered on approval to a push client. */
  datatype Issue = ForRequest(request: Request, at: nat) | ForApproval(approval: Approval, clientId: string, at: nat) {
    function Handle(): Handle {
      if ForRequest? then request.handle else AuthReq(approval.id)
    }
  }

  /** `issued` counts, per handle, how often tokens were issued for it; `log` has
      each of them. */
  datatype State = State(
    now: nat, grants: map<Handle, Grant>, sessions: map<string, Session>, issued: multiset<Handle>, log: seq<Issue>)

  // ----- what each operation does, declaratively -----

  predicate Empty(h: Handle) {
    match h case Code(c) => c == "" case AuthReq(id) => id == ""
  }

  /** The grant is found and not revoked: from here on a failure revokes it. */
  predicate Live(s: State, r: Request) {
    r.admitted && !Empty(r.handle) && r.lookupOk && r.handle in s.grants && s.grants[r.handle].revokedAt == 0
  }

  predicate Eligible(s: State, r: Request)
    requires r.handle in s.grants
  {
    var g := s.grants[r.handle];
    && g.consumedAt == 0 && s.now < g.expiresAt
    && r.client.grantTypeAllowed && r.client.id == g.clientId
    && (r.handle.AuthReq? ==> !r.client.delivery.Push?)
    && r.checksPass
  }

  predicate Issues(s: State, r: Request) {
    Live(s, r) && Eligible(s, r) && r.saveOk && r.issueOk
  }

  predicate Succeeds(s: State, r: Request) {
    Issues(s, r) && r.idTokenOk
  }

  /** The grant after redemption: consumed when that could be saved, and revoked
      (with whatever was changed before) when the request fails and that can be
      saved. */
  function Redeemed(s: State, r: Request): Grant
    requires r.handle in s.grants
  {
    var g := s.grants[r.handle];
    var consumed := g.(consumedAt := s.now, jwkThumbprint := r.jwkThumbprint, certThumbprint := r.certThumbprint);
    if Succeeds(s, r) then consumed
    else if r.revokeOk then (if Eligible(s, r) then consumed else g).(revokedAt := s.now)
    else if Eligible(s, r) && r.saveOk then consumed
    else g
  }

  function Redeem(s: State, r: Request): State {
    if !Live(s, r) then s
    else s.(
      grants := s.grants[r.handle := Redeemed(s, r)],
      issued := if Issues(s, r) then s.issued + multiset{r.handle} else s.issued,
      log := if Issues(s, r) then s.log + [ForRequest(r, s.now)] else s.log)
  }

  /** A session waits for this approval and no grant exists yet. */
  predicate Awaits(s: State, a: Approval) {
    a.lookupOk && AuthReq(a.id) !in s.grants && a.id in s.sessions
  }

  predicate Approves(s: State, a: Approval) {
    Awaits(s, a) && s.now < s.sessions[a.id].expiresAt && a.clientOk && a.modeOk && a.newGrantOk
  }

  /** Whether the approval returns without an error. */
  predicate ApprovalSucceeds(s: State, a: Approval) {
    if Awaits(s, a) && s.now >= s.sessions[a.id].expiresAt then DenialSucceeds(s, a.denial.(id := a.id))
    else
      && Approves(s, a) && a.saveSessionOk
      && match a.delivery
         case Poll => true
         case Ping => a.notifyOk
         case Push => a.issueOk && a.idTokenOk && a.notifyOk
  }

  function NewGrant(s: State, a: Approval): Grant
    requires a.id in s.sessions
  {
    var session := s.sessions[a.id];
    Grant(session.clientId, session.expiresAt, if a.delivery.Push? then s.now else 0, 0,
          session.jwkThumbprint, session.certThumbprint)
  }

  predicate Delivers(a: Approval) {
    a.delivery.Push? && a.saveSessionOk && a.issueOk
  }

  function Approve(s: State, a: Approval): State {
    if Approves(s, a) then
      s.(grants := s.grants[AuthReq(a.id) := NewGrant(s, a)],
         sessions := if a.saveSessionOk then s.sessions[a.id := s.sessions[a.id].(status := Success)] else s.sessions,
         issued := if Delivers(a) then s.issued + multiset{AuthReq(a.id)} else s.issued,
         log := if Delivers(a) then s.log + [ForApproval(a, s.sessions[a.id].clientId, s.now)] else s.log)
    else if Awaits(s, a) && s.now >= s.sessions[a.id].expiresAt then Deny(s, a.denial.(id := a.id))
    else s
  }

  predicate DenialSucceeds(s: State, d: Denial) {
    d.id in s.sessions && d.saveOk && d.clientOk && (d.delivery.Poll? || d.notifyOk)
  }

  function Deny(s: State, d: Denial): State {
    if d.id in s.sessions && d.saveOk then s.(sessions := s.sessions[d.id := s.sessions[d.id].(status := Failure)]) else s
  }

  // ----- the code -----

  class TokenService {
    var now: nat
    var grants: map<Handle, Grant>
    var sessions: map<string, Session>
    ghost var issued: multiset<Handle>
    ghost var log: seq<Issue>

    ghost function Current(): State
      reads this
    {
      State(now, grants, sessions, issued, log)
    }

    /** Empty stores. */
    constructor (start: nat)
      ensures Current() == State(start, map[], map[], multiset{}, [])
    {
      now, grants, sessions := start, map[], map[];
      issued, log := multiset{}, [];
    }

    /** `generateAuthCodeToken`. */
    method GenerateAuthCodeToken(r: Request) returns (ok: bool)
      requires r.handle.Code?
      modifies this
      ensures ok <==> Succeeds(old(Current()), r)
      ensures Current() == Redeem(old(Current()), r)
    {
      if !r.admitted || r.handle.code == "" || !r.lookupOk || r.handle !in grants {
        return false;
      }
      var grant := grants[r.handle];
      if grant.revokedAt != 0 {
        return false;
      }
      if grant.consumedAt != 0 || !r.client.grantTypeAllowed || r.client.id != grant.clientId
         || now >= grant.expiresAt || !r.checksPass {
        ok := Revoke(r, grant);
        return;
      }
      ok := Consume(r, grant);
    }

    /** `generateCIBAToken`, once a grant exists for the auth_req_id. */
    method GenerateCIBAToken(r: Request) returns (ok: bool)
      requires r.handle.AuthReq?
      modifies this
      ensures ok <==> Succeeds(old(Current()), r)
      ensures Current() == Redeem(old(Current()), r)
    {
      if !r.admitted || r.handle.id == "" || !r.lookupOk || r.handle !in grants {
        return false;
      }
      var grant := grants[r.handle];
      if grant.revokedAt != 0 {
        return false;
      }
      if now >= grant.expiresAt || grant.consumedAt != 0 || !r.client.grantTypeAllowed
         || r.client.delivery.Push? || r.client.id != grant.clientId || !r.checksPass {
        ok := Revoke(r, grant);
        return;
      }
      ok := Consume(r, grant);
    }

    /** Mark the grant consumed, save it, and only then issue; any failure revokes. */
    method Consume(r: Request, loaded: Grant) returns (ok: bool)
      requires Live(Current(), r) && Eligible(Current(), r) && loaded == grants[r.handle]
      modifies this
      ensures ok <==> Succeeds(old(Current()), r)
      ensures Current() == Redeem(old(Current()), r)
    {
      hide Live, Eligible, Redeem, Succeeds;
      AfterConsumption(Current(), r);
      var grant := loaded;
      grant := grant.(jwkThumbprint := r.jwkThumbprint, certThumbprint := r.certThumbprint);
      grant := grant.(consumedAt := now);
      if !r.saveOk {
        ok := Revoke(r, grant);
        return;
      }
      grants := grants[r.handle := grant];
      if !r.issueOk {
        ok := Revoke(r, grant);
        return;
      }
      issued := issued + multiset{r.handle};
      log := log + [ForRequest(r, now)];
      if !r.idTokenOk {
        ok := Revoke(r, grant);
        return;
      }
      return true;
    }

    method Revoke(r: Request, grant: Grant) returns (ok: bool)
      modifies this`grants
      ensures !ok
      ensures grants == if r.revokeOk then old(grants)[r.handle := grant.(revokedAt := now)] else old(grants)
    {
      if r.revokeOk {
        grants := grants[r.handle := grant.(revokedAt := now)];
      }
      return false;
    }

    /** `GrantCIBARequest`. */
    method GrantCIBARequest(a: Approval) returns (ok: bool)
      modifies this
      ensures ok <==> ApprovalSucceeds(old(Current()), a)
      ensures Current() == Approve(old(Current()), a)
    {
      if !a.lookupOk || AuthReq(a.id) in grants || a.id !in sessions {
        return false;
      }
      var session := sessions[a.id];
      if now >= session.expiresAt {
        ok := DenyCIBARequest(a.denial.(id := a.id));
        return;
      }
      if !a.clientOk || !a.modeOk || !a.newGrantOk {
        return false;
      }
      var consumedAt := if a.delivery != Push then 0 else now;
      var grant := Grant(session.clientId, session.expiresAt, consumedAt, 0, session.jwkThumbprint, session.certThumbprint);
      grants := grants[AuthReq(a.id) := grant];
      if !a.saveSessionOk {
        return false;
      }
      sessions := sessions[a.id := session.(status := Success)];
      if a.delivery == Poll {
        return true;
      }
      if a.delivery == Ping {
        return a.notifyOk;
      }
      if !a.issueOk {
        return false;
      }
      issued := issued + multiset{AuthReq(a.id)};
      log := log + [ForApproval(a, session.clientId, now)];
      return a.idTokenOk && a.notifyOk;
    }

    /** `DenyCIBARequest`. */
    method DenyCIBARequest(d: Denial) returns (ok: bool)
      modifies this`sessions
      ensures ok <==> DenialSucceeds(old(Current()), d)
      ensures Current() == Deny(old(Current()), d)
    {
      if d.id !in sessions || !d.saveOk {
        return false;
      }
      sessions := sessions[d.id := sessions[d.id].(status := Failure)];
      if !d.clientOk {
        return false;
      }
      return d.delivery == Poll || d.notifyOk;
    }
  }

  /** The four ways a redemption can go once the grant is found to fit. */
  lemma AfterConsumption(s: State, r: Request)
    requires Live(s, r) && Eligible(s, r)
    ensures Succeeds(s, r) <==> r.saveOk && r.issueOk && r.idTokenOk
    ensures var consumed := s.grants[r.handle].(jwkThumbprint := r.jwkThumbprint, certThumbprint := r.certThumbprint, consumedAt := s.now);
            var saved := if r.saveOk then s.grants[r.handle := consumed] else s.grants;
            Redeem(s, r) == s.(
              grants := if r.saveOk && r.issueOk && r.idTokenOk then saved
                        else if r.revokeOk then saved[r.handle := consumed.(revokedAt := s.now)] else saved,
              issued := if r.saveOk && r.issueOk then s.issued + multiset{r.handle} else s.issued,
              log := if r.saveOk && r.issueOk then s.log + [ForRequest(r, s.now)] else s.log)
  {
    assert s.grants[r.handle := s.grants[r.handle]] == s.grants;
  }

  // ----- runs -----

  datatype Event =
    | Tick(to: nat)
    | NewCode(code: string, grant: Grant)
    | NewSession(id: string, session: Session)
    | TokenRequest(request: Request)
    | Approved(approval: Approval)
    | Denied(denial: Denial)

  /** The clock does not go back, and codes are new when they are created. */
  predicate Allowed(s: State, e: Event) {
    match e
    case Tick(to) => to >= s.now
    case NewCode(code, grant) => Code(code) !in s.grants && grant.consumedAt == 0 && grant.revokedAt == 0
    case _ => true
  }

  function Step(s: State, e: Event): State {
    match e
    case Tick(to) => s.(now := to)
    case NewCode(code, grant) => s.(grants := s.grants[Code(code) := grant])
    case NewSession(id, session) => s.(sessions := s.sessions[id := session])
    case TokenRequest(r) => Redeem(s, r)
    case Approved(a) => Approve(s, a)
    case Denied(d) => Deny(s, d)
  }

  function After(s: State, events: seq<Event>): State {
    if events == [] then s else Step(After(s, events[..|events| - 1]), events[|events| - 1])
  }

  predicate AllowedRun(s: State, events: seq<Event>) {
    forall i :: 0 <= i < |events| ==> Allowed(After(s, events[..i]), events[i])
  }

  /** Whoever has been issued tokens holds a consumed grant, and only one issue. */
  ghost predicate Once(s: State) {
    && s.now > 0
    && forall h :: h in s.issued ==> s.issued[h] == 1 && h in s.grants && s.grants[h].consumedAt != 0
  }

  lemma StepKeepsOnce(s: State, e: Event)
    requires Once(s) && Allowed(s, e)
    ensures Once(Step(s, e))
  {
    match e
    case TokenRequest(r) => RedeemKeepsOnce(s, r);
    case Approved(a) => ApproveKeepsOnce(s, a);
    case _ =>
  }

  lemma RedeemKeepsOnce(s: State, r: Request)
    requires Once(s)
    ensures Once(Redeem(s, r))
  {
    if Live(s, r) {
      assert Issues(s, r) ==> Redeemed(s, r).consumedAt == s.now;
      assert s.grants[r.handle].consumedAt != 0 ==> Redeemed(s, r).consumedAt == s.grants[r.handle].consumedAt;
    }
  }

  lemma ApproveKeepsOnce(s: State, a: Approval)
    requires Once(s)
    ensures Once(Approve(s, a))
  {
  }

  lemma {:induction false} RunKeepsOnce(s: State, events: seq<Event>)
    requires Once(s) && AllowedRun(s, events)
    ensures Once(After(s, events))
    decreases |events|
  {
    if events != [] {
      var front := events[..|events| - 1];
      assert forall i :: 0 <= i < |front| ==> front[..i] == events[..i];
      RunKeepsOnce(s, front);
      StepKeepsOnce(After(s, front), events[|events| - 1]);
    }
  }

  /** In every run that starts with nothing issued, each code and each
      auth_req_id yields tokens at most once, push and poll counted together. */
  lemma AtMostOnce(s: State, events: seq<Event>, h: Handle)
    requires s.now > 0 && s.issued == multiset{} && AllowedRun(s, events)
    ensures After(s, events).issued[h] <= 1
  {
    RunKeepsOnce(s, events);
  }

  // ----- to whom, and until when -----

  /** Tokens were issued to the client the grant was made for, before the grant's
      expiry, for a grant type that client may use and not by polling to a push
      client; the grant carries the thumbprints of that request. */
  ghost predicate Rightful(s: State, i: Issue) {
    && i.Handle() in s.grants && i.at < s.grants[i.Handle()].expiresAt && i.at <= s.now
    && var g := s.grants[i.Handle()];
       match i
       case ForRequest(r, at) =>
         && r.client.id == g.clientId && r.client.grantTypeAllowed && (r.handle.AuthReq? ==> r.client.delivery != Push)
         && r.admitted && r.checksPass && r.saveOk && g.consumedAt == at
         && g.jwkThumbprint == r.jwkThumbprint && g.certThumbprint == r.certThumbprint
       case ForApproval(a, clientId, at) =>
         clientId == g.clientId && a.delivery == Push && a.clientOk && a.modeOk && g.consumedAt == at
  }

  function Handles(log: seq<Issue>): multiset<Handle> {
    if log == [] then multiset{} else Handles(log[..|log| - 1]) + multiset{log[|log| - 1].Handle()}
  }

  /** Every issue in the log is rightful, and was made at a time other than zero. */
  ghost predicate AllRightful(s: State) {
    && s.now > 0 && s.issued == Handles(s.log)
    && forall n :: 0 <= n < |s.log| ==> s.log[n].at > 0 && Rightful(s, s.log[n])
  }

  lemma LogMore(log: seq<Issue>, i: Issue)
    ensures Handles(log + [i]) == Handles(log) + multiset{i.Handle()}
  {
    assert (log + [i])[..|log|] == log;
  }

  lemma RedeemRightful(s: State, r: Request)
    requires AllRightful(s)
    ensures AllRightful(Redeem(s, r))
  {
    var t := Redeem(s, r);
    LogMore(s.log, ForRequest(r, s.now));
    forall n | 0 <= n < |t.log| ensures t.log[n].at > 0 && Rightful(t, t.log[n]) {
      if n < |s.log| {
        assert t.log[n] == s.log[n] && Rightful(s, s.log[n]);
        assert t.grants[s.log[n].Handle()].(revokedAt := 0) == s.grants[s.log[n].Handle()].(revokedAt := 0);
      }
    }
  }

  lemma ApproveRightful(s: State, a: Approval)
    requires AllRightful(s)
    ensures AllRightful(Approve(s, a))
  {
    hide Rightful, Handles;
    var t := Approve(s, a);
    if a.id in s.sessions { LogMore(s.log, ForApproval(a, s.sessions[a.id].clientId, s.now)); }
    forall n | 0 <= n < |t.log| ensures t.log[n].at > 0 && Rightful(t, t.log[n]) {
      if n < |s.log| {
        assert t.log[n] == s.log[n] && Rightful(s, s.log[n]);
        RightfulStays(s, t, s.log[n]);
      } else {
        DeliveredRightful(s, a);
      }
    }
  }

  lemma RightfulStays(s: State, t: State, i: Issue)
    requires Rightful(s, i) && t.now == s.now
    requires i.Handle() in s.grants ==> i.Handle() in t.grants && t.grants[i.Handle()] == s.grants[i.Handle()]
    ensures Rightful(t, i) && i.Handle() in s.grants
  {
  }

  lemma DeliveredRightful(s: State, a: Approval)
    requires Approves(s, a) && Delivers(a)
    ensures Rightful(Approve(s, a), ForApproval(a, s.sessions[a.id].clientId, s.now))
  {
  }

  lemma StepRightful(s: State, e: Event)
    requires AllRightful(s) && Allowed(s, e)
    ensures AllRightful(Step(s, e))
  {
    hide Redeem, Approve;
    match e
    case TokenRequest(r) => RedeemRightful(s, r);
    case Approved(a) => ApproveRightful(s, a);
    case _ =>
      var t := Step(s, e);
      forall n | 0 <= n < |t.log| ensures t.log[n].at > 0 && Rightful(t, t.log[n]) {
        assert Rightful(s, s.log[n]);
      }
  }

  /** In every run that starts with nothing issued, whoever was issued tokens had a
      right to them, and the log has each issue. */
  lemma {:induction false} IssuesAreRightful(s: State, events: seq<Event>)
    requires s.now > 0 && s.issued == multiset{} && s.log == [] && AllowedRun(s, events)
    ensures AllRightful(After(s, events))
    decreases |events|
  {
    if events != [] {
      var front := events[..|events| - 1];
      assert forall i :: 0 <= i < |front| ==> front[..i] == events[..i];
      IssuesAreRightful(s, front);
      assert Allowed(After(s, front), events[|events| - 1]);
      StepRightful(After(s, front), events[|events| - 1]);
    }
  }

  /** A request issues tokens exactly when it is admitted, names a grant that is
      found, neither revoked nor consumed nor expired, comes from the grant's own
      client with that grant type allowed and not polling as a push client, passes
      its checks, and is saved and issued. */
  lemma IssuesExactly(s: State, r: Request)
    ensures Redeem(s, r).log ==
            if && r.admitted && r.handle != Code("") && r.handle != AuthReq("") && r.lookupOk && r.handle in s.grants
               && s.grants[r.handle].revokedAt == 0 && s.grants[r.handle].consumedAt == 0
               && s.now < s.grants[r.handle].expiresAt && r.client.id == s.grants[r.handle].clientId
               && r.client.grantTypeAllowed && (r.handle.AuthReq? ==> r.client.delivery != Push)
               && r.checksPass && r.saveOk && r.issueOk
            then s.log + [ForRequest(r, s.now)] else s.log
  {
  }

  /** What a request does to the grant it names: nothing unless the grant is found
      and not revoked; otherwise it is consumed, revoked, or both, and only that. */
  lemma GrantAfterRequest(s: State, r: Request)
    requires r.admitted && r.handle != Code("") && r.handle != AuthReq("") && r.lookupOk
    requires r.handle in s.grants && s.grants[r.handle].revokedAt == 0
    ensures var g, t := s.grants[r.handle], Redeem(s, r);
            var fit := && g.consumedAt == 0 && s.now < g.expiresAt && r.client.id == g.clientId && r.client.grantTypeAllowed
                       && (r.handle.AuthReq? ==> r.client.delivery != Push) && r.checksPass;
            var failed := !fit || !r.saveOk || !r.issueOk || !r.idTokenOk;
            var consumed := g.(consumedAt := s.now, jwkThumbprint := r.jwkThumbprint, certThumbprint := r.certThumbprint);
            && (Succeeds(s, r) <==> !failed)
            && t.grants == s.grants[r.handle := t.grants[r.handle]] && t.sessions == s.sessions && t.now == s.now
            && t.grants[r.handle] ==
               if !failed then consumed
               else if r.revokeOk then (if fit then consumed else g).(revokedAt := s.now)
               else if fit && r.saveOk then consumed
               else g
  {
  }

  /** A request that is not admitted, or names no grant or a revoked one, changes nothing. */
  lemma NothingToRedeem(s: State, r: Request)
    requires || !r.admitted || r.handle == Code("") || r.handle == AuthReq("") || !r.lookupOk
             || r.handle !in s.grants || s.grants[r.handle].revokedAt != 0
    ensures Redeem(s, r) == s && !Succeeds(s, r)
  {
  }

  /** No run takes a grant away, or changes whom it was made for and until when. */
  lemma {:induction false} GrantsKeepTheirOwner(s: State, events: seq<Event>, h: Handle)
    requires h in s.grants && AllowedRun(s, events)
    ensures var t := After(s, events);
            h in t.grants && t.grants[h].clientId == s.grants[h].clientId && t.grants[h].expiresAt == s.grants[h].expiresAt
    decreases |events|
  {
    if events != [] {
      var front := events[..|events| - 1];
      assert forall i :: 0 <= i < |front| ==> front[..i] == events[..i];
      GrantsKeepTheirOwner(s, front, h);
      assert Allowed(After(s, front), events[|events| - 1]);
      OwnerKept(After(s, front), events[|events| - 1], h);
    }
  }

  lemma OwnerKept(s: State, e: Event, h: Handle)
    requires h in s.grants && Allowed(s, e)
    ensures var t := Step(s, e);
            h in t.grants && t.grants[h].clientId == s.grants[h].clientId && t.grants[h].expiresAt == s.grants[h].expiresAt
  {
  }

  /** An approval in time makes a grant for the session's client, with its expiry
      and thumbprints, already consumed if the client is pushed its tokens. */
  lemma ApprovedGrant(s: State, a: Approval)
    requires a.lookupOk && AuthReq(a.id) !in s.grants && a.id in s.sessions && s.now < s.sessions[a.id].expiresAt
    requires a.clientOk && a.modeOk && a.newGrantOk
    ensures var session, t := s.sessions[a.id], Approve(s, a);
            && t.grants == s.grants[AuthReq(a.id) := Grant(session.clientId, session.expiresAt,
                 if a.delivery == Push then s.now else 0, 0, session.jwkThumbprint, session.certThumbprint)]
            && t.log == (if a.delivery == Push && a.saveSessionOk && a.issueOk then s.log + [ForApproval(a, session.clientId, s.now)] else s.log)
            && t.sessions == (if a.saveSessionOk then s.sessions[a.id := session.(status := Success)] else s.sessions)
  {
  }

  /** A redemption that gets as far as a live grant and fails leaves the grant
      revoked, in this and in every later state, when the revocation is saved. */
  lemma FailureRevokesForGood(s: State, r: Request, events: seq<Event>)
    requires s.now > 0 && Live(s, r) && !Succeeds(s, r) && r.revokeOk
    requires AllowedRun(Redeem(s, r), events)
    ensures var t := After(Redeem(s, r), events); r.handle in t.grants && t.grants[r.handle].revokedAt != 0
  {
    RevokedStays(Redeem(s, r), events, r.handle);
  }

  lemma {:induction false} RevokedStays(s: State, events: seq<Event>, h: Handle)
    requires h in s.grants && s.grants[h].revokedAt != 0 && AllowedRun(s, events)
    ensures h in After(s, events).grants && After(s, events).grants[h].revokedAt != 0
    decreases |events|
  {
    if events != [] {
      var front := events[..|events| - 1];
      assert forall i :: 0 <= i < |front| ==> front[..i] == events[..i];
      RevokedStays(s, front, h);
      assert Allowed(After(s, front), events[|events| - 1]);
    }
  }

  /** Presenting a redeemed code or auth_req_id again yields nothing and, when
      that is saved, revokes the grant behind the first redemption. */
  lemma ReuseRevokes(s: State, r: Request)
    requires Live(s, r) && s.grants[r.handle].consumedAt != 0
    ensures !Issues(s, r) && Redeem(s, r).issued == s.issued
    ensures r.revokeOk ==> Redeem(s, r).grants[r.handle] == s.grants[r.handle].(revokedAt := s.now)
  {
  }

  /** The consumption mark is a time: a successful redemption can be repeated if
      and only if it happened at time zero. */
  lemma ConsumptionNeedsAClock(s: State, r: Request)
    requires Succeeds(s, r)
    ensures Succeeds(Redeem(s, r), r) <==> s.now == 0
  {
    var t := Redeem(s, r);
    assert t.grants[r.handle] == Redeemed(s, r);
  }

  /** A code redeemed twice by a clock that shows zero. */
  lemma RedeemedTwiceAtZero()
    ensures var h := Code("x");
            var s := State(0, map[h := Grant("c", 5, 0, 0, "", "")], map[], multiset{}, []);
            var r := Request(h, Client("c", true, Poll), true, true, true, "", "", true, true, true, true);
            Succeeds(s, r) && Redeem(Redeem(s, r), r).issued[h] == 2
  {
    var h := Code("x");
    var s := State(0, map[h := Grant("c", 5, 0, 0, "", "")], map[], multiset{}, []);
    var r := Request(h, Client("c", true, Poll), true, true, true, "", "", true, true, true, true);
    ConsumptionNeedsAClock(s, r);
  }

  /** An approval that returns without an error has created a grant if and only
      if it came before the request expired: a late one reports success too, but
      what it saves is the denial. */
  lemma ApprovalReportsSuccess(s: State, a: Approval)
    requires ApprovalSucceeds(s, a)
    ensures a.id in s.sessions && a.id in Approve(s, a).sessions
    ensures AuthReq(a.id) in Approve(s, a).grants <==> s.now < s.sessions[a.id].expiresAt
    ensures Approve(s, a).sessions[a.id].status == if s.now < s.sessions[a.id].expiresAt then Success else Failure
  {
  }

  /** A late approval that reports success and grants nothing. */
  lemma LateApprovalReportsSuccess()
    ensures var s := State(10, map[], map["r" := Session("c", 5, Pending, "", "")], multiset{}, []);
            var d := Denial("r", true, true, Poll, true);
            var a := Approval("r", true, true, Poll, true, true, true, true, true, true, d);
            ApprovalSucceeds(s, a) && AuthReq("r") !in Approve(s, a).grants && Approve(s, a).sessions["r"].status == Failure
  {
  }

  // ----- denial and approval -----

  /** An approval never looks at the status of the session. */
  lemma ApprovalIgnoresDenial(s: State, a: Approval, d: Denial)
    requires d.id == a.id
    ensures Approves(Deny(s, d), a) <==> Approves(s, a)
  {
  }

  /** Approval `i` of the run is made in time, for a request without a grant. */
  predicate ApprovedAt(s: State, events: seq<Event>, id: string, i: nat)
    requires i < |events|
  {
    events[i].Approved? && events[i].approval.id == id && Approves(After(s, events[..i]), events[i].approval)
  }

  /** A request without a grant has one at the end of a run if and only if some
      approval was made in time, denied before or not: a denial is final exactly
      when no approval before expiry follows it. */
  lemma {:induction false} GrantedExactly(s: State, events: seq<Event>, id: string)
    requires AuthReq(id) !in s.grants
    ensures AuthReq(id) in After(s, events).grants <==> exists i :: 0 <= i < |events| && ApprovedAt(s, events, id, i)
    decreases |events|
  {
    hide Step, Approves;
    if events != [] {
      var n := |events| - 1;
      var front := events[..n];
      GrantedExactly(s, front, id);
      forall i | 0 <= i < n ensures ApprovedAt(s, front, id, i) <==> ApprovedAt(s, events, id, i) {
        assert front[..i] == events[..i];
      }
      var t := After(s, front);
      assert After(s, events) == Step(t, events[n]);
      StepGrants(t, events[n], id);
      assert ApprovedAt(s, events, id, n) <==>
             events[n].Approved? && events[n].approval.id == id && Approves(t, events[n].approval);
      if i :| 0 <= i < n && ApprovedAt(s, front, id, i) {
        assert ApprovedAt(s, events, id, i);
      }
    }
  }

  /** Grants stay, and only an approval in time adds one for a request. */
  lemma StepGrants(s: State, e: Event, id: string)
    ensures AuthReq(id) in Step(s, e).grants <==>
            AuthReq(id) in s.grants || (e.Approved? && e.approval.id == id && Approves(s, e.approval))
  {
  }

  /** Nothing is issued for a request that stays without a grant. */
  lemma NothingWithoutGrant(s: State, events: seq<Event>, id: string)
    requires s.now > 0 && s.issued == multiset{} && AllowedRun(s, events)
    ensures AuthReq(id) !in After(s, events).grants ==> AuthReq(id) !in After(s, events).issued
  {
    RunKeepsOnce(s, events);
  }

  /** A request that was denied, then approved and polled: tokens are issued. */
  lemma DeniedThenRedeemed()
    ensures var s := State(1, map[], map["r" := Session("c", 5, Pending, "", "")], multiset{}, []);
            var d := Denial("r", true, true, Poll, true);
            var a := Approval("r", true, true, Poll, true, true, true, true, true, true, d);
            var r := Request(AuthReq("r"), Client("c", true, Poll), true, true, true, "", "", true, true, true, true);
            var events := [Denied(d), Approved(a), TokenRequest(r)];
            AllowedRun(s, events) && After(s, events).issued[AuthReq("r")] == 1
  {
    var s := State(1, map[], map["r" := Session("c", 5, Pending, "", "")], multiset{}, []);
    var d := Denial("r", true, true, Poll, true);
    var a := Approval("r", true, true, Poll, true, true, true, true, true, true, d);
    var r := Request(AuthReq("r"), Client("c", true, Poll), true, true, true, "", "", true, true, true, true);
    var events := [Denied(d), Approved(a), TokenRequest(r)];
    var one, two := [Denied(d)], [Denied(d), Approved(a)];
    assert events[..2] == two && two[..1] == one && one[..0] == [];
    assert After(s, one) == Deny(s, d);
    assert After(s, two) == Approve(Deny(s, d), a);
    assert After(s, events) == Redeem(After(s, two), r);
    assert Issues(After(s, two), r);
  }
}
