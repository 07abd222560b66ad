/** DPoP proof acceptance with an expiring replay store: sections 4.3 and 11.1 of
    RFC 9449. Signature, URI, nonce and header checks are one oracle bit. */
module Dpop {
  import opened Wrappers
  import opened Surrogates

  const MAX_INT64: int := 0x7fff_ffff_ffff_ffff
  const MIN_INT64: int := -0x8000_0000_0000_0000
  const MAX_SAFE: int := 0x1f_ffff_ffff_ffff
  const NANOS: int := 1_000_000_000

  // ----- the iat claim -----

  predicate Digits(s: seq<byte>) {
    forall i :: 0 <= i < |s| ==> 48 <= s[i] <= 57
  }

  function Magnitude(s: seq<byte>): nat
    requires Digits(s)
  {
    if s == [] then 0 else 10 * Magnitude(s[..|s| - 1]) + (s[|s| - 1] as int - 48)
  }

  /** The decimal numeral of an integer. */
  function Numeral(n: int): seq<byte>
    decreases if n < 0 then 1 - n else n
  {
    if n < 0 then [45] + Numeral(-n)
    else if n < 10 then [(48 + n) as byte]
    else Numeral(n / 10) + [(48 + n % 10) as byte]
  }

  lemma {:induction false} NumeralDigits(n: nat)
    ensures Digits(Numeral(n)) && Numeral(n) != [] && Magnitude(Numeral(n)) == n
  {
    if n < 10 {
      assert Numeral(n)[..0] == [];
    } else {
      NumeralDigits(n / 10);
      var front, last := Numeral(n / 10), (48 + n % 10) as byte;
      MagnitudeSnoc(front, last);
    }
  }

  lemma MagnitudeSnoc(s: seq<byte>, b: byte)
    requires Digits(s) && 48 <= b <= 57
    ensures Digits(s + [b]) && Magnitude(s + [b]) == 10 * Magnitude(s) + (b as int - 48)
  {
    assert (s + [b])[..|s|] == s;
  }

  /** Reading a numeral gives the integer back. */
  lemma NumeralRead(n: int)
    ensures IsInteger(Numeral(n)) && IntegerOf(Numeral(n)) == n
  {
    var size := if n < 0 then -n else n;
    NumeralDigits(size);
    hide Magnitude;
    var s := Numeral(size);
    assert s[0] != 45;
    if n < 0 { assert Numeral(n)[1..] == s; }
  }

  /** An optional minus sign and at least one digit. */
  predicate IsInteger(raw: seq<byte>) {
    if raw != [] && raw[0] == 45 then |raw| > 1 && Digits(raw[1..]) else raw != [] && Digits(raw)
  }

  function IntegerOf(raw: seq<byte>): int
    requires IsInteger(raw)
  {
    if raw[0] == 45 then 0 - Magnitude(raw[1..]) else Magnitude(raw)
  }

  /** `integerJSONNumber`: exactly the integers that JSON can carry safely. */
  method IntegerJsonNumber(raw: seq<byte>) returns (r: Result<int>)
    ensures r.Ok? <==> IsInteger(raw) && -MAX_SAFE <= IntegerOf(raw) <= MAX_SAFE
    ensures r.Ok? ==> r.value == IntegerOf(raw)
  {
    if |raw| == 0 {
      return Err;
    }
    var start := if raw[0] == 45 then 1 else 0;
    if start == |raw| {
      return Err;
    }
    var digits := raw[start..];
    var value := 0;
    for i := 0 to |digits|
      invariant Digits(digits[..i]) && value == Magnitude(digits[..i])
    {
      if digits[i] < 48 || digits[i] > 57 {
        return Err;
      }
      assert digits[..i + 1][..i] == digits[..i];
      value := 10 * value + (digits[i] as int - 48);
    }
    assert digits[..|digits|] == digits;
    assert start == 0 ==> digits == raw;
    if start == 1 {
      value := -value;
    }
    if value < -MAX_SAFE || value > MAX_SAFE {
      return Err;
    }
    return Ok(value);
  }

  // ----- the acceptance window -----

  datatype Config = Config(lifetime: int, leeway: int)

  predicate Int64(n: int) {
    MIN_INT64 <= n <= MAX_INT64
  }

  /** Seconds from the year 1 to 1970, which `time.Unix` adds in int64. */
  const UNIX_TO_INTERNAL: int := 62_135_596_800
  const TWO_64: int := 0x1_0000_0000_0000_0000

  /** The instant, in seconds since 1970, that `time.Unix(seconds, 0)` stands for:
      the addition wraps around for instants too far in the future. */
  function UnixTime(seconds: int): (instant: int)
    requires Int64(seconds) && seconds >= -MAX_SAFE
    ensures Int64(instant + UNIX_TO_INTERNAL)
    ensures instant == seconds <==> seconds <= MAX_INT64 - UNIX_TO_INTERNAL
    ensures instant != seconds ==> instant < MIN_INT64
  {
    var sum := seconds + UNIX_TO_INTERNAL;
    (if sum > MAX_INT64 then sum - TWO_64 else sum) - UNIX_TO_INTERNAL
  }

  /** `reservationExpiry`: refused exactly when the configuration is negative or
      a sum would leave the int64 range; no intermediate sum ever does. */
  function ReservationExpiry(c: Config, issuedAt: int): (r: Result<int>)
    requires Int64(c.lifetime) && Int64(c.leeway) && -MAX_SAFE <= issuedAt <= MAX_SAFE
    ensures r.Ok? <==> c.lifetime >= 0 && c.leeway >= 0 && Int64(c.lifetime + c.leeway) && Int64(issuedAt + c.lifetime + c.leeway)
    ensures r.Ok? ==> r.value == UnixTime(issuedAt + c.lifetime + c.leeway)
  {
    if c.lifetime < 0 || c.leeway < 0 then Err
    else
      assert Int64(MAX_INT64 - c.leeway);
      if c.lifetime > MAX_INT64 - c.leeway then Err
      else
        var validity := c.lifetime + c.leeway;
        assert Int64(validity) && Int64(MAX_INT64 - validity);
        if issuedAt > MAX_INT64 - validity then Err
        else
          assert Int64(issuedAt + validity);
          Ok(UnixTime(issuedAt + validity))
  }

  type SafeInt = n: int | -MAX_SAFE <= n <= MAX_SAFE
  type Settings = c: Config | Int64(c.lifetime) && Int64(c.leeway) witness Config(0, 0)

  datatype Proof = Proof(key: string, jti: string, iat: SafeInt)

  /** The instant, in nanoseconds, from which a proof is no longer accepted. */
  function Deadline(c: Settings, p: Proof): Result<int> {
    var expiry :- ReservationExpiry(c, p.iat);
    Ok(expiry * NANOS)
  }

  predicate InWindow(c: Settings, p: Proof, now: int) {
    Deadline(c, p).Ok? && now < Deadline(c, p).value
  }

  predicate Timely(c: Settings, p: Proof, now: int) {
    && c.lifetime >= 0 && c.leeway >= 0 && c.lifetime + c.leeway <= MAX_INT64
    && p.iat + c.lifetime + c.leeway <= MAX_INT64 - UNIX_TO_INTERNAL
    && now < (p.iat + c.lifetime + c.leeway) * NANOS
  }

  /** For a clock within the int64 range, a proof is in its window exactly before
      the sum of its issue time, the lifetime and the leeway, unless that sum is
      too far in the future to be converted: then it never is. */
  lemma WindowExactly(c: Settings, p: Proof, now: int)
    requires now >= MIN_INT64 * NANOS
    ensures InWindow(c, p, now) <==> Timely(c, p, now)
  {
    var sum := p.iat + c.lifetime + c.leeway;
    if ReservationExpiry(c, p.iat).Ok? && sum > MAX_INT64 - UNIX_TO_INTERNAL {
      assert UnixTime(sum) < MIN_INT64;
    }
  }

  /** A lifetime without end lets no proof in: a fresh one is refused at once. */
  lemma EndlessLifetimeRefuses()
    ensures var c, p := Config(MAX_INT64 - 1, 0), Proof("k", "j", 1);
            ReservationExpiry(c, p.iat).Ok? && !InWindow(c, p, 1 * NANOS)
  {
    WindowExactly(Config(MAX_INT64 - 1, 0), Proof("k", "j", 1), 1 * NANOS);
  }

  // ----- the replay store -----

  datatype Purpose = DpopProof | OtherPurpose
  datatype Use = Use(id: string, issuer: string, purpose: Purpose)

  /** `store`: reservations and the instants they expire. */
  datatype State = State(now: int, store: map<Use, int>)

  /** How the consumer behaves on one call. */
  datatype Consumer = Works | FailsEarly | FailsLate

  datatype Event =
    | Tick(to: int)
    | Forget(use: Use)
    | Reserve(use: Use, expiresAt: int)
    | Present(proof: Proof, checksPass: bool, consumer: Consumer)

  function UseOf(p: Proof): Use {
    Use(p.jti, p.key, DpopProof)
  }

  /** The clock does not go back, a reservation is kept until it expires, and
      others reserve for their own purposes. */
  predicate Allowed(s: State, e: Event) {
    match e
    case Tick(to) => to >= s.now
    case Forget(use) => use in s.store ==> s.now >= s.store[use]
    case Reserve(use, _) => use.purpose != DpopProof
    case Present(_, _, _) => true
  }

  predicate Accepted(c: Settings, s: State, e: Event) {
    && e.Present? && e.checksPass && InWindow(c, e.proof, s.now)
    && UseOf(e.proof) !in s.store && e.consumer.Works?
  }

  function Step(c: Settings, s: State, e: Event): State {
    match e
    case Tick(to) => s.(now := to)
    case Forget(use) => s.(store := s.store - {use})
    case Reserve(use, expiresAt) => if use in s.store then s else s.(store := s.store[use := expiresAt])
    case Present(p, checksPass, consumer) =>
      if checksPass && InWindow(c, p, s.now) && UseOf(p) !in s.store && !consumer.FailsEarly? then
        s.(store := s.store[UseOf(p) := Deadline(c, p).value])
      else s
  }

  function After(c: Settings, s: State, events: seq<Event>): State {
    if events == [] then s else Step(c, After(c, s, events[..|events| - 1]), events[|events| - 1])
  }

  predicate AllowedRun(c: Settings, s: State, events: seq<Event>) {
    forall i :: 0 <= i < |events| ==> Allowed(After(c, s, events[..i]), events[i])
  }

  /** A reservation is in place, or its time is over. */
  predicate Guarded(s: State, use: Use, until: int) {
    s.now >= until || (use in s.store && s.store[use] == until)
  }

  lemma StepKeepsGuard(c: Settings, s: State, e: Event, use: Use, until: int)
    requires Allowed(s, e) && Guarded(s, use, until)
    ensures Guarded(Step(c, s, e), use, until)
  {
  }

  lemma {:induction false} GuardLasts(c: Settings, s: State, events: seq<Event>, i: nat, j: nat, use: Use, until: int)
    requires AllowedRun(c, s, events) && i <= j <= |events|
    requires Guarded(After(c, s, events[..i]), use, until)
    ensures Guarded(After(c, s, events[..j]), use, until)
    decreases j
  {
    if i < j {
      GuardLasts(c, s, events, i, j - 1, use, until);
      assert events[..j][..j - 1] == events[..j - 1];
      StepKeepsGuard(c, After(c, s, events[..j - 1]), events[j - 1], use, until);
    }
  }

  /** In every run, from any state: once a proof has been accepted, no proof
      with the same key and jti is accepted before the first one's deadline. */
  lemma NoEarlyReplay(c: Settings, s: State, events: seq<Event>, i: nat, j: nat)
    requires AllowedRun(c, s, events) && i < j < |events|
    requires Accepted(c, After(c, s, events[..i]), events[i]) && Accepted(c, After(c, s, events[..j]), events[j])
    requires events[i].proof.key == events[j].proof.key && events[i].proof.jti == events[j].proof.jti
    ensures After(c, s, events[..j]).now >= Deadline(c, events[i].proof).value
  {
    var before := After(c, s, events[..i]);
    var until := Deadline(c, events[i].proof).value;
    assert events[..i + 1][..i] == events[..i];
    assert After(c, s, events[..i + 1]) == Step(c, before, events[i]);
    GuardLasts(c, s, events, i + 1, j, UseOf(events[i].proof), until);
  }

  /** No proof is accepted twice in any run. */
  lemma NoReplay(c: Settings, s: State, events: seq<Event>, i: nat, j: nat)
    requires AllowedRun(c, s, events) && i < j < |events|
    requires events[i].Present? && events[j].Present? && events[i].proof == events[j].proof
    ensures !(Accepted(c, After(c, s, events[..i]), events[i]) && Accepted(c, After(c, s, events[..j]), events[j]))
  {
    if Accepted(c, After(c, s, events[..i]), events[i]) && Accepted(c, After(c, s, events[..j]), events[j]) {
      NoEarlyReplay(c, s, events, i, j);
    }
  }

  // ----- acceptance over runs -----

  /** Event `i` presents a proof with this key and jti, in time, that passes the
      checks and reaches the consumer's store. */
  predicate Spends(c: Settings, s: State, events: seq<Event>, i: nat, key: string, jti: string)
    requires i < |events|
  {
    && events[i].Present? && events[i].proof.key == key && events[i].proof.jti == jti
    && events[i].checksPass && events[i].consumer != FailsEarly
    && Timely(c, events[i].proof, After(c, s, events[..i]).now)
  }

  /** Key and jti were spent before event `j`, and not forgotten since. */
  predicate Spent(c: Settings, s: State, events: seq<Event>, j: nat, key: string, jti: string)
    requires j <= |events|
  {
    exists i :: 0 <= i < j && Spends(c, s, events, i, key, jti) && Kept(events, i, j, key, jti)
  }

  predicate Kept(events: seq<Event>, i: nat, j: nat, key: string, jti: string)
    requires i < j <= |events|
  {
    forall k :: i < k < j ==> events[k] != Forget(Use(jti, key, DpopProof))
  }

  lemma SpentLater(c: Settings, s: State, events: seq<Event>, j: nat, key: string, jti: string)
    requires 0 < j <= |events|
    ensures Spent(c, s, events, j, key, jti) <==>
            || Spends(c, s, events, j - 1, key, jti)
            || (Spent(c, s, events, j - 1, key, jti) && events[j - 1] != Forget(Use(jti, key, DpopProof)))
  {
    hide Spends;
    if i :| 0 <= i < j && Spends(c, s, events, i, key, jti) && Kept(events, i, j, key, jti) {
      if i < j - 1 { assert Kept(events, i, j - 1, key, jti); }
    }
    if Spends(c, s, events, j - 1, key, jti) { assert Kept(events, j - 1, j, key, jti); }
    if i :| 0 <= i < j - 1 && Spends(c, s, events, i, key, jti) && Kept(events, i, j - 1, key, jti)
            && events[j - 1] != Forget(Use(jti, key, DpopProof)) {
      assert Kept(events, i, j, key, jti);
    }
  }

  lemma {:induction false} ClockAdvances(c: Settings, s: State, events: seq<Event>, j: nat)
    requires AllowedRun(c, s, events) && j <= |events|
    ensures After(c, s, events[..j]).now >= s.now
  {
    if j > 0 {
      ClockAdvances(c, s, events, j - 1);
      assert events[..j][..j - 1] == events[..j - 1];
      assert Allowed(After(c, s, events[..j - 1]), events[j - 1]);
    }
  }

  lemma NothingSpent(c: Settings, s: State, events: seq<Event>, key: string, jti: string)
    ensures !Spent(c, s, events, 0, key, jti)
  {
  }

  /** What the store holds in any run: a key and jti are reserved exactly when they
      have been spent. Proofs with another key or another jti play no part. */
  lemma {:induction false} ReservedExactly(c: Settings, s: State, events: seq<Event>, j: nat, key: string, jti: string)
    requires AllowedRun(c, s, events) && j <= |events| && s.now >= MIN_INT64 * NANOS
    requires Use(jti, key, DpopProof) !in s.store
    ensures Use(jti, key, DpopProof) in After(c, s, events[..j]).store <==> Spent(c, s, events, j, key, jti)
  {
    hide InWindow, Deadline, Timely, Spent;
    var use := Use(jti, key, DpopProof);
    if j == 0 {
      NothingSpent(c, s, events, key, jti);
    } else {
      var before, e := After(c, s, events[..j - 1]), events[j - 1];
      ReservedExactly(c, s, events, j - 1, key, jti);
      ClockAdvances(c, s, events, j - 1);
      assert events[..j][..j - 1] == events[..j - 1];
      assert Allowed(before, e);
      if e.Present? { WindowExactly(c, e.proof, before.now); }
      SpentLater(c, s, events, j, key, jti);
      assert use in Step(c, before, e).store <==>
             Spends(c, s, events, j - 1, key, jti) || (use in before.store && e != Forget(use));
    }
  }

  /** A proof is accepted in a run exactly when it passes the checks, is in time,
      the consumer works, and its key and jti have not been spent. */
  lemma AcceptedExactly(c: Settings, s: State, events: seq<Event>, j: nat)
    requires AllowedRun(c, s, events) && j < |events| && events[j].Present?
    requires s.now >= MIN_INT64 * NANOS && s.store == map[]
    ensures var e := events[j];
            Accepted(c, After(c, s, events[..j]), e) <==>
            && e.checksPass && e.consumer == Works && Timely(c, e.proof, After(c, s, events[..j]).now)
            && !Spent(c, s, events, j, e.proof.key, e.proof.jti)
  {
    hide InWindow, Timely;
    var p := events[j].proof;
    ReservedExactly(c, s, events, j, p.key, p.jti);
    ClockAdvances(c, s, events, j);
    WindowExactly(c, p, After(c, s, events[..j]).now);
  }

  /** The reservation ends exactly when acceptance does: from any instant on, it
      may be forgotten if and only if its proof would be refused anyway. */
  lemma ReservationMatchesWindow(c: Settings, s: State, e: Event, later: int)
    requires Accepted(c, s, e)
    ensures var t := Step(c, s, e).(now := later);
            Allowed(t, Forget(UseOf(e.proof))) <==> !InWindow(c, e.proof, later)
  {
  }

  /** Forgetting a live reservation, at any instant before its expiry, lets the
      same proof in again at once. */
  lemma EarlyForgetReplays(c: Settings, s: State, e: Event, later: int)
    requires Accepted(c, s, e) && s.now <= later
    ensures var t := Step(c, s, e).(now := later);
            !Allowed(t, Forget(UseOf(e.proof))) <==> Accepted(c, Step(c, t, Forget(UseOf(e.proof))), e)
  {
  }

  // ----- the validating code -----

  class ReplayGuard {
    const config: Settings
    var now: int
    var store: map<Use, int>

    ghost function Current(): State
      reads this
    {
      State(now, store)
    }

    constructor (c: Settings, start: int)
      ensures config == c && Current() == State(start, map[])
    {
      config, now, store := c, start, map[];
    }

    /** `ValidateJWT` from the window check to the reservation. */
    method Validate(p: Proof, checksPass: bool, consumer: Consumer) returns (ok: bool)
      modifies this`store
      ensures ok <==> Accepted(config, old(Current()), Present(p, checksPass, consumer))
      ensures Current() == Step(config, old(Current()), Present(p, checksPass, consumer))
    {
      var acceptedUntil := ReservationExpiry(config, p.iat);
      if acceptedUntil.Err? {
        return false;
      }
      if !(now < acceptedUntil.value * NANOS) {
        return false;
      }
      if !checksPass {
        return false;
      }
      ok := ReserveJTI(UseOf(p), acceptedUntil.value * NANOS, consumer);
    }

    /** `ReserveJTI` with a typed consumer: any error is a refusal. */
    method ReserveJTI(use: Use, expiresAt: int, consumer: Consumer) returns (ok: bool)
      modifies this`store
      ensures ok <==> use !in old(store) && consumer.Works?
      ensures store == if use in old(store) || consumer.FailsEarly? then old(store) else old(store)[use := expiresAt]
    {
      if consumer.FailsEarly? || use in store {
        return false;
      }
      store := store[use := expiresAt];
      return consumer.Works?;
    }
  }
}
