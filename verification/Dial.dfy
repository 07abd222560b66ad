/** Guarded dialling of a request_uri host: which addresses are dialled, and how
    the time left is shared among the attempts. */
module Dial {
  import opened Wrappers
  import opened Lists

  datatype Family = V4 | V6 | V4In6
  datatype Addr = Addr(bits: nat, family: Family)

  /** `resolveJARNetworkTarget` after the lookup: one prohibited address refuses
      the host; otherwise the distinct addresses are kept in order. */
  method ValidateAddresses(addresses: seq<Addr>, allow: Addr -> bool) returns (r: Result<seq<Addr>>)
    ensures r.Ok? <==> addresses != [] && forall a :: a in addresses ==> a.family != V4In6 && allow(a)
    ensures r.Ok? ==> r.value == Dedup(addresses) && NoRepeats(r.value) && Members(r.value) == Members(addresses)
  {
    var seen: set<Addr> := {};
    var validated: seq<Addr> := [];
    for i := 0 to |addresses|
      invariant seen == Members(validated)
      invariant validated == Dedup(addresses[..i])
      invariant forall j :: 0 <= j < i ==> addresses[j].family != V4In6 && allow(addresses[j])
    {
      var address := addresses[i];
      if address.family == V4In6 || !allow(address) {
        return Err;
      }
      DedupOntoAppend([], addresses[..i], [address]);
      assert addresses[..i + 1] == addresses[..i] + [address];
      assert [address][1..] == [];
      if address in seen {
        continue;
      }
      seen := seen + {address};
      validated := validated + [address];
    }
    assert addresses[..|addresses|] == addresses;
    DedupFacts(addresses);
    if addresses != [] {
      assert addresses[0] in Members(addresses);
    }
    if |validated| == 0 {
      return Err;
    }
    return Ok(validated);
  }

  datatype Network = AnyFamily | Only4 | Only6

  predicate Eligible(a: Addr, network: Network, allow: Addr -> bool) {
    allow(a) && (network.Only4? ==> a.family == V4) && (network.Only6? ==> a.family != V4)
  }

  /** An address the network does not ask for. */
  predicate WrongFamily(a: Addr, network: Network) {
    match network
    case AnyFamily => false
    case Only4 => a.family == V6 || a.family == V4In6
    case Only6 => a.family == V4
  }

  function EligibleOnly(addresses: seq<Addr>, network: Network, allow: Addr -> bool): (r: seq<Addr>)
    ensures |r| <= |addresses|
  {
    if addresses == [] then []
    else
      var last := addresses[|addresses| - 1];
      EligibleOnly(addresses[..|addresses| - 1], network, allow) + (if Eligible(last, network, allow) then [last] else [])
  }

  lemma {:induction false} EligibleMembers(addresses: seq<Addr>, network: Network, allow: Addr -> bool, a: Addr)
    ensures a in EligibleOnly(addresses, network, allow) <==> a in addresses && Eligible(a, network, allow)
  {
    if addresses != [] {
      EligibleMembers(addresses[..|addresses| - 1], network, allow, a);
      assert addresses == addresses[..|addresses| - 1] + [addresses[|addresses| - 1]];
    }
  }

  /** They are picked from the list in its order: at increasing positions, which
      are exactly those of an allowed address of a wanted family. */
  lemma {:induction false} EligibleInOrder(addresses: seq<Addr>, network: Network, allow: Addr -> bool) returns (at: seq<nat>)
    ensures |at| == |EligibleOnly(addresses, network, allow)|
    ensures forall i :: 0 <= i < |at| ==> at[i] < |addresses| && EligibleOnly(addresses, network, allow)[i] == addresses[at[i]]
    ensures forall i, j :: 0 <= i < j < |at| ==> at[i] < at[j]
    ensures forall k :: 0 <= k < |addresses| ==>
              (k in at <==> allow(addresses[k]) && (network == Only4 ==> addresses[k].family == V4)
                            && (network == Only6 ==> addresses[k].family != V4))
  {
    if addresses == [] {
      return [];
    }
    var n, front := |addresses| - 1, addresses[..|addresses| - 1];
    assert forall k :: 0 <= k < n ==> front[k] == addresses[k];
    var before := EligibleInOrder(front, network, allow);
    assert forall i :: 0 <= i < |before| ==> before[i] < n;
    if Eligible(addresses[n], network, allow) {
      at := before + [n];
      assert forall k :: k in at <==> k in before || k == n;
    } else {
      at := before;
    }
  }

  /** What happens around one attempt: whether the caller has given up before it,
      how much time passes until the next share is computed, and whether it
      connects. */
  datatype Circumstance = Circumstance(cancelled: bool, elapsed: nat, connects: bool)

  /** One attempt that was made. */
  datatype Attempt = Attempt(address: Addr, share: nat, elapsed: nat)

  datatype Outcome = Connected(address: Addr) | Stopped | AllFailed | Prohibited

  function Spent(log: seq<Attempt>): nat {
    if log == [] then 0 else Spent(log[..|log| - 1]) + log[|log| - 1].elapsed
  }

  /** No attempt so far took longer than its share. */
  predicate OnTime(log: seq<Attempt>) {
    forall i :: 0 <= i < |log| ==> log[i].elapsed <= log[i].share
  }

  /** The fairness promise for `total` time when each attempt is due `least`. */
  predicate Fair(log: seq<Attempt>, total: int, least: int) {
    && (forall i :: 0 <= i < |log| ==> log[i].share >= least)
    && (forall i, j :: 0 <= i <= j < |log| ==> log[i].share <= log[j].share)
    && Spent(log) <= total
  }

  /** Taking at most a share of what is left keeps every later share as large. */
  lemma ShareGrows(left: nat, k: nat, elapsed: nat)
    requires k > 1 && elapsed <= left / k
    ensures elapsed <= left && (left - elapsed) / (k - 1) >= left / k
  {
    var q := left / k;
    DivisionBounds(left, k);
    var product := k * q;
    assert product == (k - 1) * q + q;
    QuotientAtLeast(left - elapsed, k - 1, q);
  }

  lemma DivisionBounds(x: nat, d: nat)
    requires d > 0
    ensures d * (x / d) <= x && x / d <= x
  {
    var q := x / d;
    assert x == d * q + x % d;
    MulMonotone(q, 1, d);
  }

  lemma QuotientAtLeast(x: nat, d: nat, q: nat)
    requires d > 0 && x >= d * q
    ensures x / d >= q
  {
    var p := x / d;
    assert x == d * p + x % d;
    assert d * (p + 1) == d * p + d;
    MulMonotone(d, p + 1, q);
  }

  lemma MulMonotone(d: nat, a: nat, b: nat)
    ensures a <= b ==> d * a <= d * b
  {
    if a <= b {
      assert d * b == d * a + d * (b - a);
    }
  }

  /** How the attempts made so far relate to the time left. */
  predicate Progress(log: seq<Attempt>, total: int, n: nat, left: int) {
    && |log| <= n && left == total - Spent(log)
    && (OnTime(log) && total >= 0 && n > 0 ==>
          && left >= 0 && Fair(log, total, total / n)
          && (|log| < n ==>
                && left / (n - |log|) >= total / n
                && (log != [] ==> left / (n - |log|) >= log[|log| - 1].share)))
  }

  lemma ProgressStep(log: seq<Attempt>, total: int, n: nat, left: int, a: Attempt)
    requires Progress(log, total, n, left) && |log| < n && left > 0
    requires a.share == left / (n - |log|)
    ensures Progress(log + [a], total, n, left - a.elapsed)
  {
    var longer := log + [a];
    assert longer[..|longer| - 1] == log;
    if OnTime(longer) && total >= 0 {
      assert longer[|log|] == a;
      assert forall j :: 0 <= j < |log| ==> longer[j] == log[j];
      DivisionBounds(left, n - |log|);
      FairExtends(log, a, total, total / n);
      if |longer| < n {
        ShareGrows(left, n - |log|, a.elapsed);
      }
    }
  }

  method FilterEligible(addresses: seq<Addr>, network: Network, allow: Addr -> bool) returns (eligible: seq<Addr>)
    ensures eligible == EligibleOnly(addresses, network, allow)
  {
    eligible := [];
    for i := 0 to |addresses|
      invariant eligible == EligibleOnly(addresses[..i], network, allow)
    {
      assert addresses[..i + 1][..i] == addresses[..i];
      if Eligible(addresses[i], network, allow) {
        eligible := eligible + [addresses[i]];
      }
    }
    assert addresses[..|addresses|] == addresses;
  }

  /** What the attempts on `eligible` come to. */
  predicate Tried(eligible: seq<Addr>, total: int, world: seq<Circumstance>, r: Outcome, log: seq<Attempt>)
    requires |world| >= |eligible|
  {
    && |log| <= |eligible|
    && (forall i :: 0 <= i < |log| ==> log[i].address == eligible[i] && log[i].elapsed == world[i].elapsed)
    && (forall i :: 0 <= i < |log| && !(r.Connected? && i == |log| - 1) ==> !world[i].connects)
    && match r
       case Connected(a) => log != [] && log[|log| - 1].address == a && world[|log| - 1].connects
       case Stopped => |log| < |eligible| && (world[|log|].cancelled || Spent(log) >= total)
       case AllFailed => eligible != [] && |log| == |eligible|
       case Prohibited => eligible == []
  }

  const MAX_NETWORK_TIMEOUT := 30_000_000_000

  /** Nanoseconds until the caller's deadline, if there is one, but never more
      than the network timeout. */
  function TimeLeft(deadline: Option<int>): (t: int)
    ensures t <= MAX_NETWORK_TIMEOUT && (deadline.Some? ==> t <= deadline.value)
    ensures t == MAX_NETWORK_TIMEOUT || deadline == Some(t)
  {
    if deadline.Some? && deadline.value < MAX_NETWORK_TIMEOUT then deadline.value else MAX_NETWORK_TIMEOUT
  }

  /** `dialJARNetworkTarget`: filter, then try the eligible addresses in order,
      each with an equal part of the time left for it and those after it. Only
      allowed addresses are dialled. If no attempt overruns its share, every
      attempt gets at least an equal part of the total, shares never shrink and
      the total is never exceeded. */
  method DialTarget(addresses: seq<Addr>, network: Network, allow: Addr -> bool, deadline: Option<int>, world: seq<Circumstance>)
    returns (r: Outcome, log: seq<Attempt>)
    requires |world| >= |addresses|
    ensures var total := TimeLeft(deadline);
            var eligible := EligibleOnly(addresses, network, allow);
            && Tried(eligible, total, world, r, log)
            && (eligible != [] && total >= 0 && OnTime(log) ==> Fair(log, total, total / |eligible|))
            && (forall i :: 0 <= i < |log| ==>
                  && log[i].address in addresses && allow(log[i].address)
                  && (network == Only4 ==> log[i].address.family == V4) && (network == Only6 ==> log[i].address.family != V4))
            && (r.Prohibited? <==> forall a :: a in addresses ==> !allow(a) || WrongFamily(a, network))
  {
    hide Fair, OnTime, Tried;
    var eligible := FilterEligible(addresses, network, allow);
    var total := TimeLeft(deadline);
    r, log := DialEach(eligible, total, world);
    TriedOnly(addresses, network, allow, total, world, r, log);
  }

  lemma TriedOnly(addresses: seq<Addr>, network: Network, allow: Addr -> bool, total: int, world: seq<Circumstance>,
                  r: Outcome, log: seq<Attempt>)
    requires |world| >= |addresses| && Tried(EligibleOnly(addresses, network, allow), total, world, r, log)
    ensures forall i :: 0 <= i < |log| ==> log[i].address in addresses && Eligible(log[i].address, network, allow)
    ensures r.Prohibited? <==> forall a :: a in addresses ==> !allow(a) || WrongFamily(a, network)
  {
    var eligible := EligibleOnly(addresses, network, allow);
    forall a ensures a in eligible <==> a in addresses && allow(a) && !WrongFamily(a, network) {
      EligibleMembers(addresses, network, allow, a);
    }
    assert eligible != [] ==> eligible[0] in eligible;
    forall i | 0 <= i < |log| ensures log[i].address in addresses && Eligible(log[i].address, network, allow) {
      EligibleMembers(addresses, network, allow, log[i].address);
    }
  }

  method DialEach(eligible: seq<Addr>, total: int, world: seq<Circumstance>) returns (r: Outcome, log: seq<Attempt>)
    requires |world| >= |eligible|
    ensures Tried(eligible, total, world, r, log)
    ensures eligible != [] && total >= 0 && OnTime(log) ==> Fair(log, total, total / |eligible|)
  {
    hide Progress, Fair, OnTime;
    var n := |eligible|;
    log := [];
    var left := total;
    ProgressStart(total, n);
    for i := 0 to n
      invariant |log| == i
      invariant forall j :: 0 <= j < i ==> log[j].address == eligible[j] && log[j].elapsed == world[j].elapsed && !world[j].connects
      invariant Progress(log, total, n, left)
    {
      ProgressMeans(log, total, n, left);
      if world[i].cancelled || left <= 0 {
        return Stopped, log;
      }
      var attempt := Attempt(eligible[i], left / (n - i), world[i].elapsed);
      ProgressStep(log, total, n, left, attempt);
      log := log + [attempt];
      left := left - world[i].elapsed;
      if world[i].connects {
        ProgressMeans(log, total, n, left);
        return Connected(eligible[i]), log;
      }
    }
    ProgressMeans(log, total, n, left);
    if n == 0 {
      return Prohibited, log;
    }
    return AllFailed, log;
  }

  lemma ProgressStart(total: int, n: nat)
    ensures Progress([], total, n, total)
  {
  }

  lemma ProgressMeans(log: seq<Attempt>, total: int, n: nat, left: int)
    requires Progress(log, total, n, left)
    ensures left == total - Spent(log)
    ensures n > 0 && total >= 0 && OnTime(log) ==> Fair(log, total, total / n)
  {
  }

  lemma FairExtends(log: seq<Attempt>, a: Attempt, total: int, least: int)
    requires Fair(log, total, least) && a.share >= least
    requires log != [] ==> log[|log| - 1].share <= a.share
    requires Spent(log) + a.elapsed <= total
    ensures Fair(log + [a], total, least)
  {
    var longer := log + [a];
    assert longer[..|longer| - 1] == log;
    forall i, j | 0 <= i <= j < |longer| ensures longer[i].share <= longer[j].share {
      if j == |log| && i < |log| {
        assert log[i].share <= log[|log| - 1].share;
      }
    }
  }
}
