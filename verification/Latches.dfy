/** The two request-local evidence latches. Each mutex-guarded section is one
    atomic step, so a run is any interleaving of steps. */
module Latches {
  import opened Wrappers

  // ----- token endpoint evidence -----

  /** What the callback is given. */
  datatype Report = Report(result: int, clientId: string)

  /** `fired`: the reports the callback was given, in order. */
  datatype Evidence = Evidence(clientId: string, invalid: bool, emitted: bool, fired: seq<Report>)

  datatype Step = Mark(id: string) | Emit(result: int)

  const FRESH_EVIDENCE := Evidence("", false, false, [])

  const ISSUED := 1
  const SERVER_ERROR := 9
  const PROTOCOL_DENIED := 10

  /** Results are numbered from issued to denied by the protocol; anything else
      is reported as a server error. */
  function Reported(result: int): int {
    if ISSUED <= result <= PROTOCOL_DENIED then result else SERVER_ERROR
  }

  /** Marks that agree on one client name it; anything else names nobody. */
  function Attribution(marked: set<string>): string {
    if exists id :: id in marked && marked == {id} then
      var id :| id in marked && marked == {id}; id
    else ""
  }

  /** The latch after exactly the identifiers in `marked` were marked and, if
      there was a report, after it was made. */
  ghost predicate Summarises(s: Evidence, marked: set<string>, report: Option<Report>) {
    && s.clientId == Attribution(marked)
    && (s.invalid <==> marked != {} && Attribution(marked) == "")
    && (s.emitted <==> report.Some?)
    && s.fired == (if report.Some? then [report.value] else [])
  }

  class TokenEndpointEvidence {
    var authenticatedClientID: string
    var attributionInvalid: bool
    var emitted: bool
    var fired: seq<Report>

    ghost function Current(): Evidence
      reads this
    {
      Evidence(authenticatedClientID, attributionInvalid, emitted, fired)
    }

    constructor ()
      ensures Current() == FRESH_EVIDENCE && Summarises(Current(), {}, None)
    {
      authenticatedClientID, attributionInvalid, emitted, fired := "", false, false, [];
    }

    /** `MarkTokenEndpointClientAuthenticated`: the latch takes in one more
        identifier, unless the report has been made. */
    method MarkClientAuthenticated(id: string, ghost marked: set<string>, ghost report: Option<Report>)
      requires Summarises(Current(), marked, report)
      modifies this
      ensures Summarises(Current(), if report.Some? then marked else marked + {id}, report)
      ensures report.Some? ==> Current() == old(Current())
    {
      AttributionGrows(marked, id);
      if emitted || attributionInvalid {
        return;
      }
      if id == "" {
        authenticatedClientID := "";
        attributionInvalid := true;
        return;
      }
      if authenticatedClientID == "" {
        authenticatedClientID := id;
        return;
      }
      if authenticatedClientID != id {
        authenticatedClientID := "";
        attributionInvalid := true;
      }
    }

    /** `EmitTokenEndpointEvidence`: the first report names the client that all
        marks agree on. */
    method Emit(result: int, ghost marked: set<string>, ghost report: Option<Report>)
      requires Summarises(Current(), marked, report)
      modifies this
      ensures Summarises(Current(), marked,
                if report.Some? then report else Some(Report(Reported(result), Attribution(marked))))
    {
      var reported := result;
      if result < ISSUED || result > PROTOCOL_DENIED {
        reported := SERVER_ERROR;
      }
      if emitted {
        return;
      }
      emitted := true;
      var id := authenticatedClientID;
      if attributionInvalid {
        id := "";
      }
      fired := fired + [Report(reported, id)];
    }
  }

  // ----- every interleaving -----

  function EvidenceStep(s: Evidence, e: Step): Evidence {
    match e
    case Mark(id) =>
      if s.emitted || s.invalid then s
      else if id == "" then s.(clientId := "", invalid := true)
      else if s.clientId == "" then s.(clientId := id)
      else if s.clientId != id then s.(clientId := "", invalid := true)
      else s
    case Emit(result) =>
      if s.emitted then s
      else s.(emitted := true, fired := s.fired + [Report(Reported(result), if s.invalid then "" else s.clientId)])
  }

  function RunEvidence(s: Evidence, steps: seq<Step>): Evidence {
    if steps == [] then s
    else EvidenceStep(RunEvidence(s, steps[..|steps| - 1]), steps[|steps| - 1])
  }

  /** The identifiers marked before the first emission. */
  function MarkedBefore(steps: seq<Step>): set<string> {
    if steps == [] || steps[0].Emit? then {}
    else {steps[0].id} + MarkedBefore(steps[1..])
  }

  /** The result of the first emission. */
  function FirstResult(steps: seq<Step>): Option<int> {
    if steps == [] then None
    else if steps[0].Emit? then Some(steps[0].result)
    else FirstResult(steps[1..])
  }

  lemma AttributionOfOne(id: string)
    ensures Attribution({id}) == id
  {
  }

  lemma AttributionGrows(marked: set<string>, id: string)
    ensures marked == {} ==> Attribution(marked + {id}) == id
    ensures marked != {} && Attribution(marked) == "" ==> Attribution(marked + {id}) == ""
    ensures Attribution(marked) != "" ==>
              marked == {Attribution(marked)} && Attribution(marked + {id}) == if id == Attribution(marked) then id else ""
  {
    AttributionOfOne(id);
    if marked == {} {
      assert marked + {id} == {id};
    } else if Attribution(marked) != "" {
      var a := Attribution(marked);
      assert marked == {a};
      if id == a {
        assert marked + {id} == {a};
        AttributionOfOne(a);
      } else {
        forall x | x in marked + {id} ensures marked + {id} != {x} {
          assert a in marked + {id} && id in marked + {id};
        }
      }
    } else if x :| x in marked && marked == {x} {
      AttributionOfOne(x);
      assert x == "";
      if id != "" {
        forall y | y in marked + {id} ensures marked + {id} != {y} {
          assert "" in marked + {id} && id in marked + {id};
        }
      } else {
        assert marked + {id} == {""};
      }
    } else {
      TwoMembers(marked, marked + {id});
    }
  }

  lemma MarkSummarises(s: Evidence, marked: set<string>, id: string)
    requires Summarises(s, marked, None)
    ensures Summarises(EvidenceStep(s, Mark(id)), marked + {id}, None)
  {
    AttributionGrows(marked, id);
  }

  /** In any interleaving the callback fires once if anyone emits and never
      otherwise, with the first result and the one identifier marked before it,
      or none if the marks disagree or name nobody. */
  lemma {:induction false} EvidenceFiresOnce(s: Evidence, marked: set<string>, steps: seq<Step>)
    requires Summarises(s, marked, None)
    ensures RunEvidence(s, steps).fired ==
            match FirstResult(steps)
            case None => []
            case Some(result) => [Report(Reported(result), Attribution(marked + MarkedBefore(steps)))]
    decreases |steps|
  {
    if steps != [] {
      RunSplits(s, steps);
      var t := EvidenceStep(s, steps[0]);
      if steps[0].Emit? {
        EmittedStays(t, steps[1..]);
        assert marked + MarkedBefore(steps) == marked;
      } else {
        MarkSummarises(s, marked, steps[0].id);
        EvidenceFiresOnce(t, marked + {steps[0].id}, steps[1..]);
        assert marked + {steps[0].id} + MarkedBefore(steps[1..]) == marked + MarkedBefore(steps);
      }
    }
  }

  lemma {:induction false} RunSplits(s: Evidence, steps: seq<Step>)
    requires steps != []
    ensures RunEvidence(s, steps) == RunEvidence(EvidenceStep(s, steps[0]), steps[1..])
    decreases |steps|
  {
    if |steps| > 1 {
      var front := steps[..|steps| - 1];
      RunSplits(s, front);
      assert steps[1..][..|steps| - 2] == front[1..];
    }
  }

  lemma {:induction false} EmittedStays(s: Evidence, steps: seq<Step>)
    requires s.emitted
    ensures RunEvidence(s, steps) == s
    decreases |steps|
  {
    if steps != [] {
      EmittedStays(s, steps[..|steps| - 1]);
    }
  }

  /** The run of a whole request, from a fresh latch. */
  lemma CallbackAtMostOnce(steps: seq<Step>)
    ensures RunEvidence(FRESH_EVIDENCE, steps).fired ==
            match FirstResult(steps)
            case None => []
            case Some(result) => [Report(Reported(result), Attribution(MarkedBefore(steps)))]
    ensures FirstResult(steps).Some? ==>
              var x, fired := FirstResult(steps).value, RunEvidence(FRESH_EVIDENCE, steps).fired;
              && |fired| == 1 && fired[0].result == (if 1 <= x <= 10 then x else 9)
              && (forall id :: MarkedBefore(steps) == {id} ==> fired[0].clientId == id)
              && ((forall id :: id in MarkedBefore(steps) ==> MarkedBefore(steps) != {id}) ==> fired[0].clientId == "")
  {
    EvidenceFiresOnce(FRESH_EVIDENCE, {}, steps);
    assert {} + MarkedBefore(steps) == MarkedBefore(steps);
    forall id | MarkedBefore(steps) == {id} ensures Attribution(MarkedBefore(steps)) == id {
      AttributionOfOne(id);
    }
  }

  // ----- client assertion authority -----

  datatype Authority = Authority(revision: int, keyAuthorityId: string)
  datatype Record = Record(clientId: string, authority: Authority)

  datatype Latch = Unrecorded | Recorded(value: Record) | Conflict

  /** What has been recorded so far, as a set, determines the latch. */
  function LatchOf(values: set<Record>): Latch {
    if values == {} then Unrecorded
    else if exists r :: r in values && values == {r} then
      var r :| r in values && values == {r}; Recorded(r)
    else Conflict
  }

  class ClientAssertionState {
    var authenticatedClientID: string
    var authority: Option<Authority>
    var recorded: bool
    var invalid: bool

    ghost predicate Valid()
      reads this
    {
      (invalid ==> authority.None?) && (!invalid ==> (recorded <==> authority.Some?))
    }

    ghost function Current(): Latch
      requires Valid()
      reads this
    {
      if invalid then Conflict
      else if recorded then Recorded(Record(authenticatedClientID, authority.value))
      else Unrecorded
    }

    constructor ()
      ensures Valid() && Current() == Unrecorded
    {
      authenticatedClientID, authority, recorded, invalid := "", None, false, false;
    }

    /** `RecordClientAssertionAuthority`, inside an authentication scope. */
    method RecordAuthority(clientID: string, captured: Authority, ghost values: set<Record>)
      requires Valid() && Current() == LatchOf(values)
      modifies this
      ensures Valid() && Current() == LatchOf(values + {Record(clientID, captured)})
    {
      LatchGrows(values, Record(clientID, captured));
      if invalid {
        return;
      }
      if recorded {
        if authority.None? || authenticatedClientID != clientID || authority.value != captured {
          authenticatedClientID := "";
          authority := None;
          invalid := true;
        }
        return;
      }
      authenticatedClientID := clientID;
      authority := Some(captured);
      recorded := true;
    }

    /** `ClientAssertionAuthority`: evidence is returned only for the client it
        was recorded for, and only when the client expects it. */
    method AuthorityFor(clientID: string, expects: bool) returns (r: Result<Option<Authority>>)
      requires Valid()
      ensures r.Ok? && r.value.Some? <==>
              && expects && Current().Recorded? && Current().value.clientId == clientID
              && Current().value.authority.revision > 0 && Current().value.authority.keyAuthorityId != ""
      ensures r.Ok? && r.value.Some? ==> r.value.value == Current().value.authority
      ensures r == Ok(None) <==> !expects && Current().Unrecorded?
    {
      if invalid {
        return Err;
      }
      if authority.None? {
        return if expects then Err else Ok(None);
      }
      if !expects || authenticatedClientID != clientID {
        return Err;
      }
      if authority.value.revision <= 0 || authority.value.keyAuthorityId == "" {
        return Err;
      }
      return Ok(authority);
    }
  }

  function RecordStep(s: Latch, r: Record): Latch {
    match s
    case Unrecorded => Recorded(r)
    case Recorded(v) => if v == r then s else Conflict
    case Conflict => Conflict
  }

  function RunRecords(records: seq<Record>): Latch {
    if records == [] then Unrecorded
    else RecordStep(RunRecords(records[..|records| - 1]), records[|records| - 1])
  }

  lemma LatchOfNothing()
    ensures LatchOf({}) == Unrecorded
  {
  }

  lemma LatchOfOne(r: Record)
    ensures LatchOf({r}) == Recorded(r)
  {
  }

  lemma LatchGrows(values: set<Record>, r: Record)
    ensures LatchOf(values + {r}) == RecordStep(LatchOf(values), r)
  {
    LatchOfOne(r);
    if values == {} {
      assert values + {r} == {r};
    } else if v :| v in values && values == {v} {
      LatchOfOne(v);
      if v == r {
        assert values + {r} == {r};
      } else {
        forall x | x in values + {r} ensures values + {r} != {x} {
          assert v in values + {r} && r in values + {r};
        }
      }
    } else {
      TwoMembers(values, values + {r});
    }
  }

  /** A set that is neither empty nor a singleton is not contained in one. */
  lemma TwoMembers<T>(small: set<T>, large: set<T>)
    requires small != {} && small <= large && forall x :: x in small ==> small != {x}
    ensures forall x :: x in large ==> large != {x}
  {
    var a :| a in small;
    assert small == (small - {a}) + {a};
    var b :| b in small - {a};
    forall x | x in large ensures large != {x} {
      assert a in large && b in large;
    }
  }

  /** The final state depends only on the set of recorded values: not on their
      order, nor on repetitions. */
  lemma {:induction false} LatchDependsOnSet(records: seq<Record>)
    ensures RunRecords(records) == LatchOf(set r | r in records)
  {
    hide LatchOf;
    LatchOfNothing();
    if records == [] {
      assert (set r | r in records) == {};
    } else {
      var front, last := records[..|records| - 1], records[|records| - 1];
      LatchDependsOnSet(front);
      LatchGrows((set r | r in front), last);
      assert records == front + [last];
      assert (set r | r in records) == (set r | r in front) + {last};
    }
  }

  /** The latch holds a record exactly when that one, and no other, was recorded. */
  lemma {:induction false} RecordedExactly(records: seq<Record>, r: Record)
    ensures RunRecords(records) == Recorded(r) <==> records != [] && forall i :: 0 <= i < |records| ==> records[i] == r
    ensures RunRecords(records) == Unrecorded <==> records == []
  {
    if records != [] {
      var front := records[..|records| - 1];
      RecordedExactly(front, r);
      assert forall i :: 0 <= i < |front| ==> front[i] == records[i];
    }
  }

  /** Conflict is absorbing. */
  lemma {:induction false} ConflictAbsorbs(records: seq<Record>, more: seq<Record>)
    requires RunRecords(records).Conflict?
    ensures RunRecords(records + more).Conflict?
    decreases |more|
  {
    if more == [] {
      assert records + more == records;
    } else {
      assert (records + more)[..|records + more| - 1] == records + more[..|more| - 1];
      ConflictAbsorbs(records, more[..|more| - 1]);
    }
  }
}
