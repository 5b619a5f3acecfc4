/** The credential proxy's one record per request (`defender/credential_proxy/_app.py`): whatever
    happens to a request, what `handle` returns and what it audited first. */
module ProxyRecord {
  import opened ReplyFrames
  import opened Options
  import opened Characters

  const CONFIG := "ConfigFault"
  const UPSTREAM := "UpstreamFault"
  const TRANSPORT := "TransportFault"

  // ---------------------------------------------------------------- what may happen to a request

  /** A failure raised somewhere in the pipeline. */
  datatype Failure =
    | Refused(fault: string, detail: string, systemSide: bool)
    | ConfigFault(detail: string)
    | TransportFault(detail: string)
    | Unforeseen

  /** What the leg to the system reports while it runs. */
  datatype LegEvent = StatusSeen(status: int) | ChunkBegun(chunk: Bytes) | ChunkTaken

  /** The system's reply as the reader hands it back. */
  datatype Streamed = Streamed(status: int, headers: seq<(string, string)>, withheld: Option<string>, tooLarge: bool)

  datatype LegEnd =
    | Returned(reply: Streamed)
    | ReaderLeft(why: string)
    | Cut(fault: string, detail: string, systemSide: bool)  // `Refused`: the deadline, or the reader's own
    | NeverConnected(name: string)     // a connect error or connect timeout
    | Broke(name: string)              // any other transport error
    | Raised(failure: Failure)         // anything else

  /** A request stops before the system's call begins, or the call runs and ends. */
  datatype Request =
    | Stopped(failure: Failure)
    | Called(events: seq<LegEvent>, end: LegEnd)

  // ---------------------------------------------------------------- the records

  function FaultOf(status: int): Option<string> {
    if 200 <= status < 300 then None
    else if status == 401 then Some(CONFIG)
    else if status >= 500 then Some(TRANSPORT)
    else Some(UPSTREAM)
  }

  function RefusedAnswer(fault: string, detail: string, systemSide: bool): FinalRecord {
    FinalRecord(None, map[], Some(fault), Some(detail), systemSide, false, false, false)
  }

  function BrokenReply(status: int, why: string, readerFault: bool): FinalRecord {
    FinalRecord(Some(status), map[], Some(TRANSPORT), Some(why), false, true, false, readerFault)
  }

  const HOP_HEADERS: set<string> :=
    {"content-length", "transfer-encoding", "connection", "keep-alive", "content-encoding"}

  /** Headers shown to the caller: the hop's left out, a repeated one joined. */
  function Shown(headers: seq<(string, string)>): map<string, string> {
    if headers == [] then map[] else
      var (name, value) := headers[|headers| - 1];
      var shown := Shown(headers[..|headers| - 1]);
      if LowerText(name) in HOP_HEADERS then shown
      else shown[name := if name in shown then shown[name] + ", " + value else value]
  }

  function RecordOfReply(reply: Streamed): FinalRecord {
    var fault := FaultOf(reply.status);
    var named := if fault.Some? then fault else if reply.withheld.Some? then Some(UPSTREAM) else None;
    FinalRecord(Some(reply.status), Shown(reply.headers), named,
                if named.None? then None else Some("answered"), false, true, reply.withheld.None?, false)
  }

  // ---------------------------------------------------------------- one request

  /** `_Trail`, as far as the record and the audit read it. */
  class Trail {
    var outcome: Option<int>   // the status the system sent, once it has
    var sent: bool             // the system's call began, and its connect did not fail

    constructor ()
      ensures outcome == None && !sent
    {
      outcome, sent := None, false;
    }
  }

  datatype Result = Answered(record: FinalRecord) | Failing(failure: Failure)

  /** The first status the leg reported. */
  function FirstStatus(events: seq<LegEvent>): Option<int> {
    if events == [] then None
    else if events[0].StatusSeen? then Some(events[0].status)
    else FirstStatus(events[1..])
  }

  /** The last one, which is what the trail is left with. */
  function LastStatus(events: seq<LegEvent>): Option<int> {
    if events == [] then None
    else if events[|events| - 1].StatusSeen? then Some(events[|events| - 1].status)
    else LastStatus(events[..|events| - 1])
  }

  /** The leg was waiting for the run when it ended. */
  function OnReader(events: seq<LegEvent>): bool {
    if events == [] then false
    else if events[|events| - 1].ChunkBegun? then true
    else if events[|events| - 1].ChunkTaken? then false
    else OnReader(events[..|events| - 1])
  }

  /** Why a leg that ended badly is answered as it is. A status is asked of the leg that may have
      reported none; that is itself a failure. */
  function EndOfLeg(events: seq<LegEvent>, end: LegEnd): Result {
    var status := FirstStatus(events);
    match end
    case Returned(reply) => Answered(RecordOfReply(reply))
    case ReaderLeft(why) =>
      if status.None? then Failing(Unforeseen) else Answered(BrokenReply(status.value, why, true))
    case Cut(fault, detail, systemSide) =>
      if OnReader(events) then
        if status.None? then Failing(Unforeseen) else Answered(BrokenReply(status.value, "slow reader", true))
      else if status.Some? then Answered(BrokenReply(status.value, detail, false))
      else Failing(Refused(fault, detail, systemSide))
    case NeverConnected(name) =>
      if status.Some? then Answered(BrokenReply(status.value, name, false))
      else Failing(Refused(TRANSPORT, name, true))
    case Broke(name) =>
      if status.Some? then Answered(BrokenReply(status.value, name, false))
      else Failing(Refused(TRANSPORT, name, true))
    case Raised(failure) => Failing(failure)
  }

  /** `_sent`: the system's call, its events filling the trail as they come. */
  method Sent(events: seq<LegEvent>, end: LegEnd, trail: Trail) returns (r: Result)
    modifies trail
    ensures r == EndOfLeg(events, end)
    ensures trail.sent == !(end.NeverConnected? && FirstStatus(events).None?)
    ensures trail.outcome == if LastStatus(events).Some? then LastStatus(events) else old(trail.outcome)
  {
    var answered: seq<int> := [];
    var onReader := false;
    trail.sent := true;
    for k := 0 to |events|
      invariant trail.sent
      invariant (answered == [] <==> FirstStatus(events[..k]).None?)
                && (answered != [] ==> FirstStatus(events[..k]) == Some(answered[0]))
      invariant onReader == OnReader(events[..k])
      invariant trail.outcome == if LastStatus(events[..k]).Some? then LastStatus(events[..k]) else old(trail.outcome)
    {
      assert events[..k + 1][..k] == events[..k] && events[..k + 1] == events[..k] + [events[k]];
      FirstStatusOfMore(events[..k], events[k]);
      match events[k]
      case StatusSeen(status) =>
        trail.outcome := Some(status);
        answered := answered + [status];
      case ChunkBegun(_) => onReader := true;
      case ChunkTaken => onReader := false;
    }
    assert events[..|events|] == events;
    match end
    case Returned(reply) => return Answered(RecordOfReply(reply));
    case ReaderLeft(why) =>
      if answered == [] { return Failing(Unforeseen); }
      return Answered(BrokenReply(answered[0], why, true));
    case Cut(fault, detail, systemSide) =>
      if onReader {
        if answered == [] { return Failing(Unforeseen); }
        return Answered(BrokenReply(answered[0], "slow reader", true));
      }
      if answered != [] { return Answered(BrokenReply(answered[0], detail, false)); }
      return Failing(Refused(fault, detail, systemSide));
    case NeverConnected(name) =>
      if answered != [] { return Answered(BrokenReply(answered[0], name, false)); }
      trail.sent := false;
      return Failing(Refused(TRANSPORT, name, true));
    case Broke(name) =>
      if answered != [] { return Answered(BrokenReply(answered[0], name, false)); }
      return Failing(Refused(TRANSPORT, name, true));
    case Raised(failure) => return Failing(failure);
  }

  lemma {:induction false} FirstStatusOfMore(events: seq<LegEvent>, e: LegEvent)
    ensures FirstStatus(events + [e]) ==
            if FirstStatus(events).Some? then FirstStatus(events) else FirstStatus([e])
    decreases |events|
  {
    if events == [] {
      assert events + [e] == [e];
    } else {
      assert (events + [e])[1..] == events[1..] + [e];
      FirstStatusOfMore(events[1..], e);
    }
  }

  /** The classification of a failure, however unforeseen. */
  function Classified(failure: Failure): FinalRecord {
    match failure
    case Refused(fault, detail, systemSide) => RefusedAnswer(fault, detail, systemSide)
    case ConfigFault(detail) => RefusedAnswer(CONFIG, detail, false)
    case TransportFault(detail) => RefusedAnswer(TRANSPORT, detail, false)
    case Unforeseen => RefusedAnswer(TRANSPORT, "the request could not be processed", false)
  }

  function Outcome(request: Request): FinalRecord {
    match request
    case Stopped(failure) => Classified(failure)
    case Called(events, end) =>
      match EndOfLeg(events, end)
      case Answered(record) => record
      case Failing(failure) => Classified(failure)
  }

  const WITHHELD: FinalRecord :=
    RefusedAnswer(TRANSPORT, "the proxy's audit could not be written; the answer is withheld", false)

  /** The system's call began and its connect did not fail. */
  predicate MayHaveReached(request: Request) {
    request.Called? && !(request.end.NeverConnected? && FirstStatus(request.events).None?)
  }

  /** What `handle` returns. */
  function Final(request: Request, audited: bool): FinalRecord {
    (if audited then Outcome(request) else WITHHELD).(sent := MayHaveReached(request))
  }

  /** What became of a request: the status the system sent, else the fault. */
  datatype AuditOutcome = StatusSent(status: int) | FaultOnly(fault: Option<string>)

  datatype AuditEntry = AuditEntry(outcome: AuditOutcome, fault: Option<string>)

  /** `_Trail.entry`. */
  function EntryFor(outcome: Option<int>, fault: Option<string>): AuditEntry {
    AuditEntry(if outcome.Some? then StatusSent(outcome.value) else FaultOnly(fault), fault)
  }

  function TrailStatus(request: Request): Option<int> {
    if request.Called? then LastStatus(request.events) else None
  }

  /** The proxy over its audit sink. */
  class Proxy {
    var audit: seq<AuditEntry>

    constructor ()
      ensures audit == []
    {
      audit := [];
    }

    /** `handle`: the record, its audit written first; `sinkWorks` says whether the sink took it. */
    method Handle(request: Request, sinkWorks: bool) returns (record: FinalRecord)
      modifies this
      ensures record == Final(request, sinkWorks)
      ensures audit ==
              if sinkWorks then old(audit) + [EntryFor(TrailStatus(request), record.fault)] else old(audit)
    {
      var trail := new Trail();
      var answer: FinalRecord;
      match request {
        case Stopped(failure) => answer := Classified(failure);
        case Called(events, end) =>
          var r := Sent(events, end, trail);
          answer := if r.Answered? then r.record else Classified(r.failure);
      }
      if sinkWorks {
        audit := audit + [EntryFor(trail.outcome, answer.fault)];
      } else {
        answer := WITHHELD;
      }
      record := answer.(sent := trail.sent);
    }
  }

  // ---------------------------------------------------------------- the promises

  /** On every path the record is one its caller accepts: no fault means a status and a whole body. */
  lemma EveryRecordIsValid(request: Request, audited: bool)
    ensures Valid(Final(request, audited))
  {
  }

  /** `sent` is false exactly when the system's call never began, or never connected and reported
      no status. */
  lemma SentSaysWhetherItMayHaveArrived(request: Request, audited: bool)
    ensures Final(request, audited).sent <==>
            request.Called? &&
            !(request.end.NeverConnected? && forall k :: 0 <= k < |request.events| ==> !request.events[k].StatusSeen?)
  {
    if request.Called? { NoStatusMeansNone(request.events); }
  }

  lemma {:induction false} NoStatusMeansNone(events: seq<LegEvent>)
    ensures FirstStatus(events).None? <==> forall k :: 0 <= k < |events| ==> !events[k].StatusSeen?
    ensures FirstStatus(events).Some? ==> StatusSeen(FirstStatus(events).value) in events
    decreases |events|
  {
    if events != [] {
      NoStatusMeansNone(events[1..]);
      assert forall k :: 0 < k < |events| ==> events[k] == events[1..][k - 1];
    }
  }

  /** A whole body is claimed only for a reply that came back with nothing withheld, audited; and a
      status only when the system gave it. */
  lemma ClaimsAreTheSystems(request: Request, audited: bool)
    ensures var r := Final(request, audited);
            && (r.bodyWhole ==> audited && request.Called? && request.end.Returned? && request.end.reply.withheld.None?)
            && (r.status.Some? ==> audited && request.Called?)
            && (r.status.Some? && request.end.Returned? ==> r.status.value == request.end.reply.status)
            && (r.status.Some? && !request.end.Returned? ==> StatusSeen(r.status.value) in request.events)
            && (r.fault.None? ==> r.status.Some? && 200 <= r.status.value < 300)
            && (r.readerFault ==> r.status.Some? && !r.bodyWhole)
            && (r.readerFault ==> request.end.ReaderLeft? || (request.end.Cut? && OnReader(request.events)))
            && (r.systemSide ==> r.status.None?)
  {
    if request.Called? { NoStatusMeansNone(request.events); }
  }

  /** An audit entry says what became of its request, a status or a fault, but for one kind: a success
      returned whole by a leg that never reported its status. */
  lemma AuditSaysWhatBecame(request: Request)
    ensures EntryFor(TrailStatus(request), Final(request, true).fault).outcome == FaultOnly(None) <==>
            && request.Called? && request.end.Returned? && request.end.reply.withheld.None?
            && 200 <= request.end.reply.status < 300
            && forall k :: 0 <= k < |request.events| ==> !request.events[k].StatusSeen?
  {
    if request.Called? { NoLastStatus(request.events); }
  }

  lemma {:induction false} NoLastStatus(events: seq<LegEvent>)
    ensures LastStatus(events).None? <==> forall k :: 0 <= k < |events| ==> !events[k].StatusSeen?
    decreases |events|
  {
    if events != [] {
      var last := |events| - 1;
      NoLastStatus(events[..last]);
      assert forall k :: 0 <= k < last ==> events[..last][k] == events[k];
    }
  }

  /** Which fault a reply that came to its end makes, and whose: by its status, then by being withheld. */
  lemma FaultsByStatus(reply: Streamed)
    ensures var r := RecordOfReply(reply); var status := reply.status;
            && r.status == Some(status) && !r.systemSide && !r.readerFault
            && (r.bodyWhole <==> reply.withheld.None?)
            && (status == 401 ==> r.fault == Some("ConfigFault"))
            && (status >= 500 ==> r.fault == Some("TransportFault"))
            && (status < 500 && status != 401 && !(200 <= status < 300) ==> r.fault == Some("UpstreamFault"))
            && (200 <= status < 300 ==>
                  r.fault == if reply.withheld.Some? then Some("UpstreamFault") else None)
  {
  }

  /** A leg that broke off after the system sent a status: the status stands, no body counts, and it is the
      reader's fault exactly when the leg was waiting for the run or was left by it. */
  lemma BrokenOffAfterAStatus(events: seq<LegEvent>, end: LegEnd)
    requires FirstStatus(events).Some? && !end.Returned? && !end.Raised?
    ensures var r := Final(Called(events, end), true);
            && r.status == FirstStatus(events) && r.fault == Some("TransportFault") && !r.bodyWhole && !r.systemSide
            && r.headers == map[] && r.sent
            && (r.readerFault <==> end.ReaderLeft? || (end.Cut? && OnReader(events)))
  {
  }

  /** One that broke off before: no status, and a fault of the system's side where its call failed. */
  lemma BrokenOffBeforeAStatus(events: seq<LegEvent>, end: LegEnd)
    requires FirstStatus(events).None? && (end.NeverConnected? || end.Broke? || (end.Cut? && !OnReader(events)))
    ensures var r := Final(Called(events, end), true);
            && r.status.None? && !r.bodyWhole && !r.readerFault && r.headers == map[]
            && r.fault == (if end.Cut? then Some(end.fault) else Some("TransportFault"))
            && (r.systemSide <==> !end.Cut? || end.systemSide)
            && (r.sent <==> !end.NeverConnected?)
  {
  }

  /** A failure, of the pipeline before the call or out of it, is answered as the fault it is. */
  lemma FailuresAreClassified(failure: Failure)
    ensures var r := Final(Stopped(failure), true);
            && r.status.None? && !r.bodyWhole && !r.readerFault && !r.sent
            && (failure.Refused? ==> r.fault == Some(failure.fault) && r.detail == Some(failure.detail))
            && (r.systemSide <==> failure.Refused? && failure.systemSide)
            && (failure.ConfigFault? ==> r.fault == Some("ConfigFault"))
            && (failure.TransportFault? || failure.Unforeseen? ==> r.fault == Some("TransportFault"))
    ensures forall events, end: LegEnd :: end == Raised(failure) ==>
              Final(Called(events, end), true) == Final(Stopped(failure), true).(sent := true)
  {
  }

  /** Without its audit, no answer leaves: the withheld refusal, which still says whether the request may
      have arrived. */
  lemma UnauditedIsWithheld(request: Request)
    ensures var r := Final(request, false);
            && r.status.None? && r.fault == Some("TransportFault") && !r.bodyWhole && !r.systemSide && !r.readerFault
            && r.headers == map[] && r.sent == Final(request, true).sent
  {
  }

  /** The values sent under exactly this name, in order. */
  function ValuesOf(headers: seq<(string, string)>, name: string): seq<string>
    decreases |headers|
  {
    if headers == [] then []
    else ValuesOf(headers[..|headers| - 1], name)
         + (if headers[|headers| - 1].0 == name then [headers[|headers| - 1].1] else [])
  }

  function CommaJoined(values: seq<string>): string {
    if values == [] then "" else if |values| == 1 then values[0]
    else CommaJoined(values[..|values| - 1]) + ", " + values[|values| - 1]
  }

  /** The caller is shown every header but the hop's, whatever its case, all its values joined in order. */
  lemma {:induction false} HeadersAreShownJoined(headers: seq<(string, string)>, name: string)
    ensures name in Shown(headers) <==>
            ValuesOf(headers, name) != [] && LowerText(name) !in
              {"content-length", "transfer-encoding", "connection", "keep-alive", "content-encoding"}
    ensures name in Shown(headers) ==> Shown(headers)[name] == CommaJoined(ValuesOf(headers, name))
    decreases |headers|
  {
    if headers != [] {
      var front := headers[..|headers| - 1];
      HeadersAreShownJoined(front, name);
      var before, value := ValuesOf(front, name), headers[|headers| - 1].1;
      assert before + [] == before;
      assert CommaJoined(before + [value]) == if before == [] then value else CommaJoined(before) + ", " + value by {
        assert (before + [value])[..|before|] == before;
      }
    }
  }
}
