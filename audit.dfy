/** The in-memory audit log: events are appended with the time they were
    logged, read back as a copy, and cleared. The generate route records a
    request event and then a completion or an error event. */
module Audit {
  import opened Util

  const RequestKind := "generate.request"
  const CompleteKind := "generate.complete"
  const ErrorKind := "generate.error"

  /** The JSON values the route puts in a payload. */
  datatype Value = Str(s: string) | Num(n: int) | Flag(b: bool)

  datatype AuditEvent = AuditEvent(kind: string, payload: map<string, Value>, ts: int)

  /** `events.find(e => e.type === kind)`: the first event of that kind. */
  function Find(events: seq<AuditEvent>, kind: string): (r: Option<AuditEvent>)
    ensures r.Some? ==> r.value in events && r.value.kind == kind
    ensures r.None? <==> forall e | e in events :: e.kind != kind
    ensures r.Some? ==>
      exists i | 0 <= i < |events| :: events[i] == r.value && forall j | 0 <= j < i :: events[j].kind != kind
  {
    if events == [] then None
    else if events[0].kind == kind then Some(events[0])
    else
      var r := Find(events[1..], kind);
      if r.Some? then
        var i :| 0 <= i < |events[1..]| && events[1..][i] == r.value
                 && forall j | 0 <= j < i :: events[1..][j].kind != kind;
        assert events[i + 1] == r.value;
        r
      else r
  }

  /** How a generate request ended: the mock stream or the upstream stream
      ran to the end, or an error carrying its message was raised. */
  datatype Outcome = Completed(mock: bool) | Failed(message: string)

  /** The events the generate route logs for one request: the request,
      then its completion (with the number of segments) or its error. */
  function GenerateEvents(input: string, segments: nat, outcome: Outcome, requestTs: int, endTs: int)
    : (r: seq<AuditEvent>)
    ensures |r| == 2 && r[0].kind == RequestKind && r[0].ts == requestTs && r[1].ts == endTs
    ensures r[1].kind == (if outcome.Completed? then CompleteKind else ErrorKind)
    ensures "input" in r[0].payload && r[0].payload["input"] == Str(input)
    ensures "input" in r[1].payload && r[1].payload["input"] == Str(input)
  {
    var request := AuditEvent(RequestKind, map["input" := Str(input)], requestTs);
    var last := match outcome
      case Completed(mock) =>
        AuditEvent(CompleteKind, map["input" := Str(input), "mock" := Flag(mock), "segments" := Num(segments)], endTs)
      case Failed(message) =>
        AuditEvent(ErrorKind, map["input" := Str(input), "error" := Str(message)], endTs);
    [request, last]
  }

  /** After a cleared log records a completed mock request, both a request
      and a completion event are found, the request first. */
  lemma MockRequestLogged(input: string, segments: nat, t1: int, t2: int)
    ensures var events := GenerateEvents(input, segments, Completed(true), t1, t2);
      Find(events, RequestKind) == Some(events[0]) && Find(events, CompleteKind) == Some(events[1])
      && "mock" in events[1].payload && events[1].payload["mock"] == Flag(true)
      && "segments" in events[1].payload && events[1].payload["segments"] == Num(segments)
  {
  }

  /** A failed request logs no completion. */
  lemma FailureNotCompleted(input: string, segments: nat, message: string, t1: int, t2: int)
    ensures var events := GenerateEvents(input, segments, Failed(message), t1, t2);
      Find(events, CompleteKind) == None && Find(events, ErrorKind) == Some(events[1])
      && "error" in events[1].payload && events[1].payload["error"] == Str(message)
  {
  }

  /** Events already in the log are found before the ones appended. */
  lemma {:induction false} FindAppend(a: seq<AuditEvent>, b: seq<AuditEvent>, kind: string)
    ensures Find(a + b, kind) == if Find(a, kind).Some? then Find(a, kind) else Find(b, kind)
  {
    if a == [] {
      assert a + b == b;
    } else {
      assert (a + b)[0] == a[0] && (a + b)[1..] == a[1..] + b;
      FindAppend(a[1..], b, kind);
    }
  }

  /** The module-level `events` array. */
  class AuditLog {
    var events: seq<AuditEvent>

    constructor ()
      ensures events == []
    {
      events := [];
    }

    /** `logEvent`: appends one event stamped with the current time. */
    method LogEvent(kind: string, payload: map<string, Value>, now: int)
      modifies this
      ensures events == old(events) + [AuditEvent(kind, payload, now)]
    {
      events := events + [AuditEvent(kind, payload, now)];
    }

    /** `getEvents`: a new array holding the events; writing to it leaves
        the log as it is. */
    method GetEvents() returns (r: array<AuditEvent>)
      ensures fresh(r) && r[..] == events
    {
      var copy := events;
      r := new AuditEvent[|copy|](i requires 0 <= i < |copy| => copy[i]);
    }

    /** `clearEvents` */
    method ClearEvents()
      modifies this
      ensures events == []
    {
      events := [];
    }

    /** The audit calls of one generate request, with the times of the two
        log calls. */
    method RecordGenerate(input: string, segments: nat, outcome: Outcome, requestTs: int, endTs: int)
      modifies this
      ensures events == old(events) + GenerateEvents(input, segments, outcome, requestTs, endTs)
    {
      LogEvent(RequestKind, map["input" := Str(input)], requestTs);
      match outcome
      case Completed(mock) =>
        LogEvent(CompleteKind, map["input" := Str(input), "mock" := Flag(mock), "segments" := Num(segments)], endTs);
      case Failed(message) =>
        LogEvent(ErrorKind, map["input" := Str(input), "error" := Str(message)], endTs);
    }
  }

  /** The audit test: clear the log, serve one mock request, then find both
      events, and changing the copy read back leaves the log unchanged. */
  method AuditTest(log: AuditLog, input: string, segments: nat, t1: int, t2: int) returns (found: bool)
    modifies log
    ensures found
    ensures log.events == GenerateEvents(input, segments, Completed(true), t1, t2)
  {
    log.ClearEvents();
    log.RecordGenerate(input, segments, Completed(true), t1, t2);
    var copy := log.GetEvents();
    MockRequestLogged(input, segments, t1, t2);
    found := Find(copy[..], RequestKind).Some? && Find(copy[..], CompleteKind).Some?;
    copy[0] := AuditEvent("changed", map[], 0);
  }
}
