/** The client's generation stream (`useAIStream`): `start` posts the input
    to `/v1/generate`, reads the response as server-sent events, hands each
    `delta` to the caller, records the time to the first delta, and ends with
    `onComplete` or `onError`; `stop` aborts the request. The asynchronous
    function is modelled as a state machine whose methods are the points
    where it resumes: the response arriving, each read, the end of the
    body, a rejected fetch or read. */
module AIStream {
  import opened Util
  import opened Sse

  /** The caller's callbacks, in the order they are invoked. */
  datatype Event = OnStart | OnDelta(delta: string) | OnError(message: string) | OnComplete

  /** What `JSON.parse` makes of a payload: it throws with a message, or it
      gives an object whose `delta` and `error` fields are read (an empty
      string stands for a missing or falsy field). */
  datatype Parsed = Threw(message: string) | Object(delta: string, error: string)

  /** What one data frame does to the stream. */
  datatype Outcome = Delta(text: string) | Failure(message: string) | Ignored

  /** The `try`/`catch` around one payload: a truthy `delta` is handed on; a
      truthy `error` is thrown as an error; an error whose message is empty
      or mentions `JSON` is swallowed, any other ends the stream. */
  function Classify(p: Parsed): (r: Outcome)
    ensures r.Delta? ==> r.text != ""
    ensures r.Failure? ==> r.message != "" && !Includes(r.message, "JSON")
  {
    match p
    case Threw(m) => Rethrown(m)
    case Object(delta, error) =>
      if Truthy(delta) then Delta(delta)
      else if Truthy(error) then Rethrown(error)
      else Ignored
  }

  function Rethrown(message: string): Outcome {
    if Truthy(message) && !Includes(message, "JSON") then Failure(message) else Ignored
  }

  /** A parse failure (whose message mentions `JSON`) is skipped, a
      non-empty delta always reaches the caller, and an `error` field stops
      the stream exactly when its text neither is empty nor mentions `JSON`
      and there is no delta beside it. */
  lemma ClassifySpec(p: Parsed)
    ensures p.Threw? && Includes(p.message, "JSON") ==> Classify(p) == Ignored
    ensures p.Object? && p.delta != "" ==> Classify(p) == Delta(p.delta)
    ensures p.Object? && p.delta == "" ==>
      (Classify(p).Failure? <==> p.error != "" && !Includes(p.error, "JSON"))
    ensures Classify(p).Delta? ==> p.Object? && Classify(p).text == p.delta != ""
    ensures Classify(p).Failure? ==> Classify(p).message != "" && !Includes(Classify(p).message, "JSON")
  {
  }

  /** An `error` field that happens to mention `JSON` is taken for a parse
      failure and silently dropped. */
  lemma JsonErrorIsSwallowed()
    ensures Classify(Object("", "bad JSON from upstream")) == Ignored
  {
    var e := "bad JSON from upstream";
    assert OccursAt(e, "JSON", 4);
  }

  /** The callbacks fired for the payloads of consecutive frames: each
      delta in order, up to the first failure, which fires `onError` and
      ends the handling. `None` marks a frame that is not a data frame. */
  function Events(payloads: seq<Option<string>>, parse: string -> Parsed): (r: seq<Event>)
    ensures |r| <= |payloads|
    ensures forall i | 0 <= i < |r| :: r[i].OnDelta? || (r[i].OnError? && i == |r| - 1)
  {
    if payloads == [] then []
    else
      var rest := Events(payloads[1..], parse);
      match payloads[0]
      case None => rest
      case Some(p) =>
        match Classify(parse(p))
        case Delta(d) => [OnDelta(d)] + rest
        case Failure(m) => [OnError(m)]
        case Ignored => rest
  }

  /** Whether handling the payloads meets a failure. */
  predicate Fails(payloads: seq<Option<string>>, parse: string -> Parsed) {
    payloads != [] && (FailsHere(payloads[0], parse) || Fails(payloads[1..], parse))
  }

  predicate FailsHere(x: Option<string>, parse: string -> Parsed) {
    x.Some? && Classify(parse(x.value)).Failure?
  }

  predicate AnyDelta(events: seq<Event>) {
    exists i | 0 <= i < |events| :: events[i].OnDelta?
  }

  /** Without a failure only deltas are fired, one per frame whose payload
      has one; with a failure the last callback is the one `onError`. */
  lemma {:induction false} EventsShape(payloads: seq<Option<string>>, parse: string -> Parsed)
    ensures !Fails(payloads, parse) ==> forall i | 0 <= i < |Events(payloads, parse)| :: Events(payloads, parse)[i].OnDelta?
    ensures Fails(payloads, parse) ==>
      |Events(payloads, parse)| >= 1
      && Events(payloads, parse)[|Events(payloads, parse)| - 1].OnError?
      && forall i | 0 <= i < |Events(payloads, parse)| - 1 :: Events(payloads, parse)[i].OnDelta?
  {
    if payloads != [] {
      var tail := payloads[1..];
      EventsShape(tail, parse);
    }
  }

  /** Handling the frames of two reads in turn fires what handling all of
      them at once fires: the second read's callbacks follow the first's,
      and nothing follows a failure. */
  lemma {:induction false} EventsAppend(a: seq<Option<string>>, b: seq<Option<string>>, parse: string -> Parsed)
    ensures !Fails(a, parse) ==> Events(a + b, parse) == Events(a, parse) + Events(b, parse)
    ensures Fails(a, parse) ==> Events(a + b, parse) == Events(a, parse)
    ensures Fails(a + b, parse) <==> Fails(a, parse) || Fails(b, parse)
  {
    if a == [] {
      assert a + b == b;
    } else {
      assert (a + b)[0] == a[0] && (a + b)[1..] == a[1..] + b;
      EventsAppend(a[1..], b, parse);
    }
  }

  lemma AnyDeltaAppend(x: seq<Event>, y: seq<Event>)
    ensures AnyDelta(x + y) <==> AnyDelta(x) || AnyDelta(y)
  {
    if AnyDelta(y) {
      var i :| 0 <= i < |y| && y[i].OnDelta?;
      assert (x + y)[|x| + i] == y[i];
    }
    if AnyDelta(x) {
      var i :| 0 <= i < |x| && x[i].OnDelta?;
      assert (x + y)[i] == x[i];
    }
    if AnyDelta(x + y) {
      var i :| 0 <= i < |x + y| && (x + y)[i].OnDelta?;
      if i >= |x| { assert y[i - |x|] == (x + y)[i]; }
    }
  }

  /** The callbacks fired for one frame's payload. */
  function OneEvent(x: Option<string>, parse: string -> Parsed): seq<Event> {
    match x
    case None => []
    case Some(p) =>
      match Classify(parse(p))
      case Delta(d) => [OnDelta(d)]
      case Failure(m) => [OnError(m)]
      case Ignored => []
  }

  /** Handling some payloads, then one more, then the rest. */
  lemma Step(a: seq<Option<string>>, x: Option<string>, b: seq<Option<string>>, parse: string -> Parsed)
    requires !Fails(a, parse)
    ensures Events(a + [x], parse) == Events(a, parse) + OneEvent(x, parse)
    ensures Fails(a + [x], parse) <==> x.Some? && Classify(parse(x.value)).Failure?
    ensures Fails(a + [x], parse) ==> Events(a + [x] + b, parse) == Events(a + [x], parse)
    ensures Fails(a + [x], parse) ==> Fails(a + [x] + b, parse)
    ensures AnyDelta(Events(a + [x], parse))
      <==> AnyDelta(Events(a, parse)) || (x.Some? && Classify(parse(x.value)).Delta?)
  {
    EventsAppend(a, [x], parse);
    EventsAppend(a + [x], b, parse);
    Single(x, parse);
    AnyDeltaAppend(Events(a, parse), OneEvent(x, parse));
  }

  lemma Single(x: Option<string>, parse: string -> Parsed)
    ensures Events([x], parse) == OneEvent(x, parse)
    ensures Fails([x], parse) <==> x.Some? && Classify(parse(x.value)).Failure?
    ensures AnyDelta(OneEvent(x, parse)) <==> x.Some? && Classify(parse(x.value)).Delta?
  {
    assert [x][1..] == [];
    assert [x][0] == x;
    var e := OneEvent(x, parse);
    if e != [] { assert e[0] == e[0]; }
  }

  /** However the response body is cut into reads, the callbacks fired for
      its frames are the same. */
  lemma SameEventsForAnyChunking(chunks1: seq<string>, chunks2: seq<string>, parse: string -> Parsed)
    requires Concat(chunks1) == Concat(chunks2)
    ensures Events(Payloads(FeedAll(chunks1).frames), parse) == Events(Payloads(FeedAll(chunks2).frames), parse)
  {
    ChunkingInvariant(chunks1, chunks2);
  }

  /** One read more appends that read's frames. */
  lemma FeedAllSnoc(chunks: seq<string>, chunk: string)
    ensures var fed := Feed(FeedAll(chunks).carry, chunk);
      var all := FeedAll(chunks + [chunk]);
      all.carry == fed.carry
      && Payloads(all.frames) == Payloads(FeedAll(chunks).frames) + Payloads(fed.frames)
  {
    var cs := chunks + [chunk];
    assert cs[..|cs| - 1] == chunks;
    PayloadsAppend(FeedAll(chunks).frames, Feed(FeedAll(chunks).carry, chunk).frames);
  }

  /** The callbacks of a response read in these chunks so far, the text
      carried after the last read, and whether a frame failed: each read
      handles the complete frames of the carry and its chunk, and after a
      failure nothing more is read. */
  datatype Progress = Progress(events: seq<Event>, carry: string, failed: bool)

  function Run(chunks: seq<string>, parse: string -> Parsed): Progress {
    if chunks == [] then Progress([], "", false)
    else
      var r := Run(chunks[..|chunks| - 1], parse);
      if r.failed then r
      else
        var ps := Payloads(Feed(r.carry, chunks[|chunks| - 1]).frames);
        Progress(r.events + Events(ps, parse), Feed(r.carry, chunks[|chunks| - 1]).carry, Fails(ps, parse))
  }

  /** Read by read, the callbacks are those of the complete frames of all
      the text read, as if it had come in one piece, up to the first failing
      frame; until a failure the carry is the incomplete last frame. */
  lemma {:induction false} RunIsEvents(chunks: seq<string>, parse: string -> Parsed)
    ensures Run(chunks, parse).events == Events(Payloads(FeedAll(chunks).frames), parse)
    ensures Run(chunks, parse).failed == Fails(Payloads(FeedAll(chunks).frames), parse)
    ensures !Run(chunks, parse).failed ==> Run(chunks, parse).carry == FeedAll(chunks).carry
  {
    if chunks != [] {
      var front := chunks[..|chunks| - 1];
      var c := chunks[|chunks| - 1];
      assert chunks == front + [c];
      RunIsEvents(front, parse);
      FeedAllSnoc(front, c);
      var prior := Payloads(FeedAll(front).frames);
      var r := Run(front, parse);
      if r.failed {
        EventsAppend(prior, Payloads(Feed(FeedAll(front).carry, c).frames), parse);
      } else {
        EventsAppend(prior, Payloads(Feed(r.carry, c).frames), parse);
      }
    }
  }

  /** The `for (const part of parts)` loop of one read over the frames'
      payloads: the callbacks fired in order, whether the first delta has
      been seen and its time (`elapsed` since the start, set only by the
      run's first delta), and whether a failure ended the loop. */
  method HandlePayloads(ps: seq<Option<string>>, parse: string -> Parsed, seenFirst: bool,
                        firstCharMs: Option<int>, elapsed: int)
    returns (events: seq<Event>, seen: bool, ms: Option<int>, failed: bool)
    ensures events == Events(ps, parse)
    ensures failed <==> Fails(ps, parse)
    ensures seen <==> seenFirst || AnyDelta(events)
    ensures ms == if !seenFirst && AnyDelta(events) then Some(elapsed) else firstCharMs
  {
    events, seen, ms := [], seenFirst, firstCharMs;
    var j := 0;
    while j < |ps|
      invariant 0 <= j <= |ps|
      invariant !Fails(ps[..j], parse)
      invariant events == Events(ps[..j], parse)
      invariant seen == (seenFirst || AnyDelta(events))
      invariant ms == if !seenFirst && AnyDelta(events) then Some(elapsed) else firstCharMs
    {
      assert ps[..j + 1] == ps[..j] + [ps[j]];
      assert ps == ps[..j] + [ps[j]] + ps[j + 1..];
      Step(ps[..j], ps[j], ps[j + 1..], parse);
      if ps[j].Some? {
        match Classify(parse(ps[j].value))
        case Delta(d) =>
          if !seen {
            seen := true;
            ms := Some(elapsed);
          }
          events := events + [OnDelta(d)];
        case Failure(m) =>
          events := events + [OnError(m)];
          return events, seen, ms, true;
        case Ignored =>
      }
      j := j + 1;
    }
    assert ps[..j] == ps;
    failed := false;
  }

  /** The settings a request may carry. */
  datatype RequestLlm = RequestLlm(apiKey: Option<string>, baseUrl: Option<string>, model: Option<string>,
                                   promptTemplate: Option<string>)
  datatype LlmSettings = LlmSettings(apiKey: Option<string>, baseUrl: Option<string>, model: Option<string>)

  /** The JSON body posted to `/v1/generate`. */
  datatype GenerateRequest = GenerateRequest(input: string, llm: Option<LlmSettings>, promptTemplate: Option<string>)

  /** The request body: the input, the connection settings when any were
      given, and the prompt template when one was given and is non-empty. */
  function BuildPayload(input: string, requestLlm: Option<RequestLlm>): (r: GenerateRequest)
    ensures r.input == input
    ensures r.llm.Some? <==> requestLlm.Some?
    ensures r.llm.Some? ==>
      r.llm.value.apiKey == requestLlm.value.apiKey
      && r.llm.value.baseUrl == requestLlm.value.baseUrl && r.llm.value.model == requestLlm.value.model
    ensures r.promptTemplate.Some? <==>
      requestLlm.Some? && requestLlm.value.promptTemplate.Some? && requestLlm.value.promptTemplate.value != ""
    ensures r.promptTemplate.Some? ==> r.promptTemplate == requestLlm.value.promptTemplate
  {
    match requestLlm
    case None => GenerateRequest(input, None, None)
    case Some(q) =>
      var template := if q.promptTemplate.Some? && Truthy(q.promptTemplate.value) then q.promptTemplate else None;
      GenerateRequest(input, Some(LlmSettings(q.apiKey, q.baseUrl, q.model)), template)
  }

  /** The error raised for a response that is not ok or has no body. */
  function GeneratorError(status: int, text: string): (r: string)
    ensures StartsWith(r, "Generator error: ")
    ensures |r| == 17 + |IntString(status)| + 1 + |text|
    ensures r[17..17 + |IntString(status)|] == IntString(status)
    ensures r[17 + |IntString(status)|] == ' '
    ensures r[|r| - |text|..] == text
  {
    var r := "Generator error: " + IntString(status) + " " + text;
    assert r[..17] == "Generator error: ";
    r
  }

  /** The message carries both the status and the response text: two
      messages are equal only when both are. */
  lemma GeneratorErrorDetermines(s1: int, t1: string, s2: int, t2: string)
    ensures GeneratorError(s1, t1) == GeneratorError(s2, t2) ==> s1 == s2 && t1 == t2
  {
    var r1, r2 := GeneratorError(s1, t1), GeneratorError(s2, t2);
    if r1 == r2 {
      assert r1[17..] == IntString(s1) + " " + t1;
      assert r2[17..] == IntString(s2) + " " + t2;
      SpaceSeparated(IntString(s1), t1, IntString(s2), t2);
      IntStringInjective(s1, s2);
    }
  }

  /** Where the run is: no run, waiting for the response, or reading its
      body. */
  datatype Phase = Idle | Requesting | Reading

  /** The hook's refs and state, and the local variables of the run in
      progress. */
  class Stream {
    /** `JSON.parse` followed by reading the fields. */
    const parse: string -> Parsed
    var running: bool
    /** Whether `controllerRef` holds an abort controller. */
    var controller: bool
    var firstCharMs: Option<int>
    var phase: Phase
    /** The request body of the latest run. */
    var request: Option<GenerateRequest>
    var startedAt: int
    var buf: string
    var seenFirst: bool
    /** Every callback fired so far. */
    var fired: seq<Event>
    /** Between calls a run is in progress exactly while `running` is set
        and a controller is held, and once the first delta of a response
        has been seen its time is recorded. */
    ghost predicate Valid()
      reads this
    {
      (running <==> phase != Idle) && (controller <==> running)
      && (phase == Reading && seenFirst ==> firstCharMs.Some?)
    }

    constructor (parse: string -> Parsed)
      ensures Valid()
      ensures this.parse == parse && !running && !controller && firstCharMs == None
      ensures phase == Idle && request == None && fired == []
    {
      this.parse := parse;
      running := false;
      controller := false;
      firstCharMs := None;
      phase := Idle;
      request := None;
      startedAt := 0;
      buf := "";
      seenFirst := false;
      fired := [];
    }

    /** `start`: does nothing while a run is in progress; otherwise takes a
        controller, sets `running`, fires `onStart`, notes the start time
        and posts the request. The time to the first delta of the previous
        run stays until this run's first delta. */
    method Start(input: string, requestLlm: Option<RequestLlm>, now: int)
      requires Valid()
      modifies this
      ensures Valid()
      ensures old(running) ==>
        phase == old(phase) && fired == old(fired) && request == old(request)
        && running && controller && firstCharMs == old(firstCharMs)
      ensures !old(running) ==>
        running && controller && phase == Requesting
        && fired == old(fired) + [OnStart] && startedAt == now
        && request == Some(BuildPayload(input, requestLlm)) && firstCharMs == old(firstCharMs)
    {
      if running {
        return;
      }
      controller := true;
      running := true;
      fired := fired + [OnStart];
      startedAt := now;
      request := Some(BuildPayload(input, requestLlm));
      phase := Requesting;
    }

    /** The `finally` block: the run is over. */
    method Finish()
      modifies this
      ensures !running && !controller && phase == Idle
      ensures fired == old(fired) && firstCharMs == old(firstCharMs) && request == old(request)
      ensures startedAt == old(startedAt) && buf == old(buf) && seenFirst == old(seenFirst)
      ensures Valid()
    {
      running := false;
      controller := false;
      phase := Idle;
    }

    /** The response arrives: one that is not ok or has no body fires
        `onError` with the status and text and ends the run; otherwise
        reading begins with an empty buffer. */
    method Respond(ok: bool, hasBody: bool, status: int, text: string)
      requires Valid()
      modifies this
      ensures Valid()
      ensures old(phase) != Requesting ==> phase == old(phase) && fired == old(fired) && running == old(running)
      ensures old(phase) == Requesting && !(ok && hasBody) ==>
        fired == old(fired) + [OnError(GeneratorError(status, text))] && phase == Idle && !running && !controller
      ensures old(phase) == Requesting && ok && hasBody ==>
        fired == old(fired) && phase == Reading && running && buf == "" && !seenFirst
      ensures firstCharMs == old(firstCharMs)
    {
      if phase != Requesting {
        return;
      }
      if !(ok && hasBody) {
        fired := fired + [OnError(GeneratorError(status, text))];
        Finish();
        return;
      }
      buf := "";
      seenFirst := false;
      phase := Reading;
    }

    /** One read of the body: the chunk is added to the buffer, the complete
        frames are handled in order and the incomplete rest is kept. The
        first delta of the run records the time since the start; a failing
        frame fires `onError`, ends the run and leaves the frames after it
        unhandled. */
    method Read(chunk: string, now: int)
      requires Valid()
      modifies this
      ensures Valid()
      ensures old(phase) != Reading ==> phase == old(phase) && fired == old(fired) && firstCharMs == old(firstCharMs)
      ensures old(phase) == Reading ==>
        var fed := Feed(old(buf), chunk);
        var ev := Events(Payloads(fed.frames), parse);
        fired == old(fired) + ev
        && (Fails(Payloads(fed.frames), parse) ==> phase == Idle && !running && !controller)
        && (!Fails(Payloads(fed.frames), parse) ==> phase == Reading && buf == fed.carry && running)
        && seenFirst == (old(seenFirst) || AnyDelta(ev))
        && firstCharMs == (if !old(seenFirst) && AnyDelta(ev) then Some(now - startedAt) else old(firstCharMs))
      ensures startedAt == old(startedAt) && request == old(request)
    {
      if phase != Reading {
        return;
      }
      var fed := Feed(buf, chunk);
      var ps := Payloads(fed.frames);
      var events, seen, ms, failed := HandlePayloads(ps, parse, seenFirst, firstCharMs, now - startedAt);
      fired := fired + events;
      seenFirst := seen;
      firstCharMs := ms;
      if failed {
        Finish();
        return;
      }
      buf := fed.carry;
    }

    /** The body ends (`done`): `onComplete` fires and the run ends. An
        incomplete frame still in the buffer is dropped. */
    method ReadDone()
      requires Valid()
      modifies this
      ensures Valid()
      ensures old(phase) != Reading ==> phase == old(phase) && fired == old(fired)
      ensures old(phase) == Reading ==> fired == old(fired) + [OnComplete] && phase == Idle && !running && !controller
      ensures firstCharMs == old(firstCharMs)
    {
      if phase != Reading {
        return;
      }
      fired := fired + [OnComplete];
      Finish();
    }

    /** The fetch or a read rejects: an abort ends the run silently, any
        other error fires `onError` first. */
    method Reject(name: string, message: string)
      requires Valid()
      modifies this
      ensures Valid()
      ensures old(phase) == Idle ==> phase == Idle && fired == old(fired)
      ensures old(phase) != Idle ==>
        phase == Idle && !running && !controller
        && fired == old(fired) + (if name == "AbortError" then [] else [OnError(message)])
      ensures firstCharMs == old(firstCharMs)
    {
      if phase == Idle {
        return;
      }
      if name != "AbortError" {
        fired := fired + [OnError(message)];
      }
      Finish();
    }

    /** `stop`: aborts the controller, drops it and clears `running`; the
        aborted request then ends without a callback. */
    method Stop()
      requires Valid()
      modifies this
      ensures Valid()
      ensures !running && !controller && phase == Idle
      ensures fired == old(fired) && firstCharMs == old(firstCharMs)
    {
      Finish();
    }
  }
}
