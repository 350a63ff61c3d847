/** The upstream chat-completion client: how the request is put together from
    the arguments and their defaults, and the read loop that turns the
    event stream into content deltas until the `[DONE]` frame. */
module OpenAI {
  import opened Util
  import opened Sse

  const DefaultBaseUrl := "https://api.openai.com"
  const DefaultModel := "gpt-3.5-turbo"
  const CompletionsPath := "/v1/chat/completions"
  const DoneMarker := "[DONE]"

  datatype StreamOptions = StreamOptions(apiKey: Option<string>, baseUrl: Option<string>, model: Option<string>)

  /** The parts of the upstream request that depend on the arguments. */
  datatype Request = Request(url: string, authorization: string, model: string, input: string)

  /** `base.replace(/\/$/, '')`: one trailing slash removed. */
  function StripTrailingSlash(base: string): (r: string)
    ensures base != "" && base[|base| - 1] == '/' ==> r == base[..|base| - 1]
    ensures base == "" || base[|base| - 1] != '/' ==> r == base
  {
    if base != "" && base[|base| - 1] == '/' then base[..|base| - 1] else base
  }

  /** `a ?? b` */
  function OrElse(a: Option<string>, b: string): string {
    if a.Some? then a.value else b
  }

  function BuildRequest(input: string, apiKey: Option<string>, options: StreamOptions): (r: Request)
    ensures r.url == StripTrailingSlash(OrElse(options.baseUrl, DefaultBaseUrl)) + CompletionsPath
    ensures options.apiKey.Some? ==> r.authorization == "Bearer " + options.apiKey.value
    ensures options.apiKey == None ==> r.authorization == "Bearer " + OrElse(apiKey, "")
    ensures options.model.Some? ==> r.model == options.model.value
    ensures options.model == None ==> r.model == DefaultModel
    ensures r.input == input
  {
    var key := if options.apiKey.Some? then options.apiKey else apiKey;
    Request(StripTrailingSlash(OrElse(options.baseUrl, DefaultBaseUrl)) + CompletionsPath,
            "Bearer " + OrElse(key, ""), OrElse(options.model, DefaultModel), input)
  }

  /** Without options the request goes to the completions path of the
      default endpoint. */
  lemma DefaultEndpoint(input: string, apiKey: Option<string>)
    ensures BuildRequest(input, apiKey, StreamOptions(None, None, None)).url == DefaultBaseUrl + CompletionsPath
  {
    assert DefaultBaseUrl[|DefaultBaseUrl| - 1] == 'm';
  }

  /** A base URL given with or without its trailing slash yields the same
      URL. */
  lemma TrailingSlashIgnored(input: string, apiKey: Option<string>, base: string)
    requires base == "" || base[|base| - 1] != '/'
    ensures BuildRequest(input, apiKey, StreamOptions(None, Some(base + "/"), None)).url
         == BuildRequest(input, apiKey, StreamOptions(None, Some(base), None)).url
  {
    assert (base + "/")[..|base + "/"| - 1] == base;
  }

  /** Only one slash is stripped. */
  lemma OneSlashOnly()
    ensures StripTrailingSlash("https://h//") == "https://h/"
  {
    assert "https://h//"[..10] == "https://h/";
  }

  /** The error raised for a response that is not ok. */
  function FailureMessage(status: int, text: string): (r: string)
    ensures StartsWith(r, "OpenAI request failed: ")
    ensures |r| == 23 + |IntString(status)| + 1 + |text|
    ensures r[23..23 + |IntString(status)|] == IntString(status)
    ensures r[23 + |IntString(status)|] == ' '
    ensures r[|r| - |text|..] == text
  {
    var r := "OpenAI request failed: " + IntString(status) + " " + text;
    assert r[..23] == "OpenAI request failed: ";
    r
  }

  /** The message carries both the status and the response text: two
      messages are equal only when both are. */
  lemma FailureMessageDetermines(s1: int, t1: string, s2: int, t2: string)
    ensures FailureMessage(s1, t1) == FailureMessage(s2, t2) ==> s1 == s2 && t1 == t2
  {
    var r1, r2 := FailureMessage(s1, t1), FailureMessage(s2, t2);
    if r1 == r2 {
      assert r1[23..] == IntString(s1) + " " + t1;
      assert r2[23..] == IntString(s2) + " " + t2;
      SpaceSeparated(IntString(s1), t1, IntString(s2), t2);
      IntStringInjective(s1, s2);
    }
  }

  /** What one frame yields: nothing for a frame that is not a data frame or
      a payload without non-empty content (including one that does not
      parse); the content otherwise. `content` stands for parsing the
      payload and reading `choices[0].delta.content`. */
  function FrameDelta(payload: string, content: string -> Option<string>): seq<string> {
    match content(payload)
    case Some(d) => if d != "" then [d] else []
    case None => []
  }

  /** The deltas yielded for the payloads, in order, up to the first `[DONE]`. */
  function Yielded(payloads: seq<Option<string>>, content: string -> Option<string>): (r: seq<string>)
    ensures |r| <= |payloads|
  {
    if payloads == [] then []
    else if payloads[0] == Some(DoneMarker) then []
    else
      var here := if payloads[0].Some? then FrameDelta(payloads[0].value, content) else [];
      here + Yielded(payloads[1..], content)
  }

  /** The deltas yielded for the frames. */
  function Deltas(frames: seq<string>, content: string -> Option<string>): (r: seq<string>)
    ensures |r| <= |frames|
  {
    Yielded(Payloads(frames), content)
  }

  /** Every delta yielded is the content of one of the payloads. */
  lemma {:induction false} YieldedFromPayloads(payloads: seq<Option<string>>, content: string -> Option<string>)
    ensures forall d | d in Yielded(payloads, content) ::
      exists i | 0 <= i < |payloads| :: payloads[i].Some? && content(payloads[i].value) == Some(d)
  {
    if payloads != [] && payloads[0] != Some(DoneMarker) {
      YieldedFromPayloads(payloads[1..], content);
      forall d | d in Yielded(payloads, content)
        ensures exists i | 0 <= i < |payloads| :: payloads[i].Some? && content(payloads[i].value) == Some(d)
      {
        var here := if payloads[0].Some? then FrameDelta(payloads[0].value, content) else [];
        assert Yielded(payloads, content) == here + Yielded(payloads[1..], content);
        if d in here {
          assert payloads[0].Some? && content(payloads[0].value) == Some(d);
        } else {
          var j :| 0 <= j < |payloads[1..]| && payloads[1..][j].Some? && content(payloads[1..][j].value) == Some(d);
          assert payloads[j + 1] == payloads[1..][j];
        }
      }
    }
  }

  /** Every delta is the content read from the payload of one of the data
      frames. */
  lemma DeltasFromFrames(frames: seq<string>, content: string -> Option<string>)
    ensures forall d | d in Deltas(frames, content) :: exists i | 0 <= i < |frames| ::
      DataPayload(frames[i]).Some? && content(DataPayload(frames[i]).value) == Some(d)
  {
    YieldedFromPayloads(Payloads(frames), content);
  }

  lemma {:induction false} YieldedAppend(a: seq<Option<string>>, b: seq<Option<string>>, content: string -> Option<string>)
    requires forall i | 0 <= i < |a| :: a[i] != Some(DoneMarker)
    ensures Yielded(a + b, content) == Yielded(a, content) + Yielded(b, content)
  {
    if a != [] {
      var here := if a[0].Some? then FrameDelta(a[0].value, content) else [];
      assert (a + b)[0] == a[0];
      assert (a + b)[1..] == a[1..] + b;
      assert Yielded(a + b, content) == here + Yielded(a[1..] + b, content);
      assert Yielded(a, content) == here + Yielded(a[1..], content);
      YieldedAppend(a[1..], b, content);
    } else {
      assert a + b == b;
    }
  }

  /** Nothing after a `[DONE]` frame is yielded. */
  lemma NothingAfterDone(a: seq<Option<string>>, rest: seq<Option<string>>, content: string -> Option<string>)
    requires forall i | 0 <= i < |a| :: a[i] != Some(DoneMarker)
    ensures Yielded(a + [Some(DoneMarker)] + rest, content) == Yielded(a, content)
  {
    YieldedAppend(a, [Some(DoneMarker)] + rest, content);
    assert a + [Some(DoneMarker)] + rest == a + ([Some(DoneMarker)] + rest);
  }

  /** Every delta yielded is non-empty. */
  lemma {:induction false} YieldedNonEmpty(payloads: seq<Option<string>>, content: string -> Option<string>)
    ensures forall i | 0 <= i < |Yielded(payloads, content)| :: Yielded(payloads, content)[i] != ""
  {
    if payloads != [] && payloads[0] != Some(DoneMarker) {
      YieldedNonEmpty(payloads[1..], content);
    }
  }

  /** Every delta yielded is non-empty. */
  lemma DeltasNonEmpty(frames: seq<string>, content: string -> Option<string>)
    ensures forall i | 0 <= i < |Deltas(frames, content)| :: Deltas(frames, content)[i] != ""
  {
    YieldedNonEmpty(Payloads(frames), content);
  }

  /** However the stream is cut into reads, the same deltas are yielded. */
  lemma SameDeltasForAnyChunking(chunks1: seq<string>, chunks2: seq<string>, content: string -> Option<string>)
    requires Concat(chunks1) == Concat(chunks2)
    ensures Deltas(FeedAll(chunks1).frames, content) == Deltas(FeedAll(chunks2).frames, content)
  {
    ChunkingInvariant(chunks1, chunks2);
  }

  /** Once a `[DONE]` has been read, later frames change nothing. */
  lemma {:induction false} DoneCutsOff(a: seq<Option<string>>, b: seq<Option<string>>, content: string -> Option<string>)
    requires Some(DoneMarker) in a
    ensures Yielded(a + b, content) == Yielded(a, content)
  {
    assert (a + b)[0] == a[0];
    if a[0] != Some(DoneMarker) {
      var here := if a[0].Some? then FrameDelta(a[0].value, content) else [];
      assert (a + b)[1..] == a[1..] + b;
      assert Yielded(a + b, content) == here + Yielded(a[1..] + b, content);
      DoneCutsOff(a[1..], b, content);
    }
  }

  /** `streamChatCompletion` after the request: `ok` stands for `res.ok`
      with a body present, `status` and `text` for `res.status` and the text
      of the response. A response that is not ok, or has no body, yields
      nothing and throws the failure message. Otherwise the read loop runs
      over the decoded reads, and the deltas are those of the complete frames
      read, up to `[DONE]`. */
  method StreamChatCompletion(ok: bool, status: int, text: string, chunks: seq<string>,
                              content: string -> Option<string>) returns (r: Result<seq<string>>)
    ensures !ok ==> r == Err(FailureMessage(status, text))
    ensures ok ==> r == Ok(Deltas(FeedAll(chunks).frames, content))
  {
    if !ok {
      return Err(FailureMessage(status, text));
    }
    var buffer := "";
    var deltas := [];
    var k := 0;
    while k < |chunks|
      invariant 0 <= k <= |chunks|
      invariant buffer == FeedAll(chunks[..k]).carry
      invariant Some(DoneMarker) !in Payloads(FeedAll(chunks[..k]).frames)
      invariant deltas == Deltas(FeedAll(chunks[..k]).frames, content)
    {
      ghost var before := FeedAll(chunks[..k]).frames;
      var fed := Feed(buffer, chunks[k]);
      FeedAllStep(chunks, k);
      var out, done := HandleFrames(fed.frames, content);
      PayloadsAppend(before, fed.frames);
      YieldedAppend(Payloads(before), Payloads(fed.frames), content);
      deltas := deltas + out;
      if done {
        DoneEndsStream(chunks, k + 1, content);
        return Ok(deltas);
      }
      buffer := fed.carry;
      k := k + 1;
    }
    assert chunks[..k] == chunks;
    r := Ok(deltas);
  }

  /** The `for (const part of parts)` loop of one read: the deltas of the
      frames up to a `[DONE]`, and whether one was met. */
  method HandleFrames(parts: seq<string>, content: string -> Option<string>) returns (out: seq<string>, done: bool)
    ensures out == Yielded(Payloads(parts), content)
    ensures done <==> Some(DoneMarker) in Payloads(parts)
  {
    out := [];
    var j := 0;
    while j < |parts|
      invariant 0 <= j <= |parts|
      invariant Some(DoneMarker) !in Payloads(parts[..j])
      invariant out == Yielded(Payloads(parts[..j]), content)
    {
      var payload := DataPayload(parts[j]);
      FrameStep(parts, j, content);
      if payload == Some(DoneMarker) {
        return out, true;
      }
      if payload.Some? {
        out := out + FrameDelta(payload.value, content);
      }
      j := j + 1;
    }
    assert parts[..j] == parts;
    done := false;
  }

  /** What one more frame adds to the deltas of the frames before it. */
  lemma {:induction false} FrameStep(parts: seq<string>, j: int, content: string -> Option<string>)
    requires 0 <= j < |parts| && Some(DoneMarker) !in Payloads(parts[..j])
    ensures Payloads(parts[..j + 1]) == Payloads(parts[..j]) + [DataPayload(parts[j])]
    ensures DataPayload(parts[j]) != Some(DoneMarker) ==>
      Yielded(Payloads(parts[..j + 1]), content) == Yielded(Payloads(parts[..j]), content)
        + (if DataPayload(parts[j]).Some? then FrameDelta(DataPayload(parts[j]).value, content) else [])
    ensures DataPayload(parts[j]) == Some(DoneMarker) ==>
      Some(DoneMarker) in Payloads(parts) && Yielded(Payloads(parts), content) == Yielded(Payloads(parts[..j]), content)
  {
    var payload := DataPayload(parts[j]);
    assert parts[..j + 1] == parts[..j] + [parts[j]];
    PayloadsAppend(parts[..j], [parts[j]]);
    assert Payloads([parts[j]]) == [payload];
    YieldedAppend(Payloads(parts[..j]), [payload], content);
    if payload == Some(DoneMarker) {
      assert parts == parts[..j + 1] + parts[j + 1..];
      PayloadsAppend(parts[..j + 1], parts[j + 1..]);
      DoneCutsOff(Payloads(parts[..j + 1]), Payloads(parts[j + 1..]), content);
    }
  }

  /** Frames that hold a `[DONE]` yield what any longer stream starting with
      them yields. */
  lemma DoneCutsOffFrames(before: seq<string>, all: seq<string>, content: string -> Option<string>)
    requires before <= all
    requires Some(DoneMarker) in Payloads(before)
    ensures Deltas(before, content) == Deltas(all, content)
  {
    var rest := all[|before|..];
    assert all == before + rest;
    PayloadsAppend(before, rest);
    DoneCutsOff(Payloads(before), Payloads(rest), content);
  }

  /** When the frames of the first `k` reads hold a `[DONE]`, they yield
      everything the whole stream yields. */
  lemma DoneEndsStream(chunks: seq<string>, k: nat, content: string -> Option<string>)
    requires k <= |chunks|
    requires Some(DoneMarker) in Payloads(FeedAll(chunks[..k]).frames)
    ensures Deltas(FeedAll(chunks[..k]).frames, content) == Deltas(FeedAll(chunks).frames, content)
  {
    FeedAllPrefix(chunks, k);
    DoneCutsOffFrames(FeedAll(chunks[..k]).frames, FeedAll(chunks).frames, content);
  }
}
