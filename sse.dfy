/** Server-sent-event framing as both stream readers do it: the text read so
    far is split at every blank line (`"\n\n"`), the complete frames are
    handled, and the trailing incomplete piece is carried into the next read.
    A frame is a data frame when, trimmed, it starts with `data:`. */
module Sse {
  import opened Util

  /** A `"\n\n"` separator starts at index `i`. */
  predicate SepAt(s: string, i: int) {
    0 <= i && i + 1 < |s| && s[i] == '\n' && s[i + 1] == '\n'
  }

  /** The index of the leftmost separator, or `|s|` when there is none. */
  function FirstSep(s: string): (r: nat)
    ensures r <= |s|
    ensures r < |s| ==> r + 1 < |s|
  {
    if |s| < 2 then |s|
    else if s[0] == '\n' && s[1] == '\n' then 0
    else 1 + FirstSep(s[1..])
  }

  /** A separator starts at the index found, and none before it. */
  lemma {:induction false} FirstSepSpec(s: string)
    ensures FirstSep(s) < |s| ==> SepAt(s, FirstSep(s))
    ensures forall j | 0 <= j < FirstSep(s) :: !SepAt(s, j)
  {
    if |s| >= 2 && !(s[0] == '\n' && s[1] == '\n') {
      FirstSepSpec(s[1..]);
      var r := FirstSep(s);
      assert forall j | 1 <= j < r :: SepAt(s, j) == SepAt(s[1..], j - 1);
    }
  }

  /** `s.split('\n\n')`: the pieces between the separators, left to right. */
  function Split(s: string): (r: seq<string>)
    ensures |r| >= 1
    decreases |s|
  {
    var i := FirstSep(s);
    if i == |s| then [s] else [s[..i]] + Split(s[i + 2..])
  }

  /** `parts.join('\n\n')` */
  function Join(parts: seq<string>): string
    requires |parts| >= 1
  {
    if |parts| == 1 then parts[0] else parts[0] + "\n\n" + Join(parts[1..])
  }

  lemma JoinCons(p: string, rest: seq<string>)
    requires |rest| >= 1
    ensures Join([p] + rest) == p + "\n\n" + Join(rest)
  {
    assert ([p] + rest)[1..] == rest;
  }

  lemma Reassemble(s: string, i: int)
    requires SepAt(s, i)
    ensures s == s[..i] + "\n\n" + s[i + 2..]
  {
    assert s[i..i + 2] == "\n\n";
    assert s == s[..i] + s[i..i + 2] + s[i + 2..];
  }

  /** Splitting loses nothing: joining the pieces gives back the text. */
  lemma {:induction false} SplitJoin(s: string)
    ensures Join(Split(s)) == s
    decreases |s|
  {
    var i := FirstSep(s);
    FirstSepSpec(s);
    if i < |s| {
      var rest := s[i + 2..];
      SplitJoin(rest);
      assert Split(s) == [s[..i]] + Split(rest);
      JoinCons(s[..i], Split(rest));
      Reassemble(s, i);
    }
  }

  predicate NoSep(s: string) {
    forall j | 0 <= j < |s| :: !SepAt(s, j)
  }

  /** No piece contains a separator. */
  lemma {:induction false} SplitPiecesHaveNoSep(s: string)
    ensures forall k | 0 <= k < |Split(s)| :: NoSep(Split(s)[k])
    decreases |s|
  {
    var i := FirstSep(s);
    FirstSepSpec(s);
    if i < |s| {
      var rest := s[i + 2..];
      SplitPiecesHaveNoSep(rest);
      assert Split(s) == [s[..i]] + Split(rest);
      forall j | 0 <= j < i ensures !SepAt(s[..i], j) {
        assert !SepAt(s, j);
      }
      forall k | 1 <= k < |Split(s)| ensures Split(s)[k] == Split(rest)[k - 1] { }
    }
  }

  /** Text extending the one split keeps the leftmost separator. */
  lemma FirstSepExtend(s: string, c: string)
    requires FirstSep(s) < |s|
    ensures FirstSep(s + c) == FirstSep(s)
  {
    var i := FirstSep(s);
    FirstSepSpec(s);
    FirstSepSpec(s + c);
    assert SepAt(s + c, i);
    forall j | 0 <= j < i ensures !SepAt(s + c, j) {
      assert !SepAt(s, j);
    }
  }

  /** Appending text changes only the last piece and what follows it. */
  lemma {:induction false} SplitExtend(s: string, c: string)
    ensures Split(s + c) == Split(s)[..|Split(s)| - 1] + Split(Split(s)[|Split(s)| - 1] + c)
    decreases |s|
  {
    var i := FirstSep(s);
    if i < |s| {
      var rest := s[i + 2..];
      FirstSepExtend(s, c);
      assert (s + c)[..i] == s[..i];
      assert (s + c)[i + 2..] == rest + c;
      assert Split(s + c) == [s[..i]] + Split(rest + c);
      SplitExtend(rest, c);
      assert Split(s) == [s[..i]] + Split(rest);
      assert Split(s)[..|Split(s)| - 1] == [s[..i]] + Split(rest)[..|Split(rest)| - 1];
    }
  }

  /** The complete frames of one read and the remainder carried over. */
  datatype Framed = Framed(frames: seq<string>, carry: string)

  /** `buf += chunk; parts = buf.split('\n\n'); buf = parts.pop() || ''` */
  function Feed(carry: string, chunk: string): (r: Framed)
    ensures forall k | 0 <= k < |r.frames| :: NoSep(r.frames[k])
    ensures NoSep(r.carry)
  {
    var parts := Split(carry + chunk);
    SplitPiecesHaveNoSep(carry + chunk);
    Framed(parts[..|parts| - 1], parts[|parts| - 1])
  }

  /** The frames of a read and the new carry are the pieces of the carried
      text and the chunk. */
  lemma FeedSplits(carry: string, chunk: string)
    ensures Feed(carry, chunk).frames + [Feed(carry, chunk).carry] == Split(carry + chunk)
  {
    var parts := Split(carry + chunk);
    assert parts == parts[..|parts| - 1] + [parts[|parts| - 1]];
  }

  /** The frames of every read, in order, and the final carry; no frame
      handled and no carry ever holds a blank line. */
  function FeedAll(chunks: seq<string>): (r: Framed)
    ensures forall k | 0 <= k < |r.frames| :: NoSep(r.frames[k])
    ensures NoSep(r.carry)
  {
    if chunks == [] then Framed([], "")
    else
      var f := FeedAll(chunks[..|chunks| - 1]);
      var g := Feed(f.carry, chunks[|chunks| - 1]);
      assert forall k | |f.frames| <= k < |f.frames + g.frames| :: (f.frames + g.frames)[k] == g.frames[k - |f.frames|];
      Framed(f.frames + g.frames, g.carry)
  }

  /** However the text is cut into reads, the frames handled are the complete
      pieces of the whole text and the carry is its last piece. */
  lemma {:induction false} FeedAllIsSplit(chunks: seq<string>)
    ensures FeedAll(chunks).frames + [FeedAll(chunks).carry] == Split(Concat(chunks))
  {
    if chunks == [] {
      assert FirstSep("") == 0;
    } else {
      var front := chunks[..|chunks| - 1];
      assert chunks == front + [chunks[|chunks| - 1]];
      FeedAllIsSplit(front);
      FeedAllSnocSplit(front, chunks[|chunks| - 1]);
    }
  }

  lemma FeedAllSnocSplit(front: seq<string>, c: string)
    requires FeedAll(front).frames + [FeedAll(front).carry] == Split(Concat(front))
    ensures FeedAll(front + [c]).frames + [FeedAll(front + [c]).carry] == Split(Concat(front + [c]))
  {
    ConcatSnoc(front, c);
    FeedAllUnfold(front, c);
    var f := FeedAll(front);
    FeedSplits(f.carry, c);
    SplitExtend(Concat(front), c);
    Glue(Split(Concat(front) + c), Split(Concat(front)), f.frames, f.carry, Split(f.carry + c),
         Feed(f.carry, c).frames, Feed(f.carry, c).carry);
  }

  lemma FeedAllUnfold(front: seq<string>, c: string)
    ensures FeedAll(front + [c])
         == Framed(FeedAll(front).frames + Feed(FeedAll(front).carry, c).frames, Feed(FeedAll(front).carry, c).carry)
  {
    assert (front + [c])[..|front + [c]| - 1] == front;
  }

  lemma Glue(q: seq<string>, p: seq<string>, front: seq<string>, last: string, t: seq<string>,
             more: seq<string>, carry: string)
    requires p == front + [last] && q == p[..|p| - 1] + t && t == more + [carry]
    ensures q == (front + more) + [carry]
  {
    assert p[..|p| - 1] == front;
  }


  /** Hence two ways of cutting the same text into reads give the same frames
      and the same final carry. */
  lemma ChunkingInvariant(chunks1: seq<string>, chunks2: seq<string>)
    requires Concat(chunks1) == Concat(chunks2)
    ensures FeedAll(chunks1) == FeedAll(chunks2)
  {
    FeedAllIsSplit(chunks1);
    FeedAllIsSplit(chunks2);
    var a, b := FeedAll(chunks1), FeedAll(chunks2);
    assert a.frames == (a.frames + [a.carry])[..|a.frames|];
    assert b.frames == (b.frames + [b.carry])[..|b.frames|];
  }

  /** The complete frames of a text. */
  function CompleteFrames(s: string): seq<string> {
    Split(s)[..|Split(s)| - 1]
  }

  /** A frame's payload: for a trimmed frame starting with `data:`, what
      follows that prefix and the whitespace after it; otherwise the frame is
      skipped. */
  function DataPayload(part: string): (r: Option<string>)
    ensures r.Some? ==> |r.value| + 5 <= |part|
    ensures r.Some? ==> r.value == "" || !IsJsWhitespace(r.value[0])
  {
    var line := Trim(part);
    TrimStartSpec(part);
    TrimEndSpec(TrimStart(part));
    if StartsWith(line, "data:") then
      TrimStartSpec(line[5..]);
      Some(TrimStart(line[5..]))
    else None
  }

  /** A frame has a payload iff its trimmed text starts with `data:`; the
      payload is the rest of that text without its leading whitespace. */
  lemma DataPayloadSpec(part: string)
    ensures DataPayload(part).Some? <==> StartsWith(Trim(part), "data:")
    ensures DataPayload(part).Some? ==> var line, p := Trim(part), DataPayload(part).value;
      5 + |p| <= |line| && line[|line| - |p|..] == p && (p == "" || !IsJsWhitespace(p[0]))
      && forall i | 5 <= i < |line| - |p| :: IsJsWhitespace(line[i])
  {
    var line := Trim(part);
    if StartsWith(line, "data:") {
      var p := TrimStart(line[5..]);
      TrimStartSpec(line[5..]);
      assert forall i | 5 <= i < |line| - |p| :: line[i] == line[5..][i - 5];
    }
  }

  /** `data: [DONE]` carries the payload `[DONE]`. */
  lemma DoneFrame()
    ensures DataPayload("data: [DONE]") == Some("[DONE]")
  {
    var s := "data: [DONE]";
    assert s[0] == 'd' && s[|s| - 1] == ']';
    TrimUnpadded(s);
    assert StartsWith(s, "data:") by { assert s[..5] == "data:"; }
    assert s[5..] == " [DONE]";
    DonePayload();
  }

  lemma DonePayload()
    ensures TrimStart(" [DONE]") == "[DONE]"
  {
    assert " [DONE]"[1..] == "[DONE]";
    assert TrimStart("[DONE]") == "[DONE]";
  }

  /** The frames handled over all reads are the complete frames of the
      whole text. */
  lemma FeedAllFrames(chunks: seq<string>)
    ensures FeedAll(chunks).frames == CompleteFrames(Concat(chunks))
  {
    FeedAllIsSplit(chunks);
    var f := FeedAll(chunks);
    assert f.frames == (f.frames + [f.carry])[..|f.frames|];
  }

  /** A last frame without its closing blank line is never handled: text
      without a separator after a frame boundary adds no complete frame. */
  lemma UnterminatedTailNotFramed(s: string, t: string)
    requires Split(s)[|Split(s)| - 1] == ""
    requires FirstSep(t) == |t|
    ensures CompleteFrames(s + t) == CompleteFrames(s)
  {
    SplitExtend(s, t);
    var n := |Split(s)|;
    assert "" + t == t;
    assert Split(t) == [t];
    assert Split(s + t) == Split(s)[..n - 1] + [t];
  }

  /** The payload of each frame, `None` for a frame that is not a data frame. */
  function Payloads(frames: seq<string>): (r: seq<Option<string>>)
    ensures |r| == |frames|
    ensures forall i | 0 <= i < |frames| :: r[i] == DataPayload(frames[i])
  {
    if frames == [] then [] else [DataPayload(frames[0])] + Payloads(frames[1..])
  }

  lemma {:induction false} PayloadsAppend(a: seq<string>, b: seq<string>)
    ensures Payloads(a + b) == Payloads(a) + Payloads(b)
  {
    if a == [] {
      assert a + b == b;
    } else {
      assert (a + b)[0] == a[0] && (a + b)[1..] == a[1..] + b;
      PayloadsAppend(a[1..], b);
    }
  }

  /** One more read appends its complete frames. */
  lemma FeedAllStep(chunks: seq<string>, k: int)
    requires 0 <= k < |chunks|
    ensures FeedAll(chunks[..k + 1]).frames
         == FeedAll(chunks[..k]).frames + Feed(FeedAll(chunks[..k]).carry, chunks[k]).frames
    ensures FeedAll(chunks[..k + 1]).carry == Feed(FeedAll(chunks[..k]).carry, chunks[k]).carry
  {
    assert chunks[..k + 1][..k] == chunks[..k];
  }

  /** An earlier read's frames begin the frames of all reads. */
  lemma {:induction false} FeedAllPrefix(chunks: seq<string>, k: nat)
    requires k <= |chunks|
    ensures FeedAll(chunks[..k]).frames <= FeedAll(chunks).frames
    decreases |chunks| - k
  {
    if k < |chunks| {
      FeedAllPrefix(chunks, k + 1);
      FeedAllStep(chunks, k);
    } else {
      assert chunks[..k] == chunks;
    }
  }
}
