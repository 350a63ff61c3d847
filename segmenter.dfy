/** The input segmenter: split text at whitespace runs, keeping the runs, and
    greedily pack the tokens into segments of at most `maxLen` characters,
    slicing a token that does not fit into an empty segment. */
module Segmenter {
  import opened Util

  const DefaultMaxLen := 1000

  /** The end of the span of whitespace (`ws`) or non-whitespace (`!ws`)
      characters that starts at `i`. */
  function SpanEnd(s: string, i: nat, ws: bool): (r: nat)
    requires i <= |s|
    ensures i <= r <= |s|
    ensures r == |s| || IsJsWhitespace(s[r]) != ws
    ensures i < |s| && IsJsWhitespace(s[i]) == ws ==> r > i
    decreases |s| - i
  {
    if i == |s| || IsJsWhitespace(s[i]) != ws then i else SpanEnd(s, i + 1, ws)
  }

  /** Every character of the span is of the kind asked for. */
  lemma {:induction false} SpanEndSpec(s: string, i: nat, ws: bool)
    requires i <= |s|
    ensures forall j | i <= j < SpanEnd(s, i, ws) :: IsJsWhitespace(s[j]) == ws
    decreases |s| - i
  {
    if i < |s| && IsJsWhitespace(s[i]) == ws {
      SpanEndSpec(s, i + 1, ws);
    }
  }

  /** A stretch of one kind that ends at the end of the text or at a
      character of the other kind is the span. */
  lemma {:induction false} SpanEndAt(s: string, i: nat, ws: bool, e: nat)
    requires i <= e <= |s|
    requires forall j | i <= j < e :: IsJsWhitespace(s[j]) == ws
    requires e == |s| || IsJsWhitespace(s[e]) != ws
    ensures SpanEnd(s, i, ws) == e
    decreases e - i
  {
    if i < e {
      SpanEndAt(s, i + 1, ws, e);
    }
  }

  /** The tokens of `s[i..]`: the words between whitespace runs, each run
      kept as a token of its own between them. The first and last word may
      be empty. */
  function TokensFrom(s: string, i: nat): (r: seq<string>)
    requires i <= |s|
    ensures |r| % 2 == 1
    decreases |s| - i
  {
    var j := SpanEnd(s, i, false);
    if j == |s| then [s[i..]]
    else
      var k := SpanEnd(s, j, true);
      [s[i..j], s[j..k]] + TokensFrom(s, k)
  }

  /** `s.split(/(\s+)/)` */
  function Tokens(s: string): (r: seq<string>)
    ensures |r| % 2 == 1
  {
    TokensFrom(s, 0)
  }

  predicate IsWord(w: string) {
    forall j | 0 <= j < |w| :: !IsJsWhitespace(w[j])
  }

  predicate IsRun(w: string) {
    w != "" && forall j | 0 <= j < |w| :: IsJsWhitespace(w[j])
  }

  /** A word, then whitespace runs and words in turn, ending with a word. */
  ghost predicate Alternates(ts: seq<string>) {
    |ts| >= 1 && IsWord(ts[0]) && (|ts| == 1 || (|ts| >= 3 && IsRun(ts[1]) && Alternates(ts[2..])))
  }

  /** Words sit at the even positions and whitespace runs at the odd ones. */
  lemma {:induction false} AlternatesAt(ts: seq<string>, i: nat)
    requires Alternates(ts) && i < |ts|
    ensures if i % 2 == 0 then IsWord(ts[i]) else IsRun(ts[i])
  {
    if i >= 2 {
      AlternatesAt(ts[2..], i - 2);
      assert ts[i] == ts[2..][i - 2];
    }
  }

  /** The slice of a span is a word, or a run when it is not empty. */
  lemma {:induction false} SpanSlice(s: string, i: nat, ws: bool)
    requires i <= |s|
    ensures !ws ==> IsWord(s[i..SpanEnd(s, i, ws)])
    ensures ws && SpanEnd(s, i, ws) > i ==> IsRun(s[i..SpanEnd(s, i, ws)])
  {
    SpanEndSpec(s, i, ws);
    var e := SpanEnd(s, i, ws);
    assert forall j | 0 <= j < e - i :: s[i..e][j] == s[i + j];
  }

  lemma {:induction false} AlternatesCons(w: string, run: string, rest: seq<string>)
    requires IsWord(w) && IsRun(run) && Alternates(rest)
    ensures Alternates([w, run] + rest)
  {
    assert ([w, run] + rest)[2..] == rest;
  }

  /** The tokens are exactly the maximal runs of the regular expression:
      words hold no whitespace and the runs between them are non-empty
      whitespace. */
  lemma {:induction false} TokensFromAlternate(s: string, i: nat)
    requires i <= |s|
    ensures Alternates(TokensFrom(s, i))
    decreases |s| - i
  {
    var j := SpanEnd(s, i, false);
    SpanSlice(s, i, false);
    if j == |s| {
    } else {
      var k := SpanEnd(s, j, true);
      SpanSlice(s, j, true);
      TokensFromAlternate(s, k);
      AlternatesCons(s[i..j], s[j..k], TokensFrom(s, k));
    }
  }

  lemma TokensAlternate(s: string)
    ensures Alternates(Tokens(s))
  {
    TokensFromAlternate(s, 0);
  }

  /** Joining the tokens of `s[i..]` gives back `s[i..]`. */
  lemma {:induction false} TokensFromJoin(s: string, i: nat)
    requires i <= |s|
    ensures Concat(TokensFrom(s, i)) == s[i..]
    decreases |s| - i
  {
    var j := SpanEnd(s, i, false);
    if j == |s| {
      ConcatSnoc([], s[i..]);
      assert [] + [s[i..]] == [s[i..]];
    } else {
      var k := SpanEnd(s, j, true);
      TokensFromJoin(s, k);
      JoinPair(s[i..j], s[j..k], TokensFrom(s, k));
      SliceJoin(s, i, j, k);
    }
  }

  lemma {:induction false} JoinPair(x: string, y: string, rest: seq<string>)
    ensures Concat([x, y] + rest) == x + (y + Concat(rest))
  {
    assert [x, y] + rest == [x] + ([y] + rest);
    ConcatCons(y, rest);
    ConcatCons(x, [y] + rest);
  }

  lemma SliceJoin(s: string, i: nat, j: nat, k: nat)
    requires i <= j <= k <= |s|
    ensures s[i..j] + (s[j..k] + s[k..]) == s[i..]
  {
  }

  /** Joining the tokens gives back the text. */
  lemma TokensJoin(s: string)
    ensures Concat(Tokens(s)) == s
  {
    TokensFromJoin(s, 0);
    assert s[0..] == s;
  }

  /** Text without whitespace is a single token. */
  lemma NoWhitespaceOneToken(s: string)
    requires forall i | 0 <= i < |s| :: !IsJsWhitespace(s[i])
    ensures Tokens(s) == [s]
  {
    SpanEndAt(s, 0, false, |s|);
    assert s[0..] == s;
  }

  /** The loop state: the segments pushed so far and the one being filled. */
  datatype Packing = Packing(segments: seq<string>, current: string)

  /** One iteration of the loop over the tokens: pushed segments stay as
      they are, and at most one is added, exactly when the token does not
      fit beside the current one. */
  function Step(p: Packing, w: string, maxLen: int): (r: Packing)
    ensures p.segments <= r.segments && |r.segments| <= |p.segments| + 1
    ensures r.segments == p.segments <==> |p.current| + |w| <= maxLen
  {
    if |p.current| + |w| > maxLen then
      if |p.current| > 0 then Packing(p.segments + [p.current], w)
      else Packing(p.segments + [JsSlice(w, 0, maxLen)], JsSlice(w, maxLen, |w|))
    else
      Packing(p.segments, p.current + w)
  }

  /** The loop state after the given tokens; each token pushes at most one
      segment. */
  function Pack(ws: seq<string>, maxLen: int): (r: Packing)
    ensures |r.segments| <= |ws|
  {
    if ws == [] then Packing([], "") else Step(Pack(ws[..|ws| - 1], maxLen), ws[|ws| - 1], maxLen)
  }

  /** The final push of a non-empty current segment. */
  function Finish(p: Packing): seq<string> {
    if |p.current| > 0 then p.segments + [p.current] else p.segments
  }

  /** `segmentInput(input, maxLen)`; joining the segments in order gives
      back the input exactly. */
  function Segments(input: string, maxLen: int): (r: seq<string>)
    ensures Concat(r) == input
  {
    if input == "" || |input| <= maxLen then
      ConcatSnoc([], input);
      assert [] + [input] == [input];
      [input]
    else
      var p := Pack(Tokens(input), maxLen);
      PackJoin(Tokens(input), maxLen);
      TokensJoin(input);
      if |p.current| > 0 then ConcatSnoc(p.segments, p.current); Finish(p) else Finish(p)
  }

  method SegmentInput(input: string, maxLen: int) returns (segments: seq<string>)
    ensures segments == Segments(input, maxLen)
  {
    if input == "" || |input| <= maxLen {
      return [input];
    }
    var words := Tokens(input);
    segments := [];
    var current := "";
    var i := 0;
    while i < |words|
      invariant 0 <= i <= |words|
      invariant Packing(segments, current) == Pack(words[..i], maxLen)
    {
      var w := words[i];
      assert words[..i + 1][..i] == words[..i];
      if |current| + |w| > maxLen {
        if |current| > 0 {
          segments := segments + [current];
          current := w;
        } else {
          segments := segments + [JsSlice(w, 0, maxLen)];
          current := JsSlice(w, maxLen, |w|);
        }
      } else {
        current := current + w;
      }
      i := i + 1;
    }
    assert words[..i] == words;
    if |current| > 0 {
      segments := segments + [current];
    }
  }

  /** Empty or short input comes back as the only segment. */
  lemma ShortInputUnchanged(input: string, maxLen: int)
    requires input == "" || |input| <= maxLen
    ensures Segments(input, maxLen) == [input]
  {
  }

  /** Packing loses and reorders nothing. */
  lemma {:induction false} PackJoin(ws: seq<string>, maxLen: int)
    ensures Concat(Pack(ws, maxLen).segments) + Pack(ws, maxLen).current == Concat(ws)
  {
    if ws != [] {
      var front := ws[..|ws| - 1];
      var w := ws[|ws| - 1];
      assert ws == front + [w];
      PackJoin(front, maxLen);
      ConcatSnoc(front, w);
      StepJoin(Pack(front, maxLen), w, maxLen);
    }
  }

  /** One step appends the token to what the state joins to. */
  lemma {:induction false} StepJoin(p: Packing, w: string, maxLen: int)
    ensures Concat(Step(p, w, maxLen).segments) + Step(p, w, maxLen).current == Concat(p.segments) + p.current + w
  {
    if |p.current| + |w| > maxLen {
      if |p.current| > 0 {
        ConcatSnoc(p.segments, p.current);
      } else {
        ConcatSnoc(p.segments, JsSlice(w, 0, maxLen));
        SliceSplits(w, maxLen);
      }
    }
  }

  /** When every token fits, so does every segment and the one being filled. */
  lemma {:induction false} PackBounded(ws: seq<string>, maxLen: int)
    requires maxLen >= 0
    requires forall i | 0 <= i < |ws| :: |ws[i]| <= maxLen
    ensures forall i | 0 <= i < |Pack(ws, maxLen).segments| :: |Pack(ws, maxLen).segments[i]| <= maxLen
    ensures |Pack(ws, maxLen).current| <= maxLen
  {
    if ws != [] {
      var front := ws[..|ws| - 1];
      var w := ws[|ws| - 1];
      assert forall i | 0 <= i < |front| :: front[i] == ws[i];
      PackBounded(front, maxLen);
      var p := Pack(front, maxLen);
      assert Pack(ws, maxLen) == Step(p, w, maxLen);
      assert |w| <= maxLen;
      if |p.current| + |w| > maxLen {
        assert |p.current| > 0;
      }
    }
  }

  lemma SegmentsBounded(input: string, maxLen: int)
    requires forall i | 0 <= i < |Tokens(input)| :: |Tokens(input)[i]| <= maxLen
    ensures forall i | 0 <= i < |Segments(input, maxLen)| :: |Segments(input, maxLen)[i]| <= maxLen
  {
    if input == "" {
      assert Tokens(input) == [""];
    } else if |input| > maxLen {
      assert |Tokens(input)[0]| <= maxLen;
      PackBounded(Tokens(input), maxLen);
    }
  }

  /** A token too long for an empty segment is cut so that the piece pushed
      has exactly `maxLen` characters; the rest becomes the current segment. */
  lemma CutIsExactlyMaxLen(segments: seq<string>, w: string, maxLen: int)
    requires 0 <= maxLen < |w|
    ensures Step(Packing(segments, ""), w, maxLen) == Packing(segments + [w[..maxLen]], w[maxLen..])
    ensures |w[..maxLen]| == maxLen
  {
  }

  /** With a positive limit, packing never pushes an empty segment. */
  lemma {:induction false} PackNonEmpty(ws: seq<string>, maxLen: int)
    requires maxLen >= 1
    ensures forall i | 0 <= i < |Pack(ws, maxLen).segments| :: Pack(ws, maxLen).segments[i] != ""
  {
    if ws != [] {
      PackNonEmpty(ws[..|ws| - 1], maxLen);
      var p := Pack(ws[..|ws| - 1], maxLen);
      var w := ws[|ws| - 1];
      if |p.current| + |w| > maxLen && |p.current| == 0 {
        assert |JsSlice(w, 0, maxLen)| == maxLen;
      }
    }
  }

  /** Long input with a positive limit yields no empty segment. */
  lemma LongInputNoEmptySegment(input: string, maxLen: int)
    requires maxLen >= 1 && |input| > maxLen
    ensures forall i | 0 <= i < |Segments(input, maxLen)| :: Segments(input, maxLen)[i] != ""
  {
    PackNonEmpty(Tokens(input), maxLen);
  }

  /** A word of more than twice the limit yields a segment over the limit:
      only the first `maxLen` characters are cut off, and the rest becomes
      the current segment unchecked. */
  lemma LongWordOverflows()
    ensures Segments("abcdefg", 2) == ["ab", "cdefg"]
    ensures |Segments("abcdefg", 2)[1]| > 2
  {
    NoWhitespaceOneToken("abcdefg");
    assert Pack(["abcdefg"], 2) == Step(Pack([], 2), "abcdefg", 2);
    assert JsSlice("abcdefg", 0, 2) == "ab";
    assert JsSlice("abcdefg", 2, 7) == "cdefg";
  }

  /** A word that follows a pushed segment overflows too: it becomes the
      current segment whole, with no length check. */
  lemma LongWordAfterSegmentOverflows()
    ensures Segments("a bcdef", 2) == ["a ", "bcdef"]
    ensures |Segments("a bcdef", 2)[1]| > 2
  {
    assert "a" + " " + "bcdef" == "a bcdef";
    assert "a" + " " == "a ";
    WordRunLongWord("a", " ", "bcdef", 2);
  }

  /** A word and a run that fit, followed by a word that does not: the word
      is pushed after them as one segment, however long it is. */
  lemma {:induction false} WordRunLongWord(a: string, run: string, w: string, maxLen: int)
    requires IsWord(a) && IsRun(run) && IsWord(w)
    requires |a| + |run| <= maxLen < |a| + |run| + |w|
    ensures Segments(a + run + w, maxLen) == [a + run, w]
  {
    ThreeTokens(a, run, w);
    ThreePack(a, run, w, maxLen);
  }

  lemma {:induction false} ThreeTokens(a: string, run: string, w: string)
    requires IsWord(a) && IsRun(run) && IsWord(w)
    ensures Tokens(a + run + w) == [a, run, w]
  {
    var s := a + run + w;
    var j, k := |a|, |a| + |run|;
    assert forall t | 0 <= t < j :: s[t] == a[t];
    assert forall t | j <= t < k :: s[t] == run[t - j];
    assert forall t | k <= t < |s| :: s[t] == w[t - k];
    SpanEndAt(s, 0, false, j);
    SpanEndAt(s, j, true, k);
    SpanEndAt(s, k, false, |s|);
    assert s[0..j] == a && s[j..k] == run && s[k..] == w;
    assert TokensFrom(s, k) == [w];
    assert TokensFrom(s, 0) == [a, run] + [w];
  }

  lemma {:induction false} ThreePack(a: string, run: string, w: string, maxLen: int)
    requires 0 < |a| + |run| <= maxLen < |a| + |run| + |w|
    ensures Pack([a, run, w], maxLen) == Packing([a + run], w)
  {
    assert [a][..0] == [];
    assert "" + a == a;
    assert Pack([a], maxLen) == Packing([], a);
    assert [a, run][..1] == [a];
    assert Pack([a, run], maxLen) == Packing([], a + run);
    assert [a, run, w][..2] == [a, run];
    assert [] + [a + run] == [a + run];
  }


  /** `w` cut into `maxLen`-character pieces, and the remainder that fits. */
  function Cut(w: string, maxLen: int): (r: Packing)
    requires maxLen >= 1
    ensures |r.current| <= maxLen
    decreases |w|
  {
    if |w| <= maxLen then Packing([], w)
    else
      var rest := Cut(w[maxLen..], maxLen);
      Packing([w[..maxLen]] + rest.segments, rest.current)
  }

  /** The pieces of a cut are exactly `maxLen` long, and with the remainder
      they join to the token. */
  lemma CutSpec(w: string, maxLen: int)
    requires maxLen >= 1
    ensures forall i | 0 <= i < |Cut(w, maxLen).segments| :: |Cut(w, maxLen).segments[i]| == maxLen
    ensures Concat(Cut(w, maxLen).segments) + Cut(w, maxLen).current == w
  {
    CutPieces(w, maxLen);
    CutJoin(w, maxLen);
  }

  lemma {:induction false} CutPieces(w: string, maxLen: int)
    requires maxLen >= 1
    ensures forall i | 0 <= i < |Cut(w, maxLen).segments| :: |Cut(w, maxLen).segments[i]| == maxLen
    decreases |w|
  {
    if |w| > maxLen {
      var rest := Cut(w[maxLen..], maxLen);
      CutPieces(w[maxLen..], maxLen);
      assert Cut(w, maxLen).segments == [w[..maxLen]] + rest.segments;
    }
  }

  /** A piece put in front of parts that join to `tail` joins to
      `head + tail`. */
  lemma JoinPiece(head: string, tail: string, parts: seq<string>, last: string)
    requires Concat(parts) + last == tail
    ensures Concat([head] + parts) + last == head + tail
  {
    ConcatCons(head, parts);
    assert (head + Concat(parts)) + last == head + (Concat(parts) + last);
  }

  lemma {:induction false} CutJoin(w: string, maxLen: int)
    requires maxLen >= 1
    ensures Concat(Cut(w, maxLen).segments) + Cut(w, maxLen).current == w
    decreases |w|
  {
    if |w| > maxLen {
      CutJoin(w[maxLen..], maxLen);
      CutJoinStep(w, maxLen);
    } else {
      assert Concat([]) == "";
    }
  }

  /** A cut of a long token is its first piece in front of the cut of the
      rest. */
  lemma CutJoinStep(w: string, maxLen: int)
    requires maxLen >= 1 && |w| > maxLen
    requires Concat(Cut(w[maxLen..], maxLen).segments) + Cut(w[maxLen..], maxLen).current == w[maxLen..]
    ensures Concat(Cut(w, maxLen).segments) + Cut(w, maxLen).current == w
  {
    var head, tail := w[..maxLen], w[maxLen..];
    var rest := Cut(tail, maxLen);
    calc {
      Concat(Cut(w, maxLen).segments) + Cut(w, maxLen).current;
      { assert Cut(w, maxLen) == Packing([head] + rest.segments, rest.current); }
      Concat([head] + rest.segments) + rest.current;
      { JoinPiece(head, tail, rest.segments, rest.current); }
      head + tail;
      { assert w == head + tail; }
      w;
    }
  }

  /** The step as evidently intended: a token that does not fit is cut up
      entirely rather than once. */
  function CutStep(p: Packing, w: string, maxLen: int): Packing
    requires maxLen >= 1
  {
    if |p.current| + |w| > maxLen then
      var pushed := if |p.current| > 0 then p.segments + [p.current] else p.segments;
      var c := Cut(w, maxLen);
      Packing(pushed + c.segments, c.current)
    else
      Packing(p.segments, p.current + w)
  }

  function CutPack(ws: seq<string>, maxLen: int): Packing
    requires maxLen >= 1
  {
    if ws == [] then Packing([], "") else CutStep(CutPack(ws[..|ws| - 1], maxLen), ws[|ws| - 1], maxLen)
  }

  function BoundedSegments(input: string, maxLen: int): seq<string>
    requires maxLen >= 1
  {
    if input == "" || |input| <= maxLen then [input] else Finish(CutPack(Tokens(input), maxLen))
  }

  lemma {:induction false} CutPackBounded(ws: seq<string>, maxLen: int)
    requires maxLen >= 1
    ensures forall i | 0 <= i < |CutPack(ws, maxLen).segments| :: |CutPack(ws, maxLen).segments[i]| <= maxLen
    ensures |CutPack(ws, maxLen).current| <= maxLen
  {
    if ws != [] {
      var front := ws[..|ws| - 1];
      var w := ws[|ws| - 1];
      CutPackBounded(front, maxLen);
      var p := CutPack(front, maxLen);
      assert CutPack(ws, maxLen) == CutStep(p, w, maxLen);
      if |p.current| + |w| > maxLen {
        var pushed := if |p.current| > 0 then p.segments + [p.current] else p.segments;
        var c := Cut(w, maxLen);
        CutSpec(w, maxLen);
        assert CutPack(ws, maxLen).segments == pushed + c.segments;
        assert forall i | 0 <= i < |pushed| :: |pushed[i]| <= maxLen;
      }
    }
  }

  lemma {:induction false} CutPackJoin(ws: seq<string>, maxLen: int)
    requires maxLen >= 1
    ensures Concat(CutPack(ws, maxLen).segments) + CutPack(ws, maxLen).current == Concat(ws)
  {
    if ws != [] {
      var front, w := ws[..|ws| - 1], ws[|ws| - 1];
      CutPackJoin(front, maxLen);
      CutStepJoin(CutPack(front, maxLen), w, maxLen, Concat(front));
      ConcatSnoc(front, w);
      assert ws == front + [w];
    }
  }

  /** One step of the packing appends the token to what the state joins
      to. */
  lemma CutStepJoin(p: Packing, w: string, maxLen: int, joined: string)
    requires maxLen >= 1 && Concat(p.segments) + p.current == joined
    ensures Concat(CutStep(p, w, maxLen).segments) + CutStep(p, w, maxLen).current == joined + w
  {
    if |p.current| + |w| > maxLen {
      var pushed := if |p.current| > 0 then p.segments + [p.current] else p.segments;
      assert Concat(pushed) == joined by {
        if |p.current| > 0 {
          ConcatSnoc(p.segments, p.current);
        }
      }
      var c := Cut(w, maxLen);
      assert CutStep(p, w, maxLen) == Packing(pushed + c.segments, c.current);
      CutSpec(w, maxLen);
      ConcatAppend(pushed, c.segments);
      JoinAfter(Concat(pushed), Concat(c.segments), c.current);
    } else {
      JoinAfter(Concat(p.segments), p.current, w);
    }
  }

  lemma JoinAfter(a: string, b: string, c: string)
    ensures (a + b) + c == a + (b + c)
  {
  }


  /** With the cut repeated, every segment is within the limit for every
      input, and the segments still join to the input. */
  lemma BoundedSegmentsSound(input: string, maxLen: int)
    requires maxLen >= 1
    ensures forall i | 0 <= i < |BoundedSegments(input, maxLen)| :: |BoundedSegments(input, maxLen)[i]| <= maxLen
    ensures Concat(BoundedSegments(input, maxLen)) == input
  {
    if input == "" || |input| <= maxLen {
      ConcatSnoc([], input);
      assert [] + [input] == [input];
    } else {
      var p := CutPack(Tokens(input), maxLen);
      CutPackBounded(Tokens(input), maxLen);
      CutPackJoin(Tokens(input), maxLen);
      TokensJoin(input);
      if |p.current| > 0 {
        ConcatSnoc(p.segments, p.current);
      }
    }
  }
}
