/** The performance gate: the latencies of the collected results are
    summarised by their nearest-rank 95th percentile, which is compared with
    the threshold of the baseline file. The percentile is taken from an
    ascending copy, so the samples themselves are left as they are. */
module PerfBaseline {
  import opened Util

  const DefaultThresholdMs := 2000

  predicate Ascending(s: seq<int>) {
    forall i, j | 0 <= i < j < |s| :: s[i] <= s[j]
  }

  /** Places `x` before the first element of `s` that is not smaller. */
  function Insert(x: int, s: seq<int>): seq<int> {
    if s == [] || x <= s[0] then [x] + s else [s[0]] + Insert(x, s[1..])
  }

  /** `arr.slice().sort((a, b) => a - b)` */
  function SortAscending(s: seq<int>): seq<int> {
    if s == [] then [] else Insert(s[0], SortAscending(s[1..]))
  }

  lemma {:induction false} InsertPerm(x: int, s: seq<int>)
    ensures multiset(Insert(x, s)) == multiset{x} + multiset(s)
  {
    if s != [] && x > s[0] {
      InsertPerm(x, s[1..]);
      assert s == [s[0]] + s[1..];
    }
  }

  lemma {:induction false} InsertAscending(x: int, s: seq<int>)
    requires Ascending(s)
    ensures Ascending(Insert(x, s))
  {
    if s != [] && x > s[0] {
      InsertAscending(x, s[1..]);
      InsertPerm(x, s[1..]);
      var r := Insert(x, s[1..]);
      forall k | 0 <= k < |r| ensures s[0] <= r[k] {
        assert r[k] in multiset(r);
      }
    }
  }

  /** The sorted copy is ascending and holds the same samples. */
  lemma SortSpec(s: seq<int>)
    ensures Ascending(SortAscending(s))
    ensures multiset(SortAscending(s)) == multiset(s)
    ensures |SortAscending(s)| == |s|
  {
    SortAscendingSorted(s);
    SortPerm(s);
    assert |SortAscending(s)| == |multiset(SortAscending(s))|;
  }

  lemma {:induction false} SortAscendingSorted(s: seq<int>)
    ensures Ascending(SortAscending(s))
  {
    if s != [] {
      SortAscendingSorted(s[1..]);
      InsertAscending(s[0], SortAscending(s[1..]));
    }
  }

  lemma {:induction false} SortPerm(s: seq<int>)
    ensures multiset(SortAscending(s)) == multiset(s)
  {
    if s != [] {
      SortPerm(s[1..]);
      InsertPerm(s[0], SortAscending(s[1..]));
      assert s == [s[0]] + s[1..];
    }
  }

  /** `Math.ceil(a / 100)` */
  function CeilDiv100(a: int): (r: int)
    ensures 100 * (r - 1) < a <= 100 * r
  {
    -((-a) / 100)
  }

  /** The index read from the sorted copy of `n` samples:
      `Math.ceil((p / 100) * n) - 1`, clamped to `0 .. n - 1`. */
  function RankIndex(n: nat, p: int): (r: nat)
    requires n > 0
    ensures r < n
  {
    Clamp(CeilDiv100(p * n) - 1, 0, n - 1)
  }

  /** `percentile(arr, p)`: `null` for no samples. */
  function Percentile(s: seq<int>, p: int): (r: Option<int>)
    ensures r == None <==> s == []
  {
    if s == [] then None
    else
      SortSpec(s);
      Some(SortAscending(s)[RankIndex(|s|, p)])
  }

  /** The percentile is one of the samples. */
  lemma PercentileIsSample(s: seq<int>, p: int)
    requires s != []
    ensures Percentile(s, p).value in s
  {
    SortSpec(s);
    var t := SortAscending(s);
    assert t[RankIndex(|s|, p)] in multiset(t);
  }

  /** The 100th percentile is the largest sample. */
  lemma HundredthIsMax(s: seq<int>)
    requires s != []
    ensures forall x | x in s :: x <= Percentile(s, 100).value
  {
    SortSpec(s);
    var t := SortAscending(s);
    assert RankIndex(|s|, 100) == |s| - 1;
    forall x | x in s ensures x <= t[|t| - 1] {
      assert x in multiset(t);
      var i :| 0 <= i < |t| && t[i] == x;
    }
  }

  /** A higher percentile is never smaller. */
  lemma Monotone(s: seq<int>, p: int, q: int)
    requires s != [] && p <= q
    ensures Percentile(s, p).value <= Percentile(s, q).value
  {
    SortSpec(s);
    RankIndexMonotone(|s|, p, q);
    var t := SortAscending(s);
    var i, j := RankIndex(|s|, p), RankIndex(|s|, q);
    if i < j {
      assert t[i] <= t[j];
    }
  }

  lemma RankIndexMonotone(n: nat, p: int, q: int)
    requires n > 0 && p <= q
    ensures RankIndex(n, p) <= RankIndex(n, q)
  {
    MulMonotone(p, q, n);
    CeilDiv100Monotone(p * n, q * n);
  }

  lemma MulMonotone(p: int, q: int, n: nat)
    requires p <= q
    ensures p * n <= q * n
  {
    assert q * n - p * n == (q - p) * n;
  }

  lemma CeilDiv100Monotone(a: int, b: int)
    requires a <= b
    ensures CeilDiv100(a) <= CeilDiv100(b)
  {
  }

  /** How many samples lie above `t`. */
  function CountAbove(s: seq<int>, t: int): (r: nat)
    ensures r <= |s|
  {
    if s == [] then 0 else (if s[0] > t then 1 else 0) + CountAbove(s[1..], t)
  }

  lemma {:induction false} CountAboveInsert(x: int, s: seq<int>, t: int)
    ensures CountAbove(Insert(x, s), t) == (if x > t then 1 else 0) + CountAbove(s, t)
  {
    if s != [] && x > s[0] {
      CountAboveInsert(x, s[1..], t);
    }
  }

  /** Sorting does not change how many samples lie above a value. */
  lemma {:induction false} CountAboveSort(s: seq<int>, t: int)
    ensures CountAbove(SortAscending(s), t) == CountAbove(s, t)
  {
    if s != [] {
      CountAboveSort(s[1..], t);
      CountAboveInsert(s[0], SortAscending(s[1..]), t);
    }
  }

  /** In an ascending sequence whose first element is above `t`, all are. */
  lemma {:induction false} AllAbove(s: seq<int>, t: int)
    requires Ascending(s) && s != []
    ensures s[0] > t <==> CountAbove(s, t) == |s|
  {
    if |s| > 1 {
      AllAbove(s[1..], t);
      assert s[0] <= s[1];
    }
  }

  /** In an ascending sequence, the element at index `i` is above `t` iff
      at least the `|s| - i` elements from `i` on are. */
  lemma {:induction false} AboveAt(s: seq<int>, i: nat, t: int)
    requires Ascending(s) && i < |s|
    ensures s[i] > t <==> CountAbove(s, t) >= |s| - i
  {
    if i == 0 {
      AllAbove(s, t);
    } else {
      AboveAt(s[1..], i - 1, t);
      AllAbove(s, t);
    }
  }

  /** The percentile is above `t` iff at least `n - k` of the `n` samples
      are, `k` being the index read from the sorted copy. */
  lemma PercentileAbove(s: seq<int>, p: int, t: int)
    requires s != []
    ensures Percentile(s, p).value > t <==> CountAbove(s, t) >= |s| - RankIndex(|s|, p)
  {
    SortSpec(s);
    AboveAt(SortAscending(s), RankIndex(|s|, p), t);
    CountAboveSort(s, t);
  }

  /** The parts of the baseline file that matter; `None` for a threshold
      field that is absent. */
  datatype Baseline = Baseline(p95ThresholdMs: Option<int>)

  /** The threshold in force: 2000 ms when there is no baseline file, the
      file's field otherwise. */
  function Threshold(file: Option<Baseline>): (r: Option<int>)
    ensures file == None ==> r == Some(DefaultThresholdMs)
    ensures file.Some? ==> r == file.value.p95ThresholdMs
  {
    if file.None? then Some(DefaultThresholdMs) else file.value.p95ThresholdMs
  }

  datatype Verdict = Skipped | Passed(p95: int) | Regression(p95: int, thresholdMs: int)

  /** `main` after the results have been read: no latencies skips the
      comparison; otherwise a p95 above the threshold is a regression (exit
      code 1). Comparing with an absent field is false, so it passes. */
  function Decide(latencies: seq<int>, file: Option<Baseline>): (r: Verdict)
    ensures r.Skipped? <==> latencies == []
    ensures !r.Skipped? ==> r.p95 in latencies
    ensures r.Regression? ==> r.p95 > r.thresholdMs
  {
    if latencies == [] then Skipped
    else
      PercentileIsSample(latencies, 95);
      var p95 := Percentile(latencies, 95).value;
      var t := Threshold(file);
      if t.Some? && p95 > t.value then Regression(p95, t.value) else Passed(p95)
  }

  /** A regression is reported iff the p95 exceeds the threshold in force;
      equivalently iff at least `n - k` samples exceed it, with `k` the rank
      index for 95. */
  lemma RegressionIff(latencies: seq<int>, file: Option<Baseline>)
    ensures Decide(latencies, file).Regression? <==>
      latencies != [] && Threshold(file).Some? && Percentile(latencies, 95).value > Threshold(file).value
    ensures latencies != [] && Threshold(file).Some? ==>
      (Decide(latencies, file).Regression? <==>
        CountAbove(latencies, Threshold(file).value) >= |latencies| - RankIndex(|latencies|, 95))
  {
    if latencies != [] && Threshold(file).Some? {
      PercentileAbove(latencies, 95, Threshold(file).value);
    }
  }

  /** Without a baseline file, twenty samples of which one is above 2000 ms
      pass, and two above it fail. */
  lemma TwentySamples(below: int, above: int)
    requires below <= DefaultThresholdMs < above
    ensures Decide(Repeat(below, 19) + [above], None).Passed?
    ensures Decide(Repeat(below, 18) + [above, above], None).Regression?
  {
    var one := Repeat(below, 19) + [above];
    var two := Repeat(below, 18) + [above, above];
    assert RankIndex(20, 95) == 18;
    assert CountAbove(one, 2000) == 1 by { CountOfRun(19, below, [above], 2000); }
    assert CountAbove(two, 2000) == 2 by { CountOfRun(18, below, [above, above], 2000); }
    RegressionIff(one, None);
    RegressionIff(two, None);
  }

  /** `n` copies of `x`. */
  function Repeat(x: int, n: nat): (r: seq<int>)
    ensures |r| == n
  {
    if n == 0 then [] else [x] + Repeat(x, n - 1)
  }

  lemma {:induction false} CountOfRun(n: nat, x: int, rest: seq<int>, t: int)
    requires x <= t
    ensures CountAbove(Repeat(x, n) + rest, t) == CountAbove(rest, t)
  {
    if n > 0 {
      var s := Repeat(x, n) + rest;
      assert s[0] == x;
      assert s[1..] == Repeat(x, n - 1) + rest;
      assert CountAbove(s, t) == CountAbove(s[1..], t);
      CountOfRun(n - 1, x, rest, t);
    } else {
      assert Repeat(x, n) + rest == rest;
    }
  }

  /** A baseline file without the threshold field never reports a
      regression. */
  lemma MissingFieldPasses(latencies: seq<int>)
    ensures !Decide(latencies, Some(Baseline(None))).Regression?
  {
  }

  /** The latencies of the result files, in order, skipping files that do
      not parse and files whose `latency` is not a number (`None`). */
  function Latencies(results: seq<Option<int>>): (r: seq<int>)
    ensures |r| <= |results|
  {
    if results == [] then []
    else (if results[0].Some? then [results[0].value] else []) + Latencies(results[1..])
  }

  lemma {:induction false} LatenciesSnoc(results: seq<Option<int>>, x: Option<int>)
    ensures Latencies(results + [x]) == Latencies(results) + (if x.Some? then [x.value] else [])
  {
    if results != [] {
      assert (results + [x])[1..] == results[1..] + [x];
      LatenciesSnoc(results[1..], x);
    } else {
      assert results + [x] == [x];
    }
  }

  /** A latency is collected iff some result file carries it. */
  lemma {:induction false} LatenciesMembers(results: seq<Option<int>>, v: int)
    ensures v in Latencies(results) <==> Some(v) in results
  {
    if results != [] {
      LatenciesMembers(results[1..], v);
      assert results == [results[0]] + results[1..];
    }
  }

  /** The `for (const f of files)` loop that pushes each numeric latency. */
  method CollectLatencies(results: seq<Option<int>>) returns (latencies: seq<int>)
    ensures latencies == Latencies(results)
  {
    latencies := [];
    var k := 0;
    while k < |results|
      invariant 0 <= k <= |results|
      invariant latencies == Latencies(results[..k])
    {
      assert results[..k + 1] == results[..k] + [results[k]];
      LatenciesSnoc(results[..k], results[k]);
      if results[k].Some? {
        latencies := latencies + [results[k].value];
      }
      k := k + 1;
    }
    assert results[..k] == results;
  }
}
