/**
 * The process-wide metrics collector: five request counters, the last and
 * the running total latency, and a ten-bucket latency histogram from which
 * the 95th and 99th percentiles are estimated.
 *
 * The collector's fields are `std::atomic<long>` statics in the source; the
 * server handles one connection at a time, so they are plain fields of one
 * `Registry` object here, and the ten bucket counters are a fixed-size array.
 */
module Metrics {
  import opened Wrappers
  import opened Strings

  const BucketCount: nat := 10

  /** `bucket_edges`: inclusive upper bounds in milliseconds; the last, 2^60, stands for "no bound". */
  const Edges: seq<int> := [1, 5, 10, 50, 100, 200, 500, 1000, 2000, 0x1000_0000_0000_0000]

  lemma EdgesIncreasing()
    ensures |Edges| == BucketCount
    ensures forall i, j :: 0 <= i < j < |Edges| ==> Edges[i] < Edges[j]
  {
  }

  // ---- the histogram as a value ----

  /** The bucket the scan of `RecordLatency(ms)` stops at, looking from bucket `i` on. */
  function BucketFrom(ms: int, i: nat): (r: Option<nat>)
    requires i <= BucketCount
    requires i > 0 ==> Edges[i - 1] < ms
    ensures r.Some? <==> ms <= Edges[BucketCount - 1]
    ensures r.Some? ==> i <= r.value < BucketCount && ms <= Edges[r.value]
    ensures r.Some? ==> forall j :: i <= j < r.value ==> Edges[j] < ms
    decreases BucketCount - i
  {
    if i == BucketCount then None
    else if ms <= Edges[i] then
      EdgesIncreasing();
      Some(i)
    else BucketFrom(ms, i + 1)
  }

  /**
   * The one bucket a latency of `ms` falls in: the first whose edge is at
   * least `ms`. There is none only above the last edge.
   */
  function BucketOf(ms: int): (r: Option<nat>)
    ensures r.Some? <==> ms <= Edges[BucketCount - 1]
    ensures r.Some? ==> r.value < BucketCount && ms <= Edges[r.value]
    ensures r.Some? ==> forall j :: 0 <= j < r.value ==> Edges[j] < ms
  {
    BucketFrom(ms, 0)
  }

  lemma BucketOfFirst(ms: int, i: nat)
    requires i < BucketCount && ms <= Edges[i] && forall j :: 0 <= j < i ==> Edges[j] < ms
    ensures BucketOf(ms) == Some(i)
  {
  }

  lemma BucketOfAbove(ms: int)
    requires forall j :: 0 <= j < BucketCount ==> Edges[j] < ms
    ensures BucketOf(ms) == None
  {
  }

  function Sum(s: seq<nat>): nat {
    if |s| == 0 then 0 else Sum(s[..|s| - 1]) + s[|s| - 1]
  }

  /** The cumulative count of buckets `0..i`. */
  function Cumulative(b: seq<nat>, i: nat): nat
    requires i < |b|
  {
    Sum(b[..i + 1])
  }

  lemma SumStep(s: seq<nat>, i: nat)
    requires i < |s|
    ensures Cumulative(s, i) == Sum(s[..i]) + s[i]
  {
    assert s[..i + 1][..i] == s[..i];
  }

  lemma {:induction false} SumUpdate(s: seq<nat>, i: nat, v: nat)
    requires i < |s|
    ensures Sum(s[i := v]) == Sum(s) - s[i] + v
  {
    var t := s[i := v];
    if i < |s| - 1 {
      assert t[..|t| - 1] == s[..|s| - 1][i := v];
      SumUpdate(s[..|s| - 1], i, v);
    } else {
      assert t[..|t| - 1] == s[..|s| - 1];
    }
  }

  /** The bucket counters after one `RecordLatency(ms)`. */
  function Bumped(b: seq<nat>, ms: int): seq<nat>
    requires |b| == BucketCount
  {
    match BucketOf(ms)
    case None => b
    case Some(i) => b[i := b[i] + 1]
  }

  /**
   * Recording a latency adds exactly one to exactly one bucket, the first
   * whose edge is at least `ms`, and none above the last edge; no counter
   * goes down.
   */
  lemma BumpedExactlyOne(b: seq<nat>, ms: int)
    requires |b| == BucketCount
    ensures |Bumped(b, ms)| == BucketCount
    ensures Sum(Bumped(b, ms)) == Sum(b) + (if ms <= Edges[BucketCount - 1] then 1 else 0)
    ensures forall j :: 0 <= j < BucketCount ==>
              Bumped(b, ms)[j] == b[j] + (if BucketOf(ms) == Some(j) then 1 else 0)
  {
    match BucketOf(ms)
    case None =>
    case Some(i) => SumUpdate(b, i, b[i] + 1);
  }

  // ---- percentiles ----

  /**
   * `static_cast<long>(p * total)` for a percentile `p = num / den`: the
   * product truncated toward zero, which for non-negative operands is floor.
   */
  function Target(num: nat, den: nat, total: nat): nat
    requires den > 0
  {
    num * total / den
  }

  /**
   * The bucket the percentile scan stops at, looking from bucket `i` on: the
   * first whose cumulative count reaches `target`; the last bucket when none
   * does.
   */
  function ReachFrom(b: seq<nat>, target: int, i: nat): (r: nat)
    requires i < |b|
    ensures i <= r < |b|
    ensures forall j :: i <= j < r ==> Cumulative(b, j) < target
    ensures r < |b| - 1 ==> Cumulative(b, r) >= target
    ensures target <= Sum(b) ==> Cumulative(b, r) >= target
    decreases |b| - i
  {
    if i == |b| - 1 then
      assert b[..i + 1] == b;
      i
    else if Cumulative(b, i) >= target then i
    else ReachFrom(b, target, i + 1)
  }

  /**
   * `Percentile(p)` for `p = num / den`: 0 while every bucket is empty, else
   * the edge of the first bucket whose cumulative count reaches the target.
   */
  function PercentileOf(b: seq<nat>, num: nat, den: nat): int
    requires |b| == BucketCount && den > 0
  {
    var total := Sum(b);
    if total == 0 then 0 else Edges[ReachFrom(b, Target(num, den, total), 0)]
  }

  /** The percentile is 0 on an empty histogram and otherwise one of the ten edges. */
  lemma PercentileIsEdge(b: seq<nat>, num: nat, den: nat)
    requires |b| == BucketCount && den > 0
    ensures Sum(b) == 0 ==> PercentileOf(b, num, den) == 0
    ensures Sum(b) > 0 ==> PercentileOf(b, num, den) in Edges
    ensures Sum(b) > 0 && Target(num, den, Sum(b)) == 0 ==> PercentileOf(b, num, den) == Edges[0]
  {
  }

  /**
   * The least-bucket reading: for a non-empty histogram and `p <= 1`, the
   * percentile is the edge of a bucket `i` whose cumulative count reaches
   * the target while no earlier bucket's does.
   */
  lemma PercentileIsLeastReaching(b: seq<nat>, num: nat, den: nat)
    requires |b| == BucketCount && den > 0 && Sum(b) > 0 && num <= den
    ensures exists i :: 0 <= i < BucketCount && PercentileOf(b, num, den) == Edges[i]
              && Cumulative(b, i) >= Target(num, den, Sum(b))
              && forall j :: 0 <= j < i ==> Cumulative(b, j) < Target(num, den, Sum(b))
  {
    var total := Sum(b);
    MulLe(num, den, total);
    DivUpper(num * total, den, total);
    var i := ReachFrom(b, Target(num, den, total), 0);
    assert PercentileOf(b, num, den) == Edges[i];
  }

  lemma MulLe(x: nat, y: nat, z: nat)
    requires x <= y
    ensures x * z <= y * z
  {
  }

  lemma MulCancel(x: nat, y: nat, d: nat)
    requires d > 0 && x * d <= y * d
    ensures x <= y
  {
    if x > y {
      MulLe(y + 1, x, d);
    }
  }

  lemma DivUpper(x: nat, d: nat, a: nat)
    requires d > 0 && x <= a * d
    ensures x / d <= a
  {
    if x / d > a {
      MulLe(a + 1, x / d, d);
    }
  }

  lemma DivLowerBound(x: nat, d: nat, a: nat)
    requires d > 0 && a * d <= x
    ensures a <= x / d
  {
    if a > x / d {
      MulLe(x / d + 1, a, d);
    }
  }

  /** A larger fraction `n2/d2 >= n1/d1` never gives a smaller target. */
  lemma TargetMonotone(n1: nat, d1: nat, n2: nat, d2: nat, total: nat)
    requires d1 > 0 && d2 > 0 && n1 * d2 <= n2 * d1
    ensures Target(n1, d1, total) <= Target(n2, d2, total)
  {
    var a := n1 * total / d1;
    assert a * d1 <= n1 * total;
    MulLe(a * d1, n1 * total, d2);
    MulLe(n1 * d2, n2 * d1, total);
    assert a * d1 * d2 <= n2 * d1 * total by {
      assert n1 * total * d2 == n1 * d2 * total;
    }
    assert a * d2 * d1 <= n2 * total * d1;
    MulCancel(a * d2, n2 * total, d1);
    DivLowerBound(n2 * total, d2, a);
  }

  lemma {:induction false} ReachFromMonotone(b: seq<nat>, t1: int, t2: int, i: nat)
    requires i < |b| && t1 <= t2
    ensures ReachFrom(b, t1, i) <= ReachFrom(b, t2, i)
    decreases |b| - i
  {
    if i < |b| - 1 && Cumulative(b, i) < t1 {
      ReachFromMonotone(b, t1, t2, i + 1);
    }
  }

  /**
   * The estimate is monotone in the percentile: for `num1/den1 <= num2/den2`
   * the first is never above the second.
   */
  lemma PercentileMonotone(b: seq<nat>, num1: nat, den1: nat, num2: nat, den2: nat)
    requires |b| == BucketCount && den1 > 0 && den2 > 0 && num1 * den2 <= num2 * den1
    ensures PercentileOf(b, num1, den1) <= PercentileOf(b, num2, den2)
  {
    var total := Sum(b);
    if total > 0 {
      TargetMonotone(num1, den1, num2, den2, total);
      ReachFromMonotone(b, Target(num1, den1, total), Target(num2, den2, total), 0);
      EdgesIncreasing();
    }
  }

  lemma P95AtMostP99(b: seq<nat>)
    requires |b| == BucketCount
    ensures PercentileOf(b, 95, 100) <= PercentileOf(b, 99, 100)
  {
    PercentileMonotone(b, 95, 100, 99, 100);
  }

  /**
   * The target is truncated, not rounded up: a histogram holding one sample
   * in the last bucket reports the first edge, 1 ms, as its 95th percentile.
   */
  lemma SingleSlowSampleReportsFirstEdge(ms: int)
    requires Edges[BucketCount - 2] < ms <= Edges[BucketCount - 1]
    ensures PercentileOf(Bumped(seq(BucketCount, _ => 0), ms), 95, 100) == Edges[0]
  {
    var b := Bumped(seq(BucketCount, _ => 0), ms);
    BumpedExactlyOne(seq(BucketCount, _ => 0), ms);
    assert Sum(seq(BucketCount, _ => 0)) == 0 by {
      ZeroSum(BucketCount);
    }
    assert Target(95, 100, 1) == 0;
  }

  lemma {:induction false} ZeroSum(n: nat)
    ensures Sum(seq(n, _ => 0)) == 0
  {
    if n > 0 {
      assert seq(n, _ => 0)[..n - 1] == seq(n - 1, _ => 0);
      ZeroSum(n - 1);
    }
  }

  // ---- the snapshot ----

  /** C++ `/` on `long`: the quotient truncated toward zero. */
  function TruncDiv(a: int, b: int): int
    requires b > 0
  {
    if a >= 0 then a / b else -((-a) / b)
  }

  /** The quotient of a natural number brackets it between two multiples of the divisor. */
  lemma FloorBounds(a: nat, b: int)
    requires b > 0
    ensures 0 <= (a / b) * b <= a < (a / b + 1) * b
  {
    assert a == (a / b) * b + a % b;
    assert (a / b + 1) * b == (a / b) * b + b;
  }

  /**
   * `avg_latency_ms`: the total latency divided by the request counter (not
   * by the number of recorded samples), in integer division; 0 before any
   * request.
   */
  function AverageLatency(totalMs: int, requests: nat): (avg: int)
    ensures requests == 0 ==> avg == 0
    ensures requests > 0 && totalMs >= 0 ==> 0 <= avg * requests <= totalMs < (avg + 1) * requests
    ensures requests > 0 && totalMs < 0 ==> (avg - 1) * requests < totalMs <= avg * requests <= 0
  {
    if requests > 0 then
      FloorBounds(if totalMs >= 0 then totalMs else -totalMs, requests);
      TruncDiv(totalMs, requests)
    else 0
  }

  datatype Counters = Counters(requests: nat, apiSearch: nat, apiSearchV2: nat, health: nat, errors: nat)

  /** The counters with one more request. */
  function CountRequest(c: Counters): Counters {
    c.(requests := c.requests + 1)
  }

  datatype Snapshot = Snapshot(
    counters: Counters,
    lastLatencyMs: int,
    avgLatencyMs: int,
    p95Ms: int,
    p99Ms: int)

  /** The JSON text `Metrics::ToJson` writes for a snapshot. */
  function Render(s: Snapshot): string {
    "{\"requests\":" + IntToString(s.counters.requests)
    + ",\"api_search\":" + IntToString(s.counters.apiSearch)
    + ",\"api_search_v2\":" + IntToString(s.counters.apiSearchV2)
    + ",\"health\":" + IntToString(s.counters.health)
    + ",\"errors\":" + IntToString(s.counters.errors)
    + ",\"last_latency_ms\":" + IntToString(s.lastLatencyMs)
    + ",\"avg_latency_ms\":" + IntToString(s.avgLatencyMs)
    + ",\"p95_ms\":" + IntToString(s.p95Ms)
    + ",\"p99_ms\":" + IntToString(s.p99Ms) + "}"
  }

  class Registry {
    var requests: nat
    var apiSearch: nat
    var apiSearchV2: nat
    var health: nat
    var errors: nat
    var totalLatencyMs: int
    var lastLatencyMs: int
    const buckets: array<nat>

    ghost predicate Valid()
    {
      buckets.Length == BucketCount
    }

    function CountersOf(): Counters
      reads this
    {
      Counters(requests, apiSearch, apiSearchV2, health, errors)
    }

    /** Every recorded sample sits in a bucket, and each followed one request. */
    ghost predicate Accounted()
      reads this, buckets
    {
      Sum(buckets[..]) <= requests
    }

    /** The collector at process start: every counter 0. */
    constructor ()
      ensures Valid() && fresh(buckets)
      ensures CountersOf() == Counters(0, 0, 0, 0, 0)
      ensures totalLatencyMs == 0 && lastLatencyMs == 0
      ensures buckets[..] == seq(BucketCount, _ => 0)
      ensures Accounted()
    {
      requests, apiSearch, apiSearchV2, health, errors := 0, 0, 0, 0, 0;
      totalLatencyMs, lastLatencyMs := 0, 0;
      buckets := new nat[BucketCount](_ => 0);
      new;
      ZeroSum(BucketCount);
    }

    /** `RecordRequest`: one more request, nothing else changes. */
    method RecordRequest()
      modifies this`requests
      ensures CountersOf() == CountRequest(old(CountersOf()))
      ensures totalLatencyMs == old(totalLatencyMs) && lastLatencyMs == old(lastLatencyMs)
      ensures old(Accounted()) ==> Accounted()
    {
      requests := requests + 1;
    }

    /**
     * `RecordLatency(ms)`: remembers `ms` as the last latency, adds it to the
     * total, and counts it in the first bucket whose edge is at least `ms`.
     */
    method RecordLatency(ms: int)
      requires Valid()
      modifies this`lastLatencyMs, this`totalLatencyMs, buckets
      ensures Valid()
      ensures CountersOf() == old(CountersOf())
      ensures lastLatencyMs == ms && totalLatencyMs == old(totalLatencyMs) + ms
      ensures buckets[..] == Bumped(old(buckets[..]), ms)
    {
      lastLatencyMs := ms;
      totalLatencyMs := totalLatencyMs + ms;
      var i := 0;
      while i < BucketCount
        invariant 0 <= i <= BucketCount
        invariant forall j :: 0 <= j < i ==> Edges[j] < ms
        invariant buckets[..] == old(buckets[..])
        invariant lastLatencyMs == ms && totalLatencyMs == old(totalLatencyMs) + ms
      {
        if ms <= Edges[i] {
          BucketOfFirst(ms, i);
          buckets[i] := buckets[i] + 1;
          return;
        }
        i := i + 1;
      }
      BucketOfAbove(ms);
    }

    /**
     * The file-static `Percentile(p)` for `p = num / den`: sums the buckets,
     * answers 0 for an empty histogram, and otherwise walks the buckets
     * accumulating counts until the truncated target is reached.
     */
    method Percentile(num: nat, den: nat) returns (r: int)
      requires Valid() && den > 0
      ensures r == PercentileOf(buckets[..], num, den)
      ensures r == 0 || r in Edges
    {
      ghost var b := buckets[..];
      PercentileIsEdge(b, num, den);
      var total := 0;
      var i := 0;
      while i < BucketCount
        invariant 0 <= i <= BucketCount
        invariant total == Sum(b[..i])
      {
        SumStep(b, i);
        total := total + buckets[i];
        i := i + 1;
      }
      assert b[..BucketCount] == b;
      if total == 0 {
        return 0;
      }
      var target := num * total / den;
      var acc := 0;
      i := 0;
      while i < BucketCount
        invariant 0 <= i <= BucketCount
        invariant acc == Sum(b[..i])
        invariant forall j :: 0 <= j < i ==> Cumulative(b, j) < target
      {
        SumStep(b, i);
        acc := acc + buckets[i];
        if acc >= target {
          assert ReachFrom(b, target, 0) == i;
          return Edges[i];
        }
        i := i + 1;
      }
      assert ReachFrom(b, target, 0) == BucketCount - 1;
      return Edges[BucketCount - 1];
    }

    /** The values `ToJson` reports, read from the current state. */
    function Snap(): (s: Snapshot)
      requires Valid()
      reads this, buckets
    {
      Snapshot(CountersOf(), lastLatencyMs, AverageLatency(totalLatencyMs, requests),
               PercentileOf(buckets[..], 95, 100), PercentileOf(buckets[..], 99, 100))
    }

    /**
     * `ToJson`: the counters, the last latency, the average latency and the
     * 95th and 99th percentile estimates, as one JSON object; the reported
     * p95 never exceeds the reported p99.
     */
    method ToJson() returns (json: string)
      requires Valid()
      ensures json == Render(Snap())
      ensures Snap().p95Ms <= Snap().p99Ms
      ensures Snap().avgLatencyMs == AverageLatency(totalLatencyMs, requests)
    {
      var req := requests;
      var avg := if req > 0 then TruncDiv(totalLatencyMs, req) else 0;
      var p95 := Percentile(95, 100);
      var p99 := Percentile(99, 100);
      P95AtMostP99(buckets[..]);
      json := "{\"requests\":" + IntToString(req)
        + ",\"api_search\":" + IntToString(apiSearch)
        + ",\"api_search_v2\":" + IntToString(apiSearchV2)
        + ",\"health\":" + IntToString(health)
        + ",\"errors\":" + IntToString(errors)
        + ",\"last_latency_ms\":" + IntToString(lastLatencyMs)
        + ",\"avg_latency_ms\":" + IntToString(avg)
        + ",\"p95_ms\":" + IntToString(p95)
        + ",\"p99_ms\":" + IntToString(p99) + "}";
    }
  }
}
