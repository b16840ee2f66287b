/** The sliding windows of the stream processor's `MetricsCollector`, and its latency percentile. */
module StreamMetrics {
  import opened Filtering
  import opened Sorting
  import opened Wrappers

  datatype Sample = Sample(time: real, latency: real)

  function TimeOf(): Sample -> real { (s: Sample) => s.time }

  function Itself(): real -> real { (t: real) => t }

  /** At or after the cutoff. */
  function Since<T>(time: T -> real, cutoff: real): T -> bool {
    (x: T) => time(x) >= cutoff
  }

  /** The part of a history that is still in the window. */
  function Window<T>(time: T -> real, history: seq<T>, cutoff: real): seq<T> {
    Select(Since(time, cutoff), history)
  }

  ghost predicate InTime<T>(time: T -> real, s: seq<T>) {
    forall i, j :: 0 <= i < j < |s| ==> time(s[i]) <= time(s[j])
  }

  function DropOld<T>(time: T -> real, s: seq<T>, cutoff: real): seq<T> {
    if s != [] && time(s[0]) < cutoff then DropOld(time, s[1..], cutoff) else s
  }

  /** Popping from the front is filtering, if the entries are in time order. */
  lemma {:induction false} DropIsFilter<T>(time: T -> real, s: seq<T>, cutoff: real)
    requires InTime(time, s)
    ensures DropOld(time, s, cutoff) == Window(time, s, cutoff)
  {
    if s != [] {
      if time(s[0]) < cutoff {
        DropIsFilter(time, s[1..], cutoff);
      } else {
        assert forall x :: x in s ==> time(x) >= cutoff;
        SelectAll(Since(time, cutoff), s);
      }
    }
  }

  lemma {:induction false} WindowMembers<T>(time: T -> real, s: seq<T>, cutoff: real)
    ensures forall i :: 0 <= i < |Window(time, s, cutoff)| ==> Window(time, s, cutoff)[i] in s
  {
    if s != [] {
      WindowMembers(time, s[1..], cutoff);
      var w, rest := Window(time, s, cutoff), Window(time, s[1..], cutoff);
      forall i | 0 <= i < |w| ensures w[i] in s {
        var x := if time(s[0]) < cutoff then rest[i] else if i == 0 then s[0] else rest[i - 1];
        assert w[i] == x && s == [s[0]] + s[1..];
      }
    }
  }

  lemma {:induction false} WindowIsInTime<T>(time: T -> real, s: seq<T>, cutoff: real)
    requires InTime(time, s)
    ensures InTime(time, Window(time, s, cutoff))
  {
    if s != [] {
      WindowIsInTime(time, s[1..], cutoff);
      var rest := Window(time, s[1..], cutoff);
      WindowMembers(time, s[1..], cutoff);
      assert forall i :: 0 <= i < |s[1..]| ==> time(s[0]) <= time(s[1..][i]);
      forall j | 0 <= j < |rest| ensures time(s[0]) <= time(rest[j]) {
        assert rest[j] in s[1..];
      }
    }
  }

  lemma {:induction false} WindowOfWindow<T>(time: T -> real, s: seq<T>, c: real, d: real)
    requires c <= d
    ensures Window(time, Window(time, s, c), d) == Window(time, s, d)
  {
    if s != [] {
      WindowOfWindow(time, s[1..], c, d);
      var rest := Window(time, s[1..], c);
      assert ([s[0]] + rest)[1..] == rest;
    }
  }

  /** Popping what a window held before, after new entries are appended, gives the window now. */
  lemma WindowMoves<T>(time: T -> real, history: seq<T>, added: seq<T>, c: real, d: real)
    requires InTime(time, history + added) && c <= d
    ensures DropOld(time, Window(time, history, c) + added, d) == Window(time, history + added, d)
  {
    var p, q := Since(time, c), Since(time, d);
    assert InTime(time, history) by {
      assert forall i :: 0 <= i < |history| ==> (history + added)[i] == history[i];
    }
    WindowIsInTime(time, history, c);
    var old', all := Window(time, history, c), history + added;
    WindowMembers(time, history, c);
    forall i, j | 0 <= i < j < |old' + added| ensures time((old' + added)[i]) <= time((old' + added)[j]) {
      if i < |old'| <= j {
        assert old'[i] in history;
        var k :| 0 <= k < |history| && history[k] == old'[i];
        assert all[k] == old'[i] && all[|history| + (j - |old'|)] == added[j - |old'|];
      } else if i >= |old'| {
        assert all[|history| + (i - |old'|)] == added[i - |old'|];
        assert all[|history| + (j - |old'|)] == added[j - |old'|];
      }
    }
    DropIsFilter(time, old' + added, d);
    SelectAppend(q, old', added);
    SelectAppend(q, history, added);
    WindowOfWindow(time, history, c, d);
  }

  /** A deque that holds the window of a history up to the clock. */
  ghost predicate Tracks<T>(time: T -> real, history: seq<T>, deque: seq<T>, cutoff: real, clock: real) {
    InTime(time, history) && (forall x :: x in history ==> time(x) <= clock) && deque == Window(time, history, cutoff)
  }

  /** A deque that will, once what is too old is popped. */
  ghost predicate Ready<T>(time: T -> real, history: seq<T>, deque: seq<T>, cutoff: real, clock: real) {
    Tracks(time, history, DropOld(time, deque, cutoff), cutoff, clock)
  }

  lemma TimePasses<T>(time: T -> real, history: seq<T>, deque: seq<T>, c: real, clock: real, d: real, now: real)
    requires Tracks(time, history, deque, c, clock) && c <= d && clock <= now
    ensures Ready(time, history, deque, d, now)
  {
    var none: seq<T> := [];
    assert history + none == history && deque + none == deque;
    WindowMoves(time, history, none, c, d);
    hide InTime, DropOld, Window;
  }

  lemma Recorded<T>(time: T -> real, history: seq<T>, deque: seq<T>, x: T, c: real, clock: real, d: real, now: real)
    requires Tracks(time, history, deque, c, clock) && c <= d && clock <= now && time(x) == now
    ensures Ready(time, history + [x], deque + [x], d, now)
  {
    assert InTime(time, history + [x]);
    WindowMoves(time, history, [x], c, d);
    hide InTime, DropOld, Window;
  }

  // Latency

  function Below(): (real, real) -> bool { (a: real, b: real) => a < b }

  function AtMost(x: real): real -> bool { (y: real) => y <= x }

  function LessThan(x: real): real -> bool { (y: real) => y < x }

  function Count(p: real -> bool, s: seq<real>): nat { |Select(p, s)| }

  function Sum(s: seq<real>): real {
    if s == [] then 0.0 else s[0] + Sum(s[1..])
  }

  lemma {:induction false} InsertPreserves(p: real -> bool, x: real, s: seq<real>)
    ensures var r := Insert(Below(), false, x, s);
            && |r| == |s| + 1 && Sum(r) == Sum(s) + x
            && Count(p, r) == Count(p, s) + if p(x) then 1 else 0
  {
    if s != [] && s[0] < x {
      InsertPreserves(p, x, s[1..]);
    }
  }

  /** Sorting keeps the size, the sum and every count. */
  lemma {:induction false} SortedPreserves(p: real -> bool, s: seq<real>)
    ensures var r := Sorted(Below(), false, s); |r| == |s| && Sum(r) == Sum(s) && Count(p, r) == Count(p, s)
  {
    if s != [] {
      SortedPreserves(p, s[1..]);
      InsertPreserves(p, s[0], Sorted(Below(), false, s[1..]));
    }
  }

  lemma {:induction false} CountIsBounded(p: real -> bool, s: seq<real>)
    ensures Count(p, s) <= |s|
  {
    if s != [] {
      CountIsBounded(p, s[1..]);
    }
  }

  lemma CountsAround(r: seq<real>, k: nat)
    requires Ascending(Below(), false, r) && k < |r|
    ensures Count(LessThan(r[k]), r) <= k < Count(AtMost(r[k]), r)
  {
    var lt, le := LessThan(r[k]), AtMost(r[k]);
    assert r == r[..k] + r[k..] == r[..k + 1] + r[k + 1..];
    SelectAppend(lt, r[..k], r[k..]);
    SelectNone(lt, r[k..]);
    CountIsBounded(lt, r[..k]);
    SelectAppend(le, r[..k + 1], r[k + 1..]);
    SelectAll(le, r[..k + 1]);
  }

  /** `p95_idx`. */
  function PercentileIndex(count: nat): int {
    var i, last := (count as real * 0.95).Floor, count - 1;
    if last < i then last else i
  }

  /** The second bound on the index never matters. */
  lemma PercentileIndexIsFloor(count: nat)
    requires count > 0
    ensures PercentileIndex(count) as real <= count as real * 0.95 < PercentileIndex(count) as real + 1.0
    ensures 0 <= PercentileIndex(count) < count
  {
    var x := count as real * 0.95;
    assert 0.0 <= x < count as real;
    assert x.Floor as real <= x < x.Floor as real + 1.0;
    assert 0 <= x.Floor < count;
  }

  /** A sample with at most 95% of the samples below it, and at least 95% at or below it. */
  ghost predicate IsPercentile(p95: real, s: seq<real>) {
    && p95 in s
    && Count(LessThan(p95), s) as real <= |s| as real * 0.95 < Count(AtMost(p95), s) as real
  }

  lemma PercentileIsThere(s: seq<real>)
    requires s != []
    ensures 0 <= PercentileIndex(|s|) < |s| == |Sorted(Below(), false, s)|
    ensures IsPercentile(Sorted(Below(), false, s)[PercentileIndex(|s|)], s)
  {
    var r, k := Sorted(Below(), false, s), PercentileIndex(|s|);
    SortedIsAscending(Below(), false, s);
    SortedPreserves(LessThan(0.0), s);
    PercentileIndexIsFloor(|s|);
    CountsAround(r, k);
    SortedPreserves(LessThan(r[k]), s);
    SortedPreserves(AtMost(r[k]), s);
    assert r[k] in r;
    hide Sorted, Count, Sum, PercentileIndex, Ascending, IsOrder;
  }

  datatype LatencyStats = LatencyStats(avg: real, p95: real, count: nat)

  function Latencies(samples: seq<Sample>): (r: seq<real>)
    ensures |r| == |samples| && forall i :: 0 <= i < |r| ==> r[i] == samples[i].latency
  {
    if samples == [] then [] else [samples[0].latency] + Latencies(samples[1..])
  }

  predicate IsAverage(avg: real, s: seq<real>) {
    avg * |s| as real == Sum(s)
  }

  /** The statistics of a window. */
  ghost predicate Describes(r: LatencyStats, latencies: seq<real>) {
    && r.count == |latencies|
    && if r.count == 0 then r.avg == 0.0 == r.p95 else IsAverage(r.avg, latencies) && IsPercentile(r.p95, latencies)
  }

  function Average(total: real, count: nat): (q: real)
    requires count > 0
    ensures q * count as real == total
  {
    total / count as real
  }

  lemma AverageOfSorted(s: seq<real>)
    requires s != []
    ensures IsAverage(Average(Sum(Sorted(Below(), false, s)), |s|), s)
  {
    SortedPreserves(LessThan(0.0), s);
    hide Sum, Sorted, Average;
  }

  /** `_compute_latency_stats`. */
  method ComputeLatencyStats(samples: seq<Sample>) returns (r: LatencyStats)
    ensures Describes(r, Latencies(samples))
  {
    if samples == [] { return LatencyStats(0.0, 0.0, 0); }
    hide IsAverage, IsPercentile, Sorted, Average, Sum, PercentileIndex, Latencies;
    PercentileIsThere(Latencies(samples));
    AverageOfSorted(Latencies(samples));
    var latencies := Sorted(Below(), false, Latencies(samples));
    var count := |latencies|;
    var p95 := latencies[PercentileIndex(count)];
    var total := SumUp(latencies);
    r := LatencyStats(Average(total, count), p95, count);
  }

  method SumUp(s: seq<real>) returns (total: real)
    ensures total == Sum(s)
  {
    total := 0.0;
    for i := 0 to |s|
      invariant total + Sum(s[i..]) == Sum(s)
    {
      assert s[i..][1..] == s[i + 1..];
      total := total + s[i];
    }
  }

  // The collector

  datatype Snapshot = Snapshot(
    consumedTotal: nat, publishedTotal: nat, consumedPerSec: real, publishedPerSec: real, gpsRatio: real,
    latency: LatencyStats, errors: nat, errorsPerSec: real, uptime: real, timestamp: real)

  datatype Error = ZeroDivisionError

  class MetricsCollector {
    const windowSeconds: real
    const startTime: real
    var messagesConsumed: nat
    var messagesPublished: nat
    var publishErrors: nat
    var consumeTimestamps: seq<real>
    var publishTimestamps: seq<real>
    var errorTimestamps: seq<real>
    var latencySamples: seq<Sample>
    var gpsReceived: int
    var gpsEmitted: int
    /** Everything recorded so far, and the time of the last clean-up. */
    ghost var consumed: seq<real>
    ghost var published: seq<real>
    ghost var measured: seq<Sample>
    ghost var failed: seq<real>
    ghost var clock: real

    ghost predicate Valid()
      reads this
    {
      var cutoff := clock - windowSeconds;
      && Tracks(Itself(), consumed, consumeTimestamps, cutoff, clock)
      && Tracks(Itself(), published, publishTimestamps, cutoff, clock)
      && Tracks(Itself(), failed, errorTimestamps, cutoff, clock)
      && Tracks(TimeOf(), measured, latencySamples, cutoff, clock)
      && messagesConsumed == |consumed| && messagesPublished == |published| && publishErrors == |failed|
    }

    constructor (windowSeconds: real, now: real)
      ensures Valid() && clock == now == startTime && this.windowSeconds == windowSeconds
      ensures consumed == [] && published == [] && measured == [] && failed == []
    {
      this.windowSeconds, startTime, clock := windowSeconds, now, now;
      messagesConsumed, messagesPublished, publishErrors, gpsReceived, gpsEmitted := 0, 0, 0, 0, 0;
      consumeTimestamps, publishTimestamps, errorTimestamps, latencySamples := [], [], [], [];
      consumed, published, measured, failed := [], [], [], [];
    }

    /** One loop of `_cleanup`. */
    static method PopFront<T>(time: T -> real, deque: seq<T>, cutoff: real) returns (r: seq<T>)
      ensures r == DropOld(time, deque, cutoff)
    {
      r := deque;
      while r != [] && time(r[0]) < cutoff
        invariant DropOld(time, r, cutoff) == DropOld(time, deque, cutoff)
        decreases |r|
      {
        r := r[1..];
      }
    }

    /** `_cleanup`. */
    method Cleanup(now: real)
      requires var cutoff := now - windowSeconds;
               && Ready(Itself(), consumed, consumeTimestamps, cutoff, now)
               && Ready(Itself(), published, publishTimestamps, cutoff, now)
               && Ready(Itself(), failed, errorTimestamps, cutoff, now)
               && Ready(TimeOf(), measured, latencySamples, cutoff, now)
      requires messagesConsumed == |consumed| && messagesPublished == |published| && publishErrors == |failed|
      modifies `consumeTimestamps, `publishTimestamps, `errorTimestamps, `latencySamples, `clock
      ensures Valid() && clock == now
    {
      hide Tracks, DropOld;
      var cutoff := now - windowSeconds;
      consumeTimestamps := PopFront(Itself(), consumeTimestamps, cutoff);
      publishTimestamps := PopFront(Itself(), publishTimestamps, cutoff);
      errorTimestamps := PopFront(Itself(), errorTimestamps, cutoff);
      latencySamples := PopFront(TimeOf(), latencySamples, cutoff);
      clock := now;
    }

    method RecordConsume(now: real)
      requires Valid() && now >= clock
      modifies this
      ensures Valid() && clock == now
      ensures consumed == old(consumed) + [now] && published == old(published) && failed == old(failed)
      ensures measured == old(measured)
    {
      hide Tracks, Ready;
      var c, d := clock - windowSeconds, now - windowSeconds;
      Recorded(Itself(), consumed, consumeTimestamps, now, c, clock, d, now);
      TimePasses(Itself(), published, publishTimestamps, c, clock, d, now);
      TimePasses(Itself(), failed, errorTimestamps, c, clock, d, now);
      TimePasses(TimeOf(), measured, latencySamples, c, clock, d, now);
      messagesConsumed := messagesConsumed + 1;
      consumeTimestamps := consumeTimestamps + [now];
      consumed := consumed + [now];
      Cleanup(now);
    }

    method RecordPublish(now: real, latency: real)
      requires Valid() && now >= clock
      modifies this
      ensures Valid() && clock == now
      ensures published == old(published) + [now] && measured == old(measured) + [Sample(now, latency)]
      ensures consumed == old(consumed) && failed == old(failed)
    {
      hide Tracks, Ready;
      var c, d, sample := clock - windowSeconds, now - windowSeconds, Sample(now, latency);
      TimePasses(Itself(), consumed, consumeTimestamps, c, clock, d, now);
      Recorded(Itself(), published, publishTimestamps, now, c, clock, d, now);
      TimePasses(Itself(), failed, errorTimestamps, c, clock, d, now);
      Recorded(TimeOf(), measured, latencySamples, sample, c, clock, d, now);
      messagesPublished := messagesPublished + 1;
      publishTimestamps := publishTimestamps + [now];
      latencySamples := latencySamples + [sample];
      published, measured := published + [now], measured + [sample];
      Cleanup(now);
    }

    method RecordPublishError(now: real)
      requires Valid() && now >= clock
      modifies this
      ensures Valid() && clock == now
      ensures failed == old(failed) + [now] && consumed == old(consumed) && published == old(published)
      ensures measured == old(measured)
    {
      hide Tracks, Ready;
      var c, d := clock - windowSeconds, now - windowSeconds;
      TimePasses(Itself(), consumed, consumeTimestamps, c, clock, d, now);
      TimePasses(Itself(), published, publishTimestamps, c, clock, d, now);
      Recorded(Itself(), failed, errorTimestamps, now, c, clock, d, now);
      TimePasses(TimeOf(), measured, latencySamples, c, clock, d, now);
      publishErrors := publishErrors + 1;
      errorTimestamps := errorTimestamps + [now];
      failed := failed + [now];
      Cleanup(now);
    }

    method RecordGpsAggregation(received: int, emitted: int)
      requires Valid()
      modifies `gpsReceived, `gpsEmitted
      ensures Valid()
      ensures gpsReceived == old(gpsReceived) + received && gpsEmitted == old(gpsEmitted) + emitted
    {
      hide Tracks;
      gpsReceived := gpsReceived + received;
      gpsEmitted := gpsEmitted + emitted;
    }

    /** The span that rates are taken over: the elapsed time or the window, whichever is smaller. */
    function RateWindow(now: real): (span: real)
      ensures now <= startTime ==> span == 1.0
      ensures now > startTime ==> span <= now - startTime && span <= windowSeconds
      ensures now > startTime ==> span == now - startTime || span == windowSeconds
    {
      var elapsed := now - startTime;
      if elapsed > 0.0 then if elapsed < windowSeconds then elapsed else windowSeconds else 1.0
    }

    /** `get_snapshot`: totals are those of the whole history, rates and latencies those of exactly
        the recordings not older than the window. */
    method GetSnapshot(now: real) returns (r: Result<Snapshot, Error>)
      requires Valid() && now >= clock
      modifies this
      ensures Valid() && clock == now
      ensures consumed == old(consumed) && published == old(published) && failed == old(failed)
      ensures measured == old(measured) && gpsReceived == old(gpsReceived) && gpsEmitted == old(gpsEmitted)
      ensures r == Err(ZeroDivisionError) <==> windowSeconds == 0.0 && now > startTime
      ensures r.Ok? ==>
                var s, cutoff := r.value, now - windowSeconds;
                && s.consumedTotal == |consumed| && s.publishedTotal == |published| && s.errors == |failed|
                && s.consumedPerSec * RateWindow(now) == |Window(Itself(), consumed, cutoff)| as real
                && s.publishedPerSec * RateWindow(now) == |Window(Itself(), published, cutoff)| as real
                && s.errorsPerSec * RateWindow(now) == |Window(Itself(), failed, cutoff)| as real
                && Describes(s.latency, Latencies(Window(TimeOf(), measured, cutoff)))
                && s.uptime == now - startTime && s.timestamp == now
      ensures r.Ok? ==> if gpsEmitted > 0 then r.value.gpsRatio * gpsEmitted as real == gpsReceived as real
                        else r.value.gpsRatio == 0.0
    {
      hide Ready, Window, InTime, Describes, Latencies;
      var c, d := clock - windowSeconds, now - windowSeconds;
      TimePasses(Itself(), consumed, consumeTimestamps, c, clock, d, now);
      TimePasses(Itself(), published, publishTimestamps, c, clock, d, now);
      TimePasses(Itself(), failed, errorTimestamps, c, clock, d, now);
      TimePasses(TimeOf(), measured, latencySamples, c, clock, d, now);
      Cleanup(now);
      var window := RateWindow(now);
      if window == 0.0 { return Err(ZeroDivisionError); }
      var consumedPerSec := Rate(|consumeTimestamps|, window);
      var publishedPerSec := Rate(|publishTimestamps|, window);
      var errorsPerSec := Rate(|errorTimestamps|, window);
      var gpsRatio := if gpsEmitted > 0 then Rate(gpsReceived, gpsEmitted as real) else 0.0;
      var latency := ComputeLatencyStats(latencySamples);
      r := Ok(Snapshot(messagesConsumed, messagesPublished, consumedPerSec, publishedPerSec, gpsRatio, latency,
                       publishErrors, errorsPerSec, now - startTime, now));
    }
  }

  function Rate(n: int, over: real): (q: real)
    requires over != 0.0
    ensures q * over == n as real
  {
    n as real / over
  }
}
