/** packages/auth/src/rate-limit.ts: a fixed window kept in memory, or a counter per time bucket kept in Redis. */
module RateLimit {
  type Key = string

  datatype Result = Result(success: bool, remaining: int, resetAt: int)

  // ---------------------------------------------------------------- in memory

  datatype Record = NoRecord | Record(count: int, resetAt: int)

  /** One call for one key: the record it leaves and its answer. */
  function Hit(record: Record, now: int, limit: int, windowMs: int): (Record, Result) {
    if record.NoRecord? || now > record.resetAt then
      (Record(1, now + windowMs), Result(true, limit - 1, now + windowMs))
    else if record.count >= limit then (record, Result(false, 0, record.resetAt))
    else (Record(record.count + 1, record.resetAt), Result(true, limit - (record.count + 1), record.resetAt))
  }

  function RecordOf(store: map<Key, Record>, key: Key): Record { if key in store then store[key] else NoRecord }

  class MemoryLimiter {
    var memoryStore: map<Key, Record>

    constructor ()
      ensures memoryStore == map[]
    {
      memoryStore := map[];
    }

    method InMemoryRateLimit(key: Key, now: int, limit: int, windowMs: int) returns (result: Result)
      modifies this
      ensures (RecordOf(memoryStore, key), result) == Hit(RecordOf(old(memoryStore), key), now, limit, windowMs)
      ensures forall other :: other != key ==> RecordOf(memoryStore, other) == RecordOf(old(memoryStore), other)
    {
      if key !in memoryStore || memoryStore[key].NoRecord? || now > memoryStore[key].resetAt {
        memoryStore := memoryStore[key := Record(1, now + windowMs)];
        return Result(true, limit - 1, now + windowMs);
      }
      var record := memoryStore[key];
      if record.count >= limit {
        return Result(false, 0, record.resetAt);
      }
      record := record.(count := record.count + 1);
      memoryStore := memoryStore[key := record];
      result := Result(true, limit - record.count, record.resetAt);
    }

    /** Calls for any keys, one after the other: each key is answered as if it were alone. */
    method Serve(calls: seq<(Key, int)>, limit: int, windowMs: int) returns (results: seq<Result>)
      modifies this
      ensures |results| == |calls|
      ensures forall key ::
        ServedAlone(RecordOf(old(memoryStore), key), RecordOf(memoryStore, key), calls, results, key, limit, windowMs)
    {
      hide ServedAlone, Hit, RecordOf;
      results := [];
      forall key { NothingServed(RecordOf(memoryStore, key), key, limit, windowMs); }
      for i := 0 to |calls|
        invariant |results| == i
        invariant forall key ::
          ServedAlone(RecordOf(old(memoryStore), key), RecordOf(memoryStore, key), calls[..i], results,
                      key, limit, windowMs)
      {
        ghost var before := memoryStore;
        var result := InMemoryRateLimit(calls[i].0, calls[i].1, limit, windowMs);
        assert calls[..i + 1] == calls[..i] + [calls[i]];
        forall key
          ensures ServedAlone(RecordOf(old(memoryStore), key), RecordOf(memoryStore, key),
                              calls[..i] + [calls[i]], results + [result], key, limit, windowMs)
        {
          OneServed(RecordOf(old(memoryStore), key), RecordOf(before, key), calls[..i], results, key, limit, windowMs,
                    calls[i], RecordOf(memoryStore, key), result);
        }
        results := results + [result];
      }
      assert calls[..|calls|] == calls;
    }
  }

  ghost predicate ServedAlone(before: Record, after: Record, calls: seq<(Key, int)>, results: seq<Result>,
        key: Key, limit: int, windowMs: int)
    requires |results| == |calls|
  {
    && AnswersFor(calls, results, key) == Answers(before, TimesFor(calls, key), limit, windowMs)
    && after == Final(before, TimesFor(calls, key), limit, windowMs)
  }

  lemma NothingServed(record: Record, key: Key, limit: int, windowMs: int)
    ensures ServedAlone(record, record, [], [], key, limit, windowMs)
  {
  }

  lemma OneServed(start: Record, before: Record, calls: seq<(Key, int)>, results: seq<Result>, key: Key,
        limit: int, windowMs: int,
                  call: (Key, int), after: Record, result: Result)
    requires |results| == |calls| && ServedAlone(start, before, calls, results, key, limit, windowMs)
    requires if call.0 == key then (after, result) == Hit(before, call.1, limit, windowMs) else after == before
    ensures ServedAlone(start, after, calls + [call], results + [result], key, limit, windowMs)
  {
    hide Hit, Answers, Final;
    assert (calls + [call])[..|calls|] == calls && (results + [result])[..|calls|] == results;
    AnswerAppend(start, TimesFor(calls, key), call.1, limit, windowMs);
    var times := TimesFor(calls, key);
    assert times + [] == times && AnswersFor(calls, results, key) + [] == AnswersFor(calls, results, key);
  }

  // ---------------------------------------------------------------- runs for one key

  function TimesFor(calls: seq<(Key, int)>, key: Key): seq<int> {
    if calls == [] then []
    else
      var last := calls[|calls| - 1];
      TimesFor(calls[..|calls| - 1], key) + if last.0 == key then [last.1] else []
  }

  function AnswersFor(calls: seq<(Key, int)>, results: seq<Result>, key: Key): seq<Result>
    requires |results| == |calls|
  {
    if calls == [] then []
    else
      var n := |calls| - 1;
      AnswersFor(calls[..n], results[..n], key) + if calls[n].0 == key then [results[n]] else []
  }

  function Answers(record: Record, times: seq<int>, limit: int, windowMs: int): (answers: seq<Result>)
    ensures |answers| == |times|
    decreases |times|
  {
    if times == [] then []
    else
      var (next, result) := Hit(record, times[0], limit, windowMs);
      [result] + Answers(next, times[1..], limit, windowMs)
  }

  function Final(record: Record, times: seq<int>, limit: int, windowMs: int): Record
    decreases |times|
  {
    if times == [] then record else Final(Hit(record, times[0], limit, windowMs).0, times[1..], limit, windowMs)
  }

  lemma {:induction false} AnswerAppend(record: Record, times: seq<int>, now: int, limit: int, windowMs: int)
    ensures Answers(record, times + [now], limit, windowMs)
         == Answers(record, times, limit, windowMs)
            + [Hit(Final(record, times, limit, windowMs), now, limit, windowMs).1]
    ensures Final(record, times + [now], limit, windowMs)
         == Hit(Final(record, times, limit, windowMs), now, limit, windowMs).0
    decreases |times|
  {
    hide Hit;
    if times == [] {
      assert [] + [now] == [now] && [now][1..] == [];
    } else {
      assert (times + [now])[1..] == times[1..] + [now];
      AnswerAppend(Hit(record, times[0], limit, windowMs).0, times[1..], now, limit, windowMs);
    }
  }

  ghost predicate Sorted(times: seq<int>) { forall i, j :: 0 <= i < j < |times| ==> times[i] <= times[j] }

  /** The calls admitted between two moments, both included. */
  function Admitted(record: Record, times: seq<int>, limit: int, windowMs: int, from: int, to: int): nat
    decreases |times|
  {
    if times == [] then 0
    else
      var (next, result) := Hit(record, times[0], limit, windowMs);
      (if result.success && from <= times[0] <= to then 1 else 0)
      + Admitted(next, times[1..], limit, windowMs, from, to)
  }

  /** A window lets through at least its first call, whatever the limit. */
  function Quota(limit: int): (n: nat) { if limit < 1 then 1 else limit }

  function Left(record: Record, limit: int): nat
    requires record.Record?
  {
    if record.count >= Quota(limit) then 0 else Quota(limit) - record.count
  }

  /** In a window that was opened inside the interval, only the rest of its quota is admitted. */
  lemma {:induction false} OpenedInside(record: Record, times: seq<int>, limit: int, windowMs: int, from: int)
    requires windowMs >= 0 && Sorted(times) && record.Record? && record.resetAt >= from + windowMs && record.count >= 1
    ensures Admitted(record, times, limit, windowMs, from, from + windowMs) <= Left(record, limit)
    decreases |times|
  {
    if times != [] {
      if times[0] > record.resetAt {
        var next := Hit(record, times[0], limit, windowMs).0;
        NothingLater(next, times[1..], limit, windowMs, from, from + windowMs, times[0]);
      } else {
        OpenedInside(Hit(record, times[0], limit, windowMs).0, times[1..], limit, windowMs, from);
      }
    }
  }

  lemma {:induction false} NothingLater(record: Record, times: seq<int>, limit: int, windowMs: int, from: int,
        to: int, now: int)
    requires Sorted([now] + times) && now > to
    ensures Admitted(record, times, limit, windowMs, from, to) == 0
    decreases |times|
  {
    if times != [] {
      SortedTail(now, times);
      NothingLater(Hit(record, times[0], limit, windowMs).0, times[1..], limit, windowMs, from, to, times[0]);
    }
  }

  /** With a window open from before the interval, its rest and one more window fit in. */
  lemma {:induction false} OpenedBefore(record: Record, times: seq<int>, limit: int, windowMs: int, from: int)
    requires windowMs >= 0 && Sorted(times) && record.Record? && record.count >= 1
    requires times != [] ==> from <= times[0]
    ensures Admitted(record, times, limit, windowMs, from, from + windowMs) <= Left(record, limit) + Quota(limit)
    decreases |times|
  {
    if times != [] {
      var next := Hit(record, times[0], limit, windowMs).0;
      if times[0] > record.resetAt {
        OpenedInside(next, times[1..], limit, windowMs, from);
      } else {
        OpenedBefore(next, times[1..], limit, windowMs, from);
      }
    }
  }

  /**
   * The rate bound: a closed interval as long as the window admits at most twice the limit less one,
   * wherever it lies, because the call that opened an earlier window lies before it.
   */
  lemma {:induction false} RateBound(record: Record, times: seq<int>, limit: int, windowMs: int, from: int)
    requires windowMs >= 0 && Sorted(times) && (record.Record? ==> record.count >= 1)
    ensures Admitted(record, times, limit, windowMs, from, from + windowMs) <= 2 * Quota(limit) - 1
    decreases |times|
  {
    if times != [] {
      var next := Hit(record, times[0], limit, windowMs).0;
      if times[0] < from {
        RateBound(next, times[1..], limit, windowMs, from);
      } else if record.Record? {
        OpenedBefore(record, times, limit, windowMs, from);
      } else {
        OpenedInside(next, times[1..], limit, windowMs, from);
      }
    }
  }

  /** The record counts the calls admitted since its window opened, so `remaining` is the limit less those. */
  lemma {:induction false} CountIsAdmitted(record: Record, times: seq<int>, limit: int, windowMs: int)
    requires windowMs >= 0 && Sorted(times) && times != []
    requires record.Record? ==> record.resetAt - windowMs <= times[0]
    ensures var end := Final(record, times, limit, windowMs);
      && end.Record? && end.resetAt - windowMs <= times[|times| - 1]
      && end.count == (if record.Record? && end.resetAt == record.resetAt then record.count else 0)
                      + Admitted(record, times, limit, windowMs, end.resetAt - windowMs, end.resetAt)
    decreases |times|
  {
    var next := Hit(record, times[0], limit, windowMs).0;
    if |times| > 1 {
      CountIsAdmitted(next, times[1..], limit, windowMs);
      LaterReset(next, times[1..], limit, windowMs);
    }
  }

  lemma {:induction false} LaterReset(record: Record, times: seq<int>, limit: int, windowMs: int)
    requires record.Record? && windowMs >= 0
    ensures var end := Final(record, times, limit, windowMs);
      end.Record? && (end.resetAt == record.resetAt || end.resetAt - windowMs > record.resetAt)
    decreases |times|
  {
    if times != [] { LaterReset(Hit(record, times[0], limit, windowMs).0, times[1..], limit, windowMs); }
  }

  /** What a caller is told: `remaining` is the limit less the calls admitted since the window opened. */
  lemma RemainingIsExact(times: seq<int>, limit: int, windowMs: int)
    requires windowMs >= 0 && Sorted(times) && times != []
    ensures var end := Final(NoRecord, times, limit, windowMs);
      var answer := Answers(NoRecord, times, limit, windowMs)[|times| - 1];
      && end.Record? && answer.resetAt == end.resetAt
      && var admitted := Admitted(NoRecord, times, limit, windowMs, end.resetAt - windowMs, end.resetAt);
         if answer.success then answer.remaining == limit - admitted
         else answer.remaining == 0 && admitted >= limit
  {
    hide Admitted;
    var n := |times| - 1;
    assert times == times[..n] + [times[n]];
    AnswerAppend(NoRecord, times[..n], times[n], limit, windowMs);
    CountIsAdmitted(NoRecord, times, limit, windowMs);
  }

  // ---------------------------------------------------------------- one window

  predicate Opens(record: Record, now: int) { record.NoRecord? || now > record.resetAt }

  function CallsUpTo(times: seq<int>, to: int): nat {
    if times == [] then 0 else CallsUpTo(times[1..], to) + if times[0] <= to then 1 else 0
  }

  function Min(a: nat, b: nat): nat { if a < b then a else b }

  lemma {:induction false} NoCallsUpTo(times: seq<int>, to: int, now: int)
    requires Sorted([now] + times) && now > to
    ensures CallsUpTo(times, to) == 0
  {
    if times != [] {
      SortedTail(now, times);
      NoCallsUpTo(times[1..], to, times[0]);
    }
  }

  lemma SortedTail(now: int, times: seq<int>)
    requires Sorted([now] + times) && times != []
    ensures now <= times[0] && Sorted(times) && times == [times[0]] + times[1..]
  {
    assert ([now] + times)[0] <= ([now] + times)[1];
    forall i, j | 0 <= i < j < |times| ensures times[i] <= times[j] {
      assert times[i] == ([now] + times)[i + 1] && times[j] == ([now] + times)[j + 1];
    }
  }

  lemma {:induction false} RestOfWindow(record: Record, times: seq<int>, limit: int, windowMs: int, from: int)
    requires windowMs >= 0 && Sorted(times) && record.Record? && record.count >= 1
    requires record.resetAt == from + windowMs && (times != [] ==> from <= times[0])
    ensures Admitted(record, times, limit, windowMs, from, from + windowMs)
         == Min(Left(record, limit), CallsUpTo(times, from + windowMs))
    decreases |times|
  {
    if times != [] {
      var next := Hit(record, times[0], limit, windowMs).0;
      assert times == [times[0]] + times[1..];
      if times[0] > record.resetAt {
        NothingLater(next, times[1..], limit, windowMs, from, from + windowMs, times[0]);
        NoCallsUpTo(times[1..], from + windowMs, times[0]);
      } else {
        RestOfWindow(next, times[1..], limit, windowMs, from);
      }
    }
  }

  /**
   * A window opened by the first of these calls, whatever came before, admits every call that falls into
   * it until the quota is used up, and none after that.
   */
  lemma WindowAdmits(record: Record, times: seq<int>, limit: int, windowMs: int)
    requires windowMs >= 0 && Sorted(times) && times != [] && Opens(record, times[0])
    ensures Admitted(record, times, limit, windowMs, times[0], times[0] + windowMs)
         == Min(Quota(limit), CallsUpTo(times, times[0] + windowMs))
  {
    RestOfWindow(Record(1, times[0] + windowMs), times[1..], limit, windowMs, times[0]);
  }

  // ---------------------------------------------------------------- the bound is reached

  function Repeat(t: int, n: nat): (times: seq<int>)
    ensures |times| == n && forall i :: 0 <= i < n ==> times[i] == t
  {
    if n == 0 then [] else [t] + Repeat(t, n - 1)
  }

  /** Calls at one moment of an open window are admitted while the quota lasts. */
  lemma {:induction false} RepeatAdmitted(record: Record, t: int, n: nat, more: seq<int>, limit: int,
        windowMs: int, from: int, to: int)
    requires record.Record? && t <= record.resetAt && record.count + n <= limit && from <= t <= to
    ensures Admitted(record, Repeat(t, n) + more, limit, windowMs, from, to)
         == n + Admitted(Record(record.count + n, record.resetAt), more, limit, windowMs, from, to)
    decreases n
  {
    if n == 0 {
      assert Repeat(t, 0) + more == more;
    } else {
      assert (Repeat(t, n) + more)[1..] == Repeat(t, n - 1) + more;
      RepeatAdmitted(Record(record.count + 1, record.resetAt), t, n - 1, more, limit, windowMs, from, to);
    }
  }

  /** One call, the rest of the quota as the window ends, a full quota just after it. */
  function Squeeze(limit: nat, windowMs: nat): seq<int>
    requires limit >= 1
  {
    [0] + (Repeat(windowMs, limit - 1) + Repeat(windowMs + 1, limit))
  }

  lemma BoundIsReached(limit: nat, windowMs: nat)
    requires limit >= 1 && windowMs >= 1
    ensures Sorted(Squeeze(limit, windowMs))
    ensures Admitted(NoRecord, Squeeze(limit, windowMs), limit, windowMs, 1, 1 + windowMs) == 2 * limit - 1
  {
    var first, second := Repeat(windowMs, limit - 1), Repeat(windowMs + 1, limit);
    assert Squeeze(limit, windowMs)[1..] == first + second;
    RepeatAdmitted(Record(1, windowMs), windowMs, limit - 1, second, limit, windowMs, 1, 1 + windowMs);
    assert second[1..] + [] == Repeat(windowMs + 1, limit - 1) + [];
    assert second[1..] == second[1..] + [];
    RepeatAdmitted(Record(1, 2 * windowMs + 1), windowMs + 1, limit - 1, [], limit, windowMs, 1, 1 + windowMs);
  }

  // ---------------------------------------------------------------- in Redis

  datatype Expiry = Never | At(ms: int)
  datatype Counter = Counter(count: nat, expiry: Expiry)
  type Counters = map<(Key, int), Counter>

  predicate Alive(c: Counter, nowMs: int) { c.expiry.Never? || nowMs < c.expiry.ms }

  function CountOf(counters: Counters, windowKey: (Key, int), nowMs: int): nat {
    if windowKey in counters && Alive(counters[windowKey], nowMs) then counters[windowKey].count else 0
  }

  function WindowSeconds(windowMs: int): int { (windowMs + 999) / 1000 }

  /** Time is cut into buckets of whole seconds, the same for everybody. */
  function Bucket(nowMs: int, windowMs: int): int
    requires windowMs > 0
  {
    nowMs / 1000 / WindowSeconds(windowMs)
  }

  /**
   * Buckets are as many whole seconds long as cover the window, and no longer; two moments share a bucket exactly
   * if they lie between the same two multiples of that length.
   */
  lemma BucketsAre(nowMs: int, windowMs: int, seconds: int)
    requires windowMs > 0 && (seconds - 1) * 1000 < windowMs <= seconds * 1000
    ensures WindowSeconds(windowMs) == seconds
    ensures Bucket(nowMs, windowMs) * (seconds * 1000) <= nowMs < (Bucket(nowMs, windowMs) + 1) * (seconds * 1000)
  {
    NowInBucket(nowMs, windowMs);
    var bucket := Bucket(nowMs, windowMs);
    assert bucket * seconds * 1000 == bucket * (seconds * 1000);
    assert (bucket + 1) * seconds * 1000 == (bucket + 1) * (seconds * 1000);
  }

  function CallsIn(calls: seq<(Key, int)>, key: Key, bucket: int, windowMs: int): nat
    requires windowMs > 0
  {
    if calls == [] then 0
    else
      var last, rest := calls[|calls| - 1], calls[..|calls| - 1];
      CallsIn(rest, key, bucket, windowMs) + (if last.0 == key && Bucket(last.1, windowMs) == bucket then 1 else 0)
  }

  /** The counter of a bucket holds the calls made in it, and lives at least until the bucket ends. */
  ghost predicate Tracked(counters: Counters, calls: seq<(Key, int)>, key: Key, bucket: int, windowMs: int)
    requires windowMs > 0
  {
    var n := CallsIn(calls, key, bucket, windowMs);
    if n == 0 then (key, bucket) !in counters
    else
      && (key, bucket) in counters && counters[(key, bucket)].count == n
      && var expiry := counters[(key, bucket)].expiry;
         expiry.At? ==> expiry.ms >= (bucket + 1) * WindowSeconds(windowMs) * 1000
  }

  ghost predicate NotAfter(calls: seq<(Key, int)>, bucket: int, windowMs: int)
    requires windowMs > 0
  {
    forall c :: c in calls ==> Bucket(c.1, windowMs) <= bucket
  }

  class RedisLimiter {
    const windowMs: int
    var counters: Counters
    ghost var calls: seq<(Key, int)>

    /** Every bucket that has not been passed yet is tracked. */
    ghost predicate Valid()
      reads this
    {
      && windowMs > 0
      && forall key, bucket ::
           NotAfter(calls, bucket, windowMs) ==> Tracked(counters, calls, key, bucket, windowMs)
    }

    constructor (windowMs: int)
      requires windowMs > 0
      ensures Valid() && this.windowMs == windowMs && calls == []
    {
      this.windowMs, counters, calls := windowMs, map[], [];
    }

    /** A counter that has expired starts again from one, without an expiry. */
    method Incr(windowKey: (Key, int), nowMs: int) returns (count: nat)
      modifies this`counters
      ensures count == CountOf(old(counters), windowKey, nowMs) + 1
      ensures counters == old(counters)[windowKey :=
        Counter(count, if CountOf(old(counters), windowKey, nowMs) > 0 then old(counters)[windowKey].expiry else Never)]
    {
      if windowKey in counters && Alive(counters[windowKey], nowMs) && counters[windowKey].count > 0 {
        count := counters[windowKey].count + 1;
        counters := counters[windowKey := Counter(count, counters[windowKey].expiry)];
      } else {
        count := 1;
        counters := counters[windowKey := Counter(1, Never)];
      }
    }

    method Expire(windowKey: (Key, int), at: int)
      requires windowKey in counters
      modifies this`counters
      ensures counters == old(counters)[windowKey := old(counters)[windowKey].(expiry := At(at))]
    {
      counters := counters[windowKey := counters[windowKey].(expiry := At(at))];
    }

    /** The answer depends on nothing but the number of calls made for this key in this bucket. */
    method RedisRateLimit(key: Key, nowMs: int, limit: int) returns (result: Result)
      requires Valid() && forall c :: c in calls ==> c.1 <= nowMs
      modifies this
      ensures Valid() && calls == old(calls) + [(key, nowMs)]
      ensures var bucket := Bucket(nowMs, windowMs);
        var count := CallsIn(calls, key, bucket, windowMs);
        && result.success == (count <= limit)
        && result.remaining == (if count <= limit then limit - count else 0)
        && result.resetAt == (bucket + 1) * WindowSeconds(windowMs) * 1000
    {
      hide Bucket, WindowSeconds, CallsIn, Tracked;
      NowInBucket(nowMs, windowMs);
      var windowSeconds := WindowSeconds(windowMs);
      var now := nowMs / 1000;
      var windowKey := (key, now / windowSeconds);
      ghost var before, made := counters, calls;
      CountIsKnown(before, made, key, nowMs, windowMs);
      var count := Incr(windowKey, nowMs);
      if count == 1 {
        Expire(windowKey, nowMs + windowSeconds * 1000);
      }
      calls := calls + [(key, nowMs)];
      forall k, bucket | NotAfter(calls, bucket, windowMs) ensures Tracked(counters, calls, k, bucket, windowMs) {
        assert (key, nowMs) in calls && forall c :: c in made ==> c in calls;
        OneMoreCall(before, made, counters, key, nowMs, windowMs, k, bucket);
      }
      LastCall(made, key, nowMs, windowMs, key, windowKey.1);
      var resetAt := (now / windowSeconds + 1) * windowSeconds * 1000;
      if count > limit {
        return Result(false, 0, resetAt);
      }
      result := Result(true, limit - count, resetAt);
    }
  }

  lemma DivideBounds(a: int, d: int)
    requires d > 0
    ensures a / d * d <= a < (a / d + 1) * d
  {
    assert a == a / d * d + a % d;
    assert (a / d + 1) * d == a / d * d + d;
  }

  lemma NowInBucket(nowMs: int, windowMs: int)
    requires windowMs > 0
    ensures var ws, bucket := WindowSeconds(windowMs), Bucket(nowMs, windowMs);
      ws > 0 && bucket == nowMs / 1000 / ws && bucket * ws * 1000 <= nowMs < (bucket + 1) * ws * 1000
      && nowMs + ws * 1000 >= (bucket + 1) * ws * 1000
  {
    var ws, now := WindowSeconds(windowMs), nowMs / 1000;
    DivideBounds(nowMs, 1000);
    DivideBounds(now, ws);
    assert (now / ws + 1) * ws == now / ws * ws + ws;
  }

  lemma BucketsFollow(t: int, u: int, windowMs: int)
    requires windowMs > 0 && t <= u
    ensures Bucket(t, windowMs) <= Bucket(u, windowMs)
  {
    var ws := WindowSeconds(windowMs);
    NowInBucket(t, windowMs);
    NowInBucket(u, windowMs);
    var b, c := Bucket(t, windowMs), Bucket(u, windowMs);
    if c < b { Scaled(c + 1, b, ws); }
  }

  lemma Scaled(a: int, b: int, ws: int)
    requires a <= b && ws > 0
    ensures a * ws * 1000 <= b * ws * 1000
  {
    assert (b - a) * ws >= 0;
  }

  /** While its bucket lasts a counter cannot have expired. */
  lemma CountIsKnown(counters: Counters, calls: seq<(Key, int)>, key: Key, nowMs: int, windowMs: int)
    requires windowMs > 0 && forall c :: c in calls ==> c.1 <= nowMs
    requires forall k, bucket :: NotAfter(calls, bucket, windowMs) ==> Tracked(counters, calls, k, bucket, windowMs)
    ensures var bucket := Bucket(nowMs, windowMs);
      CountOf(counters, (key, bucket), nowMs) == CallsIn(calls, key, bucket, windowMs)
  {
    hide Bucket, WindowSeconds;
    var bucket := Bucket(nowMs, windowMs);
    forall c | c in calls ensures Bucket(c.1, windowMs) <= bucket { BucketsFollow(c.1, nowMs, windowMs); }
    assert NotAfter(calls, bucket, windowMs);
    assert Tracked(counters, calls, key, bucket, windowMs);
    NowInBucket(nowMs, windowMs);
  }

  lemma LastCall(calls: seq<(Key, int)>, key: Key, nowMs: int, windowMs: int, k: Key, bucket: int)
    requires windowMs > 0
    ensures CallsIn(calls + [(key, nowMs)], k, bucket, windowMs)
      == CallsIn(calls, k, bucket, windowMs) + (if k == key && bucket == Bucket(nowMs, windowMs) then 1 else 0)
  {
    assert (calls + [(key, nowMs)])[..|calls|] == calls;
  }

  lemma OneMoreCall(before: Counters, calls: seq<(Key, int)>, after: Counters, key: Key, nowMs: int,
        windowMs: int, k: Key, bucket: int)
    requires windowMs > 0 && NotAfter(calls, bucket, windowMs) && Tracked(before, calls, k, bucket, windowMs)
    requires var windowKey, ws := (key, Bucket(nowMs, windowMs)), WindowSeconds(windowMs);
      var n := CallsIn(calls, key, windowKey.1, windowMs);
      && (n > 0 ==> windowKey in before)
      && var expiry := if n == 0 then At(nowMs + ws * 1000) else before[windowKey].expiry;
         after == before[windowKey := Counter(n + 1, expiry)]
    ensures Tracked(after, calls + [(key, nowMs)], k, bucket, windowMs)
  {
    hide Bucket, WindowSeconds, CallsIn;
    LastCall(calls, key, nowMs, windowMs, k, bucket);
    NowInBucket(nowMs, windowMs);
  }
}
