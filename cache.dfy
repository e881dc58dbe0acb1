/**
 * The time-windowed metric history of cache.go: a buffer of
 * (timestamp, value) samples that grows at the end when a larger value
 * arrives and loses, on purge, the samples older than the scale period.
 *
 * Timestamps are integer nanoseconds; the current time is an explicit
 * parameter `now` wherever cache.go reads the clock.
 */
module Cache {
  import opened Status

  const NanosPerSecond: int := 1_000_000_000

  /** One sample of the metric (cache.go `metricData`). */
  datatype MetricData = MetricData(timestamp: int, metricValue: int64)

  /** Stored values strictly increase from oldest to newest. */
  ghost predicate StrictlyIncreasing(s: seq<MetricData>)
  {
    forall i, j :: 0 <= i < j < |s| ==> s[i].metricValue < s[j].metricValue
  }

  /** Timestamps never decrease from oldest to newest. */
  ghost predicate TimeOrdered(s: seq<MetricData>)
  {
    forall i, j :: 0 <= i < j < |s| ==> s[i].timestamp <= s[j].timestamp
  }

  /** The invariant every history keeps. */
  ghost predicate Wellformed(s: seq<MetricData>)
  {
    StrictlyIncreasing(s) && TimeOrdered(s)
  }

  /** No sample of `s` was taken after `now`. */
  ghost predicate RecordedBy(s: seq<MetricData>, now: int)
  {
    forall i :: 0 <= i < |s| ==> s[i].timestamp <= now
  }

  /** The age of `d` at `now` is strictly more than `scalePeriodSeconds` seconds. */
  predicate Expired(d: MetricData, now: int, scalePeriodSeconds: int)
  {
    now - d.timestamp > scalePeriodSeconds * NanosPerSecond
  }

  /** The number of samples of `s` that have expired at `now` (counted over all of `s`). */
  function ExpiredCount(s: seq<MetricData>, now: int, scalePeriodSeconds: int): (n: nat)
    ensures n <= |s|
    ensures n == |s| ==> forall i :: 0 <= i < |s| ==> Expired(s[i], now, scalePeriodSeconds)
    ensures n == 0 ==> forall i :: 0 <= i < |s| ==> !Expired(s[i], now, scalePeriodSeconds)
  {
    if s == [] then 0
    else
      ExpiredCount(s[..|s| - 1], now, scalePeriodSeconds)
        + (if Expired(s[|s| - 1], now, scalePeriodSeconds) then 1 else 0)
  }

  /** The history after appending `metricValue` at `now` under the monotonic guard. */
  function Appended(s: seq<MetricData>, now: int, metricValue: int64): seq<MetricData>
  {
    if s == [] || metricValue > s[|s| - 1].metricValue then s + [MetricData(now, metricValue)] else s
  }

  /** The history after purging at `now` with the given period. */
  function Purged(s: seq<MetricData>, now: int, scalePeriodSeconds: int): seq<MetricData>
  {
    s[ExpiredCount(s, now, scalePeriodSeconds)..]
  }

  /**
   * In a time-ordered history the expired samples are exactly a prefix, whose
   * length is the expired count: the count over the whole buffer is a cut point.
   */
  lemma {:induction false} ExpiredArePrefix(s: seq<MetricData>, now: int, scalePeriodSeconds: int)
    requires TimeOrdered(s)
    ensures forall i :: 0 <= i < ExpiredCount(s, now, scalePeriodSeconds) ==> Expired(s[i], now, scalePeriodSeconds)
    ensures forall i :: ExpiredCount(s, now, scalePeriodSeconds) <= i < |s| ==> !Expired(s[i], now, scalePeriodSeconds)
  {
    if s != [] {
      var init := s[..|s| - 1];
      assert TimeOrdered(init);
      ExpiredArePrefix(init, now, scalePeriodSeconds);
      if Expired(s[|s| - 1], now, scalePeriodSeconds) {
        // every older sample is at least as old as the newest one
        forall i | 0 <= i < |init|
          ensures Expired(init[i], now, scalePeriodSeconds)
        {
          assert init[i].timestamp <= s[|s| - 1].timestamp;
        }
      }
    }
  }

  /** Purging keeps a suffix: every survivor is within the window, every removed sample had expired. */
  lemma PurgeKeepsWindow(s: seq<MetricData>, now: int, scalePeriodSeconds: int)
    requires TimeOrdered(s)
    ensures var p := Purged(s, now, scalePeriodSeconds);
      && |p| <= |s| && p == s[|s| - |p|..]
      && (forall i :: 0 <= i < |p| ==> now - p[i].timestamp <= scalePeriodSeconds * NanosPerSecond)
      && (forall i :: 0 <= i < |s| - |p| ==> now - s[i].timestamp > scalePeriodSeconds * NanosPerSecond)
  {
    ExpiredArePrefix(s, now, scalePeriodSeconds);
    var n := ExpiredCount(s, now, scalePeriodSeconds);
    var p := Purged(s, now, scalePeriodSeconds);
    forall i | 0 <= i < |p|
      ensures now - p[i].timestamp <= scalePeriodSeconds * NanosPerSecond
    {
      assert p[i] == s[n + i];
    }
  }

  /** A sample exactly `scalePeriodSeconds` old survives the purge (the comparison is strict). */
  lemma PurgeKeepsBoundary(s: seq<MetricData>, now: int, scalePeriodSeconds: int, k: nat)
    requires TimeOrdered(s)
    requires k < |s| && now - s[k].timestamp == scalePeriodSeconds * NanosPerSecond
    ensures s[k] in Purged(s, now, scalePeriodSeconds)
  {
    ExpiredArePrefix(s, now, scalePeriodSeconds);
    var n := ExpiredCount(s, now, scalePeriodSeconds);
    assert s[k] == Purged(s, now, scalePeriodSeconds)[k - n];
  }

  /** Purging twice at the same time with the same period is the same as purging once. */
  lemma PurgeIdempotent(s: seq<MetricData>, now: int, scalePeriodSeconds: int)
    requires TimeOrdered(s)
    ensures Purged(Purged(s, now, scalePeriodSeconds), now, scalePeriodSeconds) == Purged(s, now, scalePeriodSeconds)
  {
    PurgeKeepsWindow(s, now, scalePeriodSeconds);
    var p := Purged(s, now, scalePeriodSeconds);
    NoneExpiredCountsZero(p, now, scalePeriodSeconds);
  }

  lemma {:induction false} NoneExpiredCountsZero(s: seq<MetricData>, now: int, scalePeriodSeconds: int)
    requires forall i :: 0 <= i < |s| ==> !Expired(s[i], now, scalePeriodSeconds)
    ensures ExpiredCount(s, now, scalePeriodSeconds) == 0
  {
    if s != [] {
      NoneExpiredCountsZero(s[..|s| - 1], now, scalePeriodSeconds);
    }
  }

  /** Purging keeps the history well formed. */
  lemma PurgePreservesWellformed(s: seq<MetricData>, now: int, scalePeriodSeconds: int)
    requires Wellformed(s)
    ensures Wellformed(Purged(s, now, scalePeriodSeconds))
  {
    var n := ExpiredCount(s, now, scalePeriodSeconds);
    var p := Purged(s, now, scalePeriodSeconds);
    forall i, j | 0 <= i < j < |p|
      ensures p[i].metricValue < p[j].metricValue && p[i].timestamp <= p[j].timestamp
    {
      assert p[i] == s[n + i] && p[j] == s[n + j];
    }
  }

  /** Appending at a time no earlier than any stored sample keeps the history well formed. */
  lemma AppendPreservesWellformed(s: seq<MetricData>, now: int, metricValue: int64)
    requires Wellformed(s) && RecordedBy(s, now)
    ensures Wellformed(Appended(s, now, metricValue)) && RecordedBy(Appended(s, now, metricValue), now)
  {
    if s != [] && metricValue > s[|s| - 1].metricValue {
      var a := Appended(s, now, metricValue);
      forall i, j | 0 <= i < j < |a|
        ensures a[i].metricValue < a[j].metricValue && a[i].timestamp <= a[j].timestamp
      {
        if j == |s| && i < |s| - 1 {
          assert s[i].metricValue < s[|s| - 1].metricValue;
        }
      }
    }
  }

  /** cache.go `metricCache`: the buffer of samples, grown and re-sliced in place. */
  class MetricCache {
    var cache: seq<MetricData>

    ghost predicate Valid()
      reads this
    {
      Wellformed(cache)
    }

    /** The zero value `metricCache{}`: an empty buffer. */
    constructor ()
      ensures Valid() && cache == []
    {
      cache := [];
    }

    method GetSize() returns (size: int)
      ensures size == |cache|
    {
      size := |cache|;
    }

    method IsEmpty() returns (empty: bool)
      ensures empty <==> cache == []
    {
      var size := GetSize();
      empty := size == 0;
    }

    /**
     * Adds `metricValue`, stamped `now`, at the end when the buffer is empty or
     * the value is strictly greater than the last one; otherwise does nothing.
     */
    method Append(metricValue: int64, now: int)
      requires Valid() && RecordedBy(cache, now)
      modifies this
      ensures Valid() && RecordedBy(cache, now)
      ensures old(cache) == [] ==> cache == [MetricData(now, metricValue)]
      ensures old(cache) != [] && metricValue <= old(cache)[|old(cache)| - 1].metricValue ==> cache == old(cache)
      ensures old(cache) != [] && metricValue > old(cache)[|old(cache)| - 1].metricValue ==>
                cache == old(cache) + [MetricData(now, metricValue)]
      ensures cache == Appended(old(cache), now, metricValue)
    {
      AppendPreservesWellformed(cache, now, metricValue);
      var empty := IsEmpty();
      if empty || metricValue > cache[|cache| - 1].metricValue {
        cache := cache + [MetricData(now, metricValue)];
      }
    }

    /** The number of samples older than `scalePeriodSeconds` at `now`, counted over the whole buffer. */
    method GetPurgeIndex(scalePeriodSeconds: int, now: int) returns (index: int)
      ensures 0 <= index <= |cache|
      ensures index == ExpiredCount(cache, now, scalePeriodSeconds)
    {
      index := 0;
      var i := 0;
      while i < |cache|
        invariant 0 <= i <= |cache|
        invariant index == ExpiredCount(cache[..i], now, scalePeriodSeconds)
      {
        assert cache[..i + 1][..i] == cache[..i];
        if now - cache[i].timestamp > scalePeriodSeconds * NanosPerSecond {
          index := index + 1;
        }
        i := i + 1;
      }
      assert cache[..i] == cache;
    }

    /**
     * Removes the expired samples from the front; an empty buffer is left as it is.
     * Survivors are all within the window, and every removed sample had expired.
     */
    method Purge(scalePeriodSeconds: int, now: int)
      requires Valid()
      modifies this
      ensures Valid()
      ensures cache == Purged(old(cache), now, scalePeriodSeconds)
      ensures old(cache) == [] ==> cache == []
      ensures |cache| <= |old(cache)| && cache == old(cache)[|old(cache)| - |cache|..]
      ensures forall i :: 0 <= i < |cache| ==> now - cache[i].timestamp <= scalePeriodSeconds * NanosPerSecond
      ensures forall i :: 0 <= i < |old(cache)| - |cache| ==>
                now - old(cache)[i].timestamp > scalePeriodSeconds * NanosPerSecond
      ensures forall clock :: RecordedBy(old(cache), clock) ==> RecordedBy(cache, clock)
    {
      PurgeKeepsWindow(cache, now, scalePeriodSeconds);
      PurgePreservesWellformed(cache, now, scalePeriodSeconds);
      var n := ExpiredCount(cache, now, scalePeriodSeconds);
      forall clock, i | RecordedBy(cache, clock) && 0 <= i < |cache| - n
        ensures cache[n..][i].timestamp <= clock
      {
        assert cache[n..][i] == cache[n + i];
      }
      var empty := IsEmpty();
      if empty {
        return;
      }
      var purgeIndex := GetPurgeIndex(scalePeriodSeconds, now);
      if purgeIndex > 0 {
        cache := cache[purgeIndex..];
      }
    }

    /** The oldest retained sample, or NotFound when the buffer is empty. */
    method GetOldestMetricData() returns (r: Result<MetricData>)
      ensures r.Err? <==> cache == []
      ensures r.Err? ==> r.code == NotFound
      ensures r.Ok? ==> r.value == cache[0]
    {
      var empty := IsEmpty();
      if empty {
        return Err(NotFound);
      }
      r := Ok(cache[0]);
    }
  }
}
