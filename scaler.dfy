/**
 * The request-level rules of main.go: the metric spec (name and target), the
 * metric value (the growth of the counter since the oldest retained sample)
 * and the activity check, which also feeds the sample history.
 *
 * main.go calls a history keyed by deployment id (`append(id, metric, period)`
 * and `getOldestMetricData(id)`); `KeyedCache` gives every id its own
 * `Cache.MetricCache` buffer, appending and then purging it.
 *
 * The values these rules fetch (the metric from the store, the last update
 * time, the TTL and the scale period) are parameters, each a `Result` since
 * fetching can fail; `parseInt64` is a parameter too.
 */
module Scaler {
  import opened Status
  import opened Cache
  import opened Utils

  const KeyScaleMetricName := "scaleMetricName"
  const DefaultScaleMetricName := "bytes_out"
  const KeyTargetValue := "targetValue"
  const DefaultTargetValue := "10"

  /** A metric name with its value (main.go `metric`). */
  datatype Metric = Metric(name: string, value: int64)

  /**
   * The deployment id of a request: the trimmed "deploymentid" metadata value,
   * else "deploymentid". The key has no white space to trim, so this is the
   * lookup `getValueFromScalerMetadata` makes (`DeploymentIdLookedUp`).
   */
  function DeploymentId(metadata: map<string, string>): string
  {
    if KeyDeploymentId in metadata then TrimSpace(metadata[KeyDeploymentId]) else DefaultDeploymentId
  }

  lemma DeploymentIdLookedUp(metadata: map<string, string>)
    ensures DeploymentId(metadata) == GetValueFromScalerMetadata(metadata, KeyDeploymentId, DefaultDeploymentId)
  {
    assert KeyDeploymentId[0] == 'd' && KeyDeploymentId[|KeyDeploymentId| - 1] == 'd';
    TrimmedUnchanged(KeyDeploymentId);
  }

  /**
   * `int64(d.Seconds())` for a duration of `nanos` nanoseconds: the whole
   * seconds in it, truncated toward zero as Go converts a float to an integer.
   */
  function TruncSeconds(nanos: int): (r: int)
    ensures nanos >= 0 ==> 0 <= r * NanosPerSecond <= nanos < (r + 1) * NanosPerSecond
    ensures nanos < 0 ==> (r - 1) * NanosPerSecond < nanos <= r * NanosPerSecond <= 0
  {
    if nanos >= 0 then nanos / NanosPerSecond else -((-nanos) / NanosPerSecond)
  }

  /**
   * One deployment's turn of `append(id, metric, period)`: the history is
   * loaded into a `MetricCache`, which appends the value and then purges.
   */
  method AppendAndPurge(history: seq<MetricData>, metricValue: int64, scalePeriodSeconds: int, now: int)
    returns (updated: seq<MetricData>)
    requires Wellformed(history) && RecordedBy(history, now)
    ensures Wellformed(updated) && RecordedBy(updated, now)
    ensures updated == Purged(Appended(history, now, metricValue), now, scalePeriodSeconds)
  {
    var c := new MetricCache();
    c.cache := history;
    c.Append(metricValue, now);
    c.Purge(scalePeriodSeconds, now);
    updated := c.cache;
  }

  /** `getOldestMetricData` on a `MetricCache` holding `history`. */
  method OldestSample(history: seq<MetricData>) returns (r: Result<MetricData>)
    ensures r.Err? <==> history == []
    ensures r.Err? ==> r.code == NotFound
    ensures r.Ok? ==> r.value == history[0]
  {
    var c := new MetricCache();
    c.cache := history;
    r := c.GetOldestMetricData();
  }

  /** The sample histories of all deployments, as main.go uses them. */
  class KeyedCache {
    var histories: map<string, seq<MetricData>>

    ghost predicate Valid()
      reads this
    {
      forall id :: id in histories ==> Wellformed(histories[id])
    }

    /** No stored sample was taken after `now`. */
    ghost predicate AllRecordedBy(now: int)
      reads this
    {
      forall id :: id in histories ==> RecordedBy(histories[id], now)
    }

    constructor ()
      ensures Valid() && histories == map[]
    {
      histories := map[];
    }

    /** The history of `id`; a deployment never appended to has an empty one. */
    function History(id: string): seq<MetricData>
      reads this
    {
      if id in histories then histories[id] else []
    }

    /**
     * `append(id, metric, scalePeriodSeconds)`: appends the value to the
     * history of `id` and purges that history; the other histories stay.
     */
    method Append(id: string, metricValue: int64, scalePeriodSeconds: int, now: int)
      requires Valid() && AllRecordedBy(now)
      modifies this
      ensures Valid() && AllRecordedBy(now)
      ensures histories == old(histories)[id := Purged(Appended(old(History(id)), now, metricValue), now, scalePeriodSeconds)]
    {
      var history := AppendAndPurge(History(id), metricValue, scalePeriodSeconds, now);
      histories := histories[id := history];
    }

    /** `getOldestMetricData(id)`: the oldest sample of `id`, or NotFound when it has none. */
    method GetOldestMetricData(id: string) returns (r: Result<MetricData>)
      ensures r.Err? <==> History(id) == []
      ensures r.Err? ==> r.code == NotFound
      ensures r.Ok? ==> r.value == History(id)[0]
    {
      r := OldestSample(History(id));
    }
  }

  /**
   * `getMetricSpec`: the scale metric name and the target value; InvalidArgument
   * when the target does not parse or is negative.
   */
  function GetMetricSpec(metadata: map<string, string>, parseInt64: string -> Option<int64>): (r: Result<Metric>)
    ensures var target := parseInt64(GetValueFromScalerMetadata(metadata, KeyTargetValue, DefaultTargetValue));
      && (r.Err? <==> target.None? || target.value < 0)
      && (r.Err? ==> r.code == InvalidArgument)
      && (r.Ok? ==> r.value.value == target.value && r.value.value >= 0)
    ensures r.Ok? ==> r.value.name == GetValueFromScalerMetadata(metadata, KeyScaleMetricName, DefaultScaleMetricName)
  {
    var scaleMetricName := GetValueFromScalerMetadata(metadata, KeyScaleMetricName, DefaultScaleMetricName);
    var targetValueStr := GetValueFromScalerMetadata(metadata, KeyTargetValue, DefaultTargetValue);
    match parseInt64(targetValueStr)
    case None => Err(InvalidArgument)
    case Some(targetValue) =>
      if targetValue < 0 then Err(InvalidArgument) else Ok(Metric(scaleMetricName, targetValue))
  }

  /**
   * Metadata without "scaleMetricName" and "targetValue" gives the spec
   * ("bytes_out", 10) when "10" parses to 10.
   */
  lemma DefaultMetricSpec(metadata: map<string, string>, parseInt64: string -> Option<int64>)
    requires KeyScaleMetricName !in metadata && KeyTargetValue !in metadata
    requires parseInt64(DefaultTargetValue) == Some(10)
    ensures GetMetricSpec(metadata, parseInt64) == Ok(Metric(DefaultScaleMetricName, 10))
  {
    assert KeyScaleMetricName[0] == 's' && KeyScaleMetricName[|KeyScaleMetricName| - 1] == 'e';
    MissingKeyGivesDefault(metadata, KeyScaleMetricName, DefaultScaleMetricName);
    assert KeyTargetValue[0] == 't' && KeyTargetValue[|KeyTargetValue| - 1] == 'e';
    MissingKeyGivesDefault(metadata, KeyTargetValue, DefaultTargetValue);
  }

  /**
   * What `getMetrics` answers for a deployment whose history is `history`:
   * the growth of the metric since the oldest retained sample. It fails with
   * NotFound when there is no sample (before the fetched metric is looked at),
   * with the fetch's error, with InvalidArgument when the fetched metric is not
   * the requested one or when the difference, computed in 64-bit arithmetic, is
   * negative. A difference of 0 is accepted.
   */
  function MetricGrowth(history: seq<MetricData>, newMetric: Result<Metric>, inMetricName: string): (r: Result<Metric>)
    ensures history == [] ==> r == Err(NotFound)
    ensures history != [] && newMetric.Err? ==> r == Err(newMetric.code)
    ensures history != [] && newMetric.Ok? && newMetric.value.name != inMetricName ==> r == Err(InvalidArgument)
    ensures r.Ok? <==>
              && history != [] && newMetric.Ok? && newMetric.value.name == inMetricName
              && Wrap64(newMetric.value.value as int - history[0].metricValue as int) >= 0
    ensures (&& history != [] && newMetric.Ok? && newMetric.value.name == inMetricName
             && Wrap64(newMetric.value.value as int - history[0].metricValue as int) < 0) ==>
              r == Err(InvalidArgument)
    ensures r.Ok? ==> r.value.name == inMetricName && r.value.value >= 0
    ensures r.Ok? ==> r.value.value == Wrap64(newMetric.value.value as int - history[0].metricValue as int)
    ensures r.Ok? && history[0].metricValue >= 0 && newMetric.value.value >= 0 ==>
              r.value.value as int == newMetric.value.value as int - history[0].metricValue as int
  {
    if history == [] then Err(NotFound)
    else if newMetric.Err? then Err(newMetric.code)
    else if newMetric.value.name != inMetricName then Err(InvalidArgument)
    else
      var metricValueDiff := Wrap64(newMetric.value.value as int - history[0].metricValue as int);
      if metricValueDiff < 0 then Err(InvalidArgument) else Ok(Metric(newMetric.value.name, metricValueDiff))
  }

  /** `getMetrics` for the deployment of `metadata`, reading its oldest sample from `store`. */
  method GetMetrics(store: KeyedCache, metadata: map<string, string>, inMetricName: string, newMetric: Result<Metric>)
    returns (r: Result<Metric>)
    ensures r == MetricGrowth(store.History(DeploymentId(metadata)), newMetric, inMetricName)
  {
    var deploymentId := DeploymentId(metadata);
    var oldMetricData := store.GetOldestMetricData(deploymentId);
    if oldMetricData.Err? {
      return Err(oldMetricData.code);
    }
    if newMetric.Err? {
      return Err(newMetric.code);
    }
    if newMetric.value.name != inMetricName {
      return Err(InvalidArgument);
    }
    var metricValueDiff := Wrap64(newMetric.value.value as int - oldMetricData.value.metricValue as int);
    if metricValueDiff < 0 {
      return Err(InvalidArgument);
    }
    r := Ok(Metric(newMetric.value.name, metricValueDiff));
  }

  /**
   * The difference wraps around: an oldest sample of 1 and a fetched value of
   * the smallest int64 give the largest int64, which passes the sign check
   * and is returned as the growth.
   */
  lemma DifferenceWrapsAround(timestamp: int, name: string)
    ensures MetricGrowth([MetricData(timestamp, 1)], Ok(Metric(name, MinInt64 as int64)), name)
         == Ok(Metric(name, MaxInt64 as int64))
  {
  }

  /**
   * `isActive`: fetches the TTL, the last update time, the metric and the
   * scale period, failing with the first error before touching the history;
   * then appends the metric value to the deployment's history (and purges it)
   * and reports whether fewer whole seconds than the TTL have passed since
   * the last update.
   */
  method IsActive(store: KeyedCache, metadata: map<string, string>, isActiveTtlSeconds: Result<int64>,
                  lastUpdateTime: Result<int>, metric: Result<Metric>, scalePeriodSeconds: Result<int64>, now: int)
    returns (r: Result<bool>)
    requires store.Valid() && store.AllRecordedBy(now)
    modifies store
    ensures store.Valid() && store.AllRecordedBy(now)
    ensures isActiveTtlSeconds.Err? ==> r == Err(isActiveTtlSeconds.code)
    ensures isActiveTtlSeconds.Ok? && lastUpdateTime.Err? ==> r == Err(lastUpdateTime.code)
    ensures isActiveTtlSeconds.Ok? && lastUpdateTime.Ok? && metric.Err? ==> r == Err(metric.code)
    ensures isActiveTtlSeconds.Ok? && lastUpdateTime.Ok? && metric.Ok? && scalePeriodSeconds.Err? ==>
              r == Err(scalePeriodSeconds.code)
    ensures r.Err? ==> store.histories == old(store.histories)
    ensures isActiveTtlSeconds.Ok? && lastUpdateTime.Ok? && metric.Ok? && scalePeriodSeconds.Ok? ==> r.Ok?
    ensures r.Ok? ==>
              && isActiveTtlSeconds.Ok? && lastUpdateTime.Ok? && metric.Ok? && scalePeriodSeconds.Ok?
              && r.value == (TruncSeconds(now - lastUpdateTime.value) < isActiveTtlSeconds.value as int)
              && var id := DeploymentId(metadata);
                 store.histories == old(store.histories)[id :=
                   Purged(Appended(old(store.History(id)), now, metric.value.value), now, scalePeriodSeconds.value as int)]
  {
    if isActiveTtlSeconds.Err? {
      return Err(isActiveTtlSeconds.code);
    }
    if lastUpdateTime.Err? {
      return Err(lastUpdateTime.code);
    }
    var deploymentId := DeploymentId(metadata);
    if metric.Err? {
      return Err(metric.code);
    }
    if scalePeriodSeconds.Err? {
      return Err(scalePeriodSeconds.code);
    }
    store.Append(deploymentId, metric.value.value, scalePeriodSeconds.value as int, now);
    var active := TruncSeconds(now - lastUpdateTime.value) < isActiveTtlSeconds.value as int;
    r := Ok(active);
  }

  /**
   * When the value is appended (the history is empty or the value is larger
   * than the last one) and the period is not negative, the history afterwards
   * ends with the new sample, so a later `getMetrics` finds an oldest sample.
   */
  lemma AppendThenPurgeKeepsNewest(h: seq<MetricData>, now: int, metricValue: int64, scalePeriodSeconds: int)
    requires Wellformed(h) && RecordedBy(h, now)
    requires scalePeriodSeconds >= 0
    requires h == [] || metricValue > h[|h| - 1].metricValue
    ensures var p := Purged(Appended(h, now, metricValue), now, scalePeriodSeconds);
      p != [] && p[|p| - 1] == MetricData(now, metricValue)
  {
    var a := Appended(h, now, metricValue);
    AppendPreservesWellformed(h, now, metricValue);
    ExpiredArePrefix(a, now, scalePeriodSeconds);
    assert !Expired(a[|a| - 1], now, scalePeriodSeconds);
  }

  /**
   * When the value is not larger than the last one nothing is appended, and a
   * history whose newest sample has aged out is left empty: a `getMetrics`
   * right after such an `isActive` fails with NotFound.
   */
  lemma StaleHistoryPurgedEmpty(h: seq<MetricData>, now: int, metricValue: int64, scalePeriodSeconds: int)
    requires TimeOrdered(h)
    requires h != [] && metricValue <= h[|h| - 1].metricValue
    requires Expired(h[|h| - 1], now, scalePeriodSeconds)
    ensures Purged(Appended(h, now, metricValue), now, scalePeriodSeconds) == []
  {
    ExpiredArePrefix(h, now, scalePeriodSeconds);
  }

  /**
   * A retention window of 600 seconds: samples 100 at 0 s and 150 at 10 s are
   * both kept at 10 s; at 700 s, after 400 is appended, both older samples are
   * more than 600 s old and only 400 is left, so a fetched 450 yields 50.
   */
  lemma WindowScenario()
    ensures var h1 := Purged(Appended(Appended([], 0, 100), 10 * NanosPerSecond, 150), 10 * NanosPerSecond, 600);
      && h1 == [MetricData(0, 100), MetricData(10 * NanosPerSecond, 150)]
      && var h2 := Purged(Appended(h1, 700 * NanosPerSecond, 400), 700 * NanosPerSecond, 600);
      && h2 == [MetricData(700 * NanosPerSecond, 400)]
      && Wrap64(450 - h2[0].metricValue as int) == 50
  {
    var h1 := [MetricData(0, 100), MetricData(10 * NanosPerSecond, 150)];
    assert Appended(Appended([], 0, 100), 10 * NanosPerSecond, 150) == h1;
    NoneExpiredCountsZero(h1, 10 * NanosPerSecond, 600);
    var a := h1 + [MetricData(700 * NanosPerSecond, 400)];
    assert Appended(h1, 700 * NanosPerSecond, 400) == a;
    assert ExpiredCount(a, 700 * NanosPerSecond, 600) == 2 by {
      assert a[..2] == h1 && h1[..1] == [MetricData(0, 100)] && h1[..1][..0] == [];
    }
    assert a[2..] == [MetricData(700 * NanosPerSecond, 400)];
  }
}
