# cwm-keda-external-scaler: the metric history and the scaling rules

A KEDA external scaler decides whether a deployment is active and how much
its metric (bytes sent, by default) has grown. It keeps a time-windowed
history of metric samples per deployment. This project models that history
and the rules built on it, and proves their properties.

- `status.dfy` (module `Status`): the gRPC status codes the scaler returns,
  `Result`/`Option`, Go's `int64` and its two's-complement wrap-around.
- `cache.dfy` (module `Cache`): `metricCache` of cache.go as a class over a
  `seq<MetricData>` field. `append` grows the buffer only with a strictly larger
  value. `getPurgeIndex` counts the samples older than the scale period.
  `purge` slices them off the front. `getOldestMetricData` returns the head.
  The class invariant is that values strictly increase and timestamps never
  decrease. Timestamps are integer nanoseconds, and the current time is a
  parameter `now`.
- `utils.dfy` (module `Utils`): the helpers of utils.go. They are metadata and
  environment lookup with Go's `strings.TrimSpace`, and the key prefixes built
  by replacing the first `"deploymentid"` in a template. The counting loops of
  `getNoOfPods` run over a given list of pod names.
- `scaler.dfy` (module `Scaler`): the rules of main.go.
  - `getMetricSpec` validates the target value.
  - `getMetrics` returns the growth of the metric since the oldest retained
    sample.
  - `isActive` fetches its inputs, then appends the metric to the history and
    compares the elapsed seconds with the TTL.

main.go uses a history keyed by deployment id: `append(id, metric, period)`
and `getOldestMetricData(id)`. cache.go has only a single buffer with a
one-argument `append`. So `Scaler.KeyedCache` holds one history per id. Its
`append` loads the id's history into a `MetricCache`, appends, and then purges,
using the same `MetricCache` methods. An id is never removed, even when its
history is empty.

The values main.go fetches are parameters of the model, each a `Result`
because fetching can fail: the metric, the last update time, the TTL and the
scale period (`getMetric`, `getLastUpdateTime`, `getIsActiveTtlSeconds`,
`getScalePeriodSeconds`). The parser of the target value (`parseInt64`) is a
parameter too. None of these functions is part of this model. The environment
is a map. A variable that is not set reads as the empty string, as
`os.Getenv` does.

Where the code and its description differ, the model follows the code:
- The comment at cache.go:65 says samples with age `>=` the period are removed.
  The comparison at cache.go:48 is strict, so a sample exactly one period old is
  kept (`Cache.PurgeKeepsBoundary`).
- The history never deletes a deployment's entry. Purging only removes a
  prefix.
- `getMetrics` does not divide the growth by a pod count.
- A growth of 0 is accepted, although the error message says "must be
  positive".

main.go:58 names the default metric `defaultScaleMetricName`, while
constants.go:36 spells it `defualtScaleMetricName`. The model uses its value,
`"bytes_out"`. main.go:91 reads `oldMetricData.metric.value`, but the sample
type at cache.go:15-18 has only `timestamp` and `metricValue`. The model reads
the sample's `metricValue`.

## Model

| member | source | states |
|---|---|---|
| Status.Wrap64 | main.go:96 | Go's int64 subtraction: the wrapped result equals the exact value whenever that is in int64 range, and is congruent to it modulo 2^64 |
| Cache.Expired | cache.go:47-48 | a sample has expired when its age at `now` is strictly more than the period; `ExpiredArePrefix` shows the expired samples of a time-ordered buffer are its leading ones |
| Cache.ExpiredCount | cache.go:46-51 | the number of expired samples is at most the buffer size; it is the size only when all have expired and 0 only when none has |
| Cache.ExpiredArePrefix | cache.go:42-54 | in a time-ordered buffer the samples counted by getPurgeIndex are exactly the leading ones: those before the count expired, those after did not |
| Cache.PurgeKeepsWindow | cache.go:66-71 | purge keeps a suffix of the buffer; every survivor is at most the period old and every removed sample was strictly older |
| Cache.PurgeKeepsBoundary | cache.go:64-71 | a sample exactly one period old survives the purge (the comparison is strict, unlike the comment's `>=`) |
| Cache.PurgeIdempotent | cache.go:66-71 | purging again at the same time with the same period removes nothing more |
| Cache.NoneExpiredCountsZero | cache.go:46-51 | when no sample has expired the purge index is 0 |
| Cache.PurgePreservesWellformed | cache.go:71 | slicing off the expired prefix keeps values strictly increasing and timestamps non-decreasing |
| Cache.AppendPreservesWellformed | cache.go:34-39 | appending at a time no earlier than any stored sample keeps values strictly increasing and timestamps non-decreasing, and no sample is later than that time |
| Cache.MetricCache.constructor | cache.go:11-13 | the zero-value cache is empty and satisfies the invariant |
| Cache.MetricCache.GetSize | cache.go:24-26 | the size is the buffer length |
| Cache.MetricCache.IsEmpty | cache.go:28-30 | empty exactly when the buffer has no sample |
| Cache.MetricCache.Append | cache.go:32-40 | an empty buffer gets exactly the one new sample; a value not above the last leaves the buffer unchanged; a larger value is added once at the end with earlier samples untouched; the invariant is kept |
| Cache.MetricCache.GetPurgeIndex | cache.go:42-54 | the loop returns the number of samples whose age is strictly more than the period, counted over the whole buffer, between 0 and the size |
| Cache.MetricCache.Purge | cache.go:56-76 | the new buffer is the old one without its expired prefix; an empty buffer stays empty; survivors are within the window; removed samples were older; the invariant is kept |
| Cache.MetricCache.GetOldestMetricData | cache.go:78-84 | fails with NotFound exactly when the buffer is empty, otherwise returns the first sample |
| Utils.TrimSpace | utils.go:50 | the result has no white space (Go's `unicode.IsSpace`) at either end |
| Utils.TrimSpaceTrims | utils.go:53 | the result is the slice of the input between its leading and its trailing white space |
| Utils.TrimmedUnchanged | utils.go:53 | a string without white space at its ends is its own trim |
| Utils.TrimSpaceIdempotent | utils.go:53 | trimming twice is trimming once |
| Utils.PaddedTrim | utils.go:50 | white space around a trimmed string is exactly what is removed |
| Utils.GetValueFromScalerMetadata | utils.go:49-58 | the value stored under the trimmed key comes back trimmed, even when that is empty; a missing key gives the default unchanged |
| Utils.MissingKeyGivesDefault | utils.go:54-56 | a key without surrounding white space that is not in the metadata gives the default |
| Utils.GetValueFromScalerMetadataTrimsKey | utils.go:50-53 | a key padded with white space finds the entry of the bare key, whose value comes back trimmed even when that is empty |
| Utils.GetEnv | utils.go:16-25 | a variable that is set and not blank gives its own trimmed value; an unset or blank variable gives the default |
| Utils.UnsetEnvGivesDefault | utils.go:19-23 | a variable that is not set gives the default |
| Utils.IndexOf | utils.go:30 | the index `strings.Replace` replaces at: the first occurrence of the pattern, and none when it does not occur |
| Utils.ReplaceFirst | utils.go:41 | a template without the pattern is returned unchanged; otherwise the first occurrence is replaced and the text around it kept |
| Utils.ReplaceFirstLeavesLater | utils.go:41 | only the first occurrence is replaced; later ones stay |
| Utils.FirstOccurrence | utils.go:41 | an occurrence with none before it is the one replaced |
| Utils.DeploymentIdLookup | utils.go:40 | a deployment id stored without surrounding white space is the id used |
| Utils.TemplateStartsWithId | utils.go:41 | a template starting with "deploymentid" gets the id in its place |
| Utils.PrefixFromDefaultTemplate | utils.go:38-41 | an unset template variable falls back to a default that starts with "deploymentid", which the id then replaces |
| Utils.GetMetricsPrefix | utils.go:38-47 | the metrics template (from the environment, else "deploymentid:minio-metrics") with its first "deploymentid" replaced by the deployment id; `ReplaceFirst` and `DefaultMetricsPrefix` state what that gives |
| Utils.GetLastUpdatePrefix | utils.go:27-36 | the last-update template (from the environment, else "deploymentid:last_action") with its first "deploymentid" replaced by the deployment id; `ReplaceFirst` and `DefaultLastUpdatePrefix` state what that gives |
| Utils.DefaultMetricsPrefix | utils.go:38-47 | with the default template and id X the metrics prefix is "X:minio-metrics" |
| Utils.DefaultLastUpdatePrefix | utils.go:27-36 | with the default template and id X the last-update prefix is "X:last_action" |
| Utils.Split | utils.go:103 | `strings.Split` on a separator character: at least one part, and no part contains the separator |
| Utils.SplitJoin | utils.go:103 | joining the parts with the separator gives back the input |
| Utils.HasPrefix | utils.go:105 | `strings.HasPrefix`: the prefix is no longer than the name and agrees with it character by character |
| Utils.MatchCount | utils.go:104-109 | the count of pods matching a prefix is at most the number of pods |
| Utils.TrimEach | utils.go:105 | every deployment name is trimmed, one for one |
| Utils.CountMatches | utils.go:104-109 | the inner loop counts exactly the pods whose name starts with the prefix |
| Utils.CountAllMatches | utils.go:103-110 | the outer loop adds up, over every comma-separated name trimmed, the pods it matches, a pod once per name it matches |
| Utils.CountPods | utils.go:99-117 | the pod count: the sum over the names, or every pod when the trimmed list is empty; never negative |
| Utils.EmptyPrefixMatchesAll | utils.go:105 | the empty prefix matches every pod |
| Utils.SumIncludesEach | utils.go:103-110 | every name contributes all its matches to the count |
| Utils.SumBound | utils.go:103-110 | the count is at most one per pod per name |
| Utils.PodCountBounds | utils.go:101-117 | an empty trimmed list counts every pod; otherwise at most one per pod per name; an empty segment such as "a,,b" counts every pod at least once |
| Scaler.DeploymentId | main.go:76 | the deployment id of a request (also main.go:34): the trimmed "deploymentid" metadata value, else "deploymentid"; `DeploymentIdLookedUp` shows it is the lookup the source makes |
| Scaler.DeploymentIdLookedUp | main.go:76 | the deployment id is the metadata lookup of "deploymentid" with default "deploymentid" |
| Scaler.TruncSeconds | main.go:49 | `int64(d.Seconds())`: the whole seconds in the elapsed time, truncated toward zero for either sign |
| Scaler.AppendAndPurge | main.go:46 | one id's history after append-then-purge, computed by `MetricCache`, keeps the invariant |
| Scaler.OldestSample | main.go:77 | the oldest sample of a history, or NotFound when it is empty |
| Scaler.KeyedCache.constructor | cache.go:11-13 | a fresh keyed history holds no deployment |
| Scaler.KeyedCache.Append | main.go:46 | only the id's history changes: the value is appended and the result purged; the invariant is kept for every id |
| Scaler.KeyedCache.GetOldestMetricData | main.go:77-80 | NotFound exactly when the id has no sample, otherwise its oldest sample |
| Scaler.GetMetricSpec | main.go:55-71 | InvalidArgument exactly when the target does not parse or is negative; otherwise the metric name from the metadata (default "bytes_out") and the non-negative target |
| Scaler.DefaultMetricSpec | main.go:58-61 | without metadata the spec is ("bytes_out", 10) |
| Scaler.MetricGrowth | main.go:76-103 | NotFound when there is no sample, before the fetched metric is consulted; the fetch's error; InvalidArgument on a name mismatch and InvalidArgument on a negative growth; otherwise Ok with the requested name and the growth new minus old in 64-bit arithmetic, which is at least 0 and is the exact difference when both values are non-negative |
| Scaler.GetMetrics | main.go:73-104 | the answer computed against the keyed history is the one `MetricGrowth` describes for the deployment's history |
| Scaler.DifferenceWrapsAround | main.go:96-97 | the 64-bit subtraction wraps: an oldest sample of 1 and a fetched smallest int64 make getMetrics answer Ok with the largest int64 |
| Scaler.IsActive | main.go:21-53 | the first failing fetch (TTL, last update, metric, period in that order) is returned with the history untouched; when all four succeed the answer is Ok, the metric value is appended once to the deployment's history and purged, and the answer is whether fewer whole seconds than the TTL have passed |
| Scaler.AppendThenPurgeKeepsNewest | main.go:46 | when the value is appended and the period is not negative, the history ends with the new sample, so a following getMetrics finds one |
| Scaler.StaleHistoryPurgedEmpty | main.go:46 | for every time-ordered history whose newest sample has expired, a value not above that sample is not appended and the purge leaves the history empty, so a following getMetrics fails with NotFound |
| Scaler.WindowScenario | cache.go:66-71 | with a 600-second window, samples at 0 s and 10 s survive at 10 s; at 700 s only the new sample is left, and the growth to 450 is 50 |

## Left out

- redis.go: the network client, its connection, ping and GET. Its results appear as the `Result` inputs of `isActive` and `getMetrics`.
- The gRPC handlers, `main`, `init` and the log formatter (main.go:106-200). They are wire mapping, socket listening and logging setup.
- Kubernetes client construction and listing (utils.go:63-92) and the namespace lookup. The counting works on a given list of pod names.
- Logging and error message texts. Only the status codes are modelled.
- Concurrency on the global cache variable. There is no lock, and the model is sequential.
- `getMetric`, `getLastUpdateTime`, `getIsActiveTtlSeconds`, `getScalePeriodSeconds` and `parseInt64` are not part of this model. Their results are inputs.
- Cache.MetricCache.Append: requires `now` to be no earlier than any stored sample. cache.go stamps samples with `time.Now().UTC()`, a wall-clock reading that can step back, and then time order (on which `getPurgeIndex` relies to cut a prefix) would not hold.
- Scaler.KeyedCache.Append: requires, like `MetricCache.Append`, that no stored sample is later than `now`.
- Scaler.IsActive: requires the same clock assumption as `KeyedCache.Append`. `time.Since` saturating at the largest duration is not modelled.
- Strings are sequences of Unicode characters, while Go strings are bytes. Invalid UTF-8 in `strings.TrimSpace`, `strings.Index`, `strings.Split` and `strings.HasPrefix` is not modelled.
- The source reads the clock separately at cache.go:36, cache.go:45 and main.go:49. One `isActive` call in the model uses a single `now` for the append, the purge and the elapsed time, so the few nanoseconds between those readings are not modelled.
- Cache.Expired: compares integer nanoseconds with the period times 10^9, where cache.go:48 compares float64 seconds. Float rounding at very large ages is not modelled.
- Scaler.TruncSeconds: is exact integer truncation, where main.go:49 converts float64 seconds. Rounding of huge durations is not modelled.
- Utils.CountPods: the count is an unbounded integer. The int64 counter of utils.go:101 cannot overflow for any real pod list.
