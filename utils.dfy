/**
 * The lookup and string helpers of utils.go, and the counting loop of
 * `getNoOfPods` over a given list of pod names. The environment is a map;
 * a variable that is not set reads as the empty string, as `os.Getenv` does.
 */
module Utils {
  import opened Status

  // Keys and defaults of constants.go that the helpers use.
  const KeyDeploymentId := "deploymentid"
  const DefaultDeploymentId := "deploymentid"
  const KeyLastUpdatePrefixTemplate := "LAST_UPDATE_PREFIX_TEMPLATE"
  const KeyMetricsPrefixTemplate := "METRICS_PREFIX_TEMPLATE"
  const DefaultLastUpdatePrefixTemplate := "deploymentid:last_action"
  const DefaultMetricsPrefixTemplate := "deploymentid:minio-metrics"

  /** The characters Go's `unicode.IsSpace` accepts. */
  const SpaceChars: set<char> := {
    '\t', '\n', '\U{0B}', '\U{0C}', '\r', ' ', '\U{85}', '\U{A0}', '\U{1680}',
    '\U{2000}', '\U{2001}', '\U{2002}', '\U{2003}', '\U{2004}', '\U{2005}',
    '\U{2006}', '\U{2007}', '\U{2008}', '\U{2009}', '\U{200A}',
    '\U{2028}', '\U{2029}', '\U{202F}', '\U{205F}', '\U{3000}'
  }

  /** Go's `unicode.IsSpace`. */
  predicate IsSpace(c: char)
  {
    c in SpaceChars
  }

  /** The number of white-space characters at the start of `s`. */
  function LeadingSpaces(s: string): (n: nat)
    ensures n <= |s|
    ensures forall i :: 0 <= i < n ==> IsSpace(s[i])
    ensures n == |s| || !IsSpace(s[n])
  {
    if s != [] && IsSpace(s[0]) then 1 + LeadingSpaces(s[1..]) else 0
  }

  /** The number of white-space characters at the end of `s`. */
  function TrailingSpaces(s: string): (n: nat)
    ensures n <= |s|
    ensures forall i :: |s| - n <= i < |s| ==> IsSpace(s[i])
    ensures n == |s| || !IsSpace(s[|s| - n - 1])
  {
    if s != [] && IsSpace(s[|s| - 1]) then 1 + TrailingSpaces(s[..|s| - 1]) else 0
  }

  /** `s` without its leading white space. */
  function TrimLeft(s: string): string
  {
    s[LeadingSpaces(s)..]
  }

  /** `s` without its trailing white space. */
  function TrimRight(s: string): string
  {
    s[..|s| - TrailingSpaces(s)]
  }

  /** Go's `strings.TrimSpace`: no white space is left at either end. */
  function TrimSpace(s: string): (r: string)
    ensures Trimmed(r)
  {
    TrimRight(TrimLeft(s))
  }

  /** `s` has no white space at either end. */
  predicate Trimmed(s: string)
  {
    s == [] || (!IsSpace(s[0]) && !IsSpace(s[|s| - 1]))
  }

  /** A string with no white space at either end is its own trim. */
  lemma TrimmedUnchanged(s: string)
    requires Trimmed(s)
    ensures TrimSpace(s) == s
  {
    assert s[0..] == s;
    assert s[..|s|] == s;
  }

  /**
   * `TrimSpace(s)` is the part of `s` left after dropping white space at both
   * ends (and, by its own contract, has none left at either end).
   */
  lemma TrimSpaceTrims(s: string)
    ensures var r := TrimSpace(s); var lo := LeadingSpaces(s);
      && lo + |r| <= |s| && r == s[lo..lo + |r|]
      && (forall i :: 0 <= i < lo ==> IsSpace(s[i]))
      && (forall i :: lo + |r| <= i < |s| ==> IsSpace(s[i]))
  {
    var lo := LeadingSpaces(s);
    var l := s[lo..];
    var t := TrailingSpaces(l);
    assert TrimSpace(s) == s[lo..|s| - t];
    forall i | |s| - t <= i < |s|
      ensures IsSpace(s[i])
    {
      assert s[i] == l[i - lo];
    }
  }

  /** Trimming twice is trimming once. */
  lemma TrimSpaceIdempotent(s: string)
    ensures TrimSpace(TrimSpace(s)) == TrimSpace(s)
  {
    TrimmedUnchanged(TrimSpace(s));
  }

  /** `getValueFromScalerMetadata`: the trimmed value stored under the trimmed key, else the default. */
  function GetValueFromScalerMetadata(metadata: map<string, string>, key: string, defaultValue: string): (r: string)
    ensures TrimSpace(key) in metadata ==> r == TrimSpace(metadata[TrimSpace(key)]) && Trimmed(r)
    ensures TrimSpace(key) !in metadata ==> r == defaultValue
  {
    var key := TrimSpace(key);
    if key in metadata then TrimSpace(metadata[key]) else defaultValue
  }

  /** A key without surrounding white space that is not in the metadata gives the default. */
  lemma MissingKeyGivesDefault(metadata: map<string, string>, key: string, defaultValue: string)
    requires Trimmed(key) && key !in metadata
    ensures GetValueFromScalerMetadata(metadata, key, defaultValue) == defaultValue
  {
    TrimmedUnchanged(key);
  }

  /**
   * Looking up a key padded with white space is the same as looking up the key;
   * a present key yields its stored value trimmed, even when that is empty.
   */
  lemma GetValueFromScalerMetadataTrimsKey(metadata: map<string, string>, key: string, pad1: string, pad2: string, defaultValue: string)
    requires forall i :: 0 <= i < |pad1| ==> IsSpace(pad1[i])
    requires forall i :: 0 <= i < |pad2| ==> IsSpace(pad2[i])
    requires Trimmed(key)
    ensures GetValueFromScalerMetadata(metadata, pad1 + key + pad2, defaultValue)
         == if key in metadata then TrimSpace(metadata[key]) else defaultValue
  {
    PaddedTrim(key, pad1, pad2);
    var padded := pad1 + key + pad2;
    assert TrimSpace(padded) == key;
  }

  /** White space put in front of `s` adds to its leading white space. */
  lemma {:induction false} LeadingSpacesPadded(pad: string, s: string)
    requires forall i :: 0 <= i < |pad| ==> IsSpace(pad[i])
    ensures LeadingSpaces(pad + s) == |pad| + LeadingSpaces(s)
  {
    if pad != [] {
      assert (pad + s)[1..] == pad[1..] + s;
      LeadingSpacesPadded(pad[1..], s);
    } else {
      assert pad + s == s;
    }
  }

  /** White space put after `s` adds to its trailing white space. */
  lemma {:induction false} TrailingSpacesPadded(s: string, pad: string)
    requires forall i :: 0 <= i < |pad| ==> IsSpace(pad[i])
    ensures TrailingSpaces(s + pad) == TrailingSpaces(s) + |pad|
  {
    if pad != [] {
      assert (s + pad)[..|s + pad| - 1] == s + pad[..|pad| - 1];
      TrailingSpacesPadded(s, pad[..|pad| - 1]);
    } else {
      assert s + pad == s;
    }
  }

  /** White space around a trimmed string is exactly what `TrimSpace` removes. */
  lemma PaddedTrim(s: string, pad1: string, pad2: string)
    requires forall i :: 0 <= i < |pad1| ==> IsSpace(pad1[i])
    requires forall i :: 0 <= i < |pad2| ==> IsSpace(pad2[i])
    requires Trimmed(s)
    ensures TrimSpace(pad1 + s + pad2) == s
  {
    var x := pad1 + s + pad2;
    if s == [] {
      assert forall i :: 0 <= i < |x| ==> IsSpace(x[i]) by {
        forall i | 0 <= i < |x| ensures IsSpace(x[i]) {
          if i >= |pad1| { assert x[i] == pad2[i - |pad1|]; }
        }
      }
      LeadingSpacesPadded(x, []);
      assert x + [] == x;
    } else {
      assert x == pad1 + (s + pad2);
      LeadingSpacesPadded(pad1, s + pad2);
      assert TrimLeft(x) == s + pad2;
      TrailingSpacesPadded(s, pad2);
      assert (s + pad2)[..|s|] == s;
    }
  }

  /** `getEnv`: the trimmed value of the variable when that is not empty, else the default. */
  function GetEnv(env: map<string, string>, key: string, defaultValue: string): (r: string)
    ensures r == defaultValue || (r != [] && Trimmed(r))
    ensures (TrimSpace(key) !in env || TrimSpace(env[TrimSpace(key)]) == []) ==> r == defaultValue
    ensures TrimSpace(key) in env && TrimSpace(env[TrimSpace(key)]) != [] ==> r == TrimSpace(env[TrimSpace(key)])
  {
    var key := TrimSpace(key);
    var value := TrimSpace(if key in env then env[key] else "");
    if value != "" then value else defaultValue
  }

  /** `pattern` occurs in `s` starting at index `k`. */
  predicate OccursAt(s: string, pattern: string, k: int)
  {
    0 <= k && k + |pattern| <= |s| && s[k..k + |pattern|] == pattern
  }

  /**
   * The first index at which `pattern` occurs in `s`, as Go's `strings.Index`
   * (an empty pattern occurs at 0).
   */
  function IndexOf(s: string, pattern: string): (r: Option<nat>)
    ensures r.Some? ==> OccursAt(s, pattern, r.value)
    ensures r.Some? ==> forall k :: 0 <= k < r.value ==> !OccursAt(s, pattern, k)
    ensures r.None? ==> forall k :: !OccursAt(s, pattern, k)
  {
    if |s| < |pattern| then None
    else if s[..|pattern|] == pattern then Some(0)
    else
      var r := IndexOf(s[1..], pattern);
      ShiftOccurs(s, pattern);
      if r.None? then None else Some(r.value + 1)
  }

  /** An occurrence in `s[1..]` at `k` is an occurrence in `s` at `k + 1`, and back. */
  lemma ShiftOccurs(s: string, pattern: string)
    requires s != []
    ensures forall k :: 1 <= k ==> (OccursAt(s, pattern, k) <==> OccursAt(s[1..], pattern, k - 1))
  {
    forall k | 1 <= k
      ensures OccursAt(s, pattern, k) <==> OccursAt(s[1..], pattern, k - 1)
    {
      if k + |pattern| <= |s| {
        var here, there := s[k..k + |pattern|], s[1..][k - 1..k - 1 + |pattern|];
        forall j | 0 <= j < |pattern|
          ensures here[j] == there[j]
        {
          assert here[j] == s[k + j] && there[j] == s[1..][k - 1 + j];
        }
        assert here == there;
      }
    }
  }

  /**
   * Go's `strings.Replace(s, old, new, 1)`: the first occurrence of `old`
   * replaced by `new`; an empty `old` matches at the start.
   */
  function ReplaceFirst(s: string, target: string, replacement: string): (r: string)
    ensures IndexOf(s, target).None? ==> r == s
    ensures IndexOf(s, target).Some? ==>
      var i := IndexOf(s, target).value;
      r == s[..i] + replacement + s[i + |target|..]
  {
    if target == replacement then s
    else
      match IndexOf(s, target)
      case None => s
      case Some(i) => s[..i] + replacement + s[i + |target|..]
  }

  /** `getMetricsPrefix`: the metrics key template with the deployment id in place of "deploymentid". */
  function GetMetricsPrefix(env: map<string, string>, metadata: map<string, string>): string
  {
    var template := GetEnv(env, KeyMetricsPrefixTemplate, DefaultMetricsPrefixTemplate);
    var deploymentId := GetValueFromScalerMetadata(metadata, KeyDeploymentId, DefaultDeploymentId);
    ReplaceFirst(template, KeyDeploymentId, deploymentId)
  }

  /** `getLastUpdatPrefix`: the last-update key template with the deployment id in place of "deploymentid". */
  function GetLastUpdatePrefix(env: map<string, string>, metadata: map<string, string>): string
  {
    var template := GetEnv(env, KeyLastUpdatePrefixTemplate, DefaultLastUpdatePrefixTemplate);
    var deploymentId := GetValueFromScalerMetadata(metadata, KeyDeploymentId, DefaultDeploymentId);
    ReplaceFirst(template, KeyDeploymentId, deploymentId)
  }

  /**
   * Only the first occurrence is replaced: when `target` first occurs at the end
   * of `prefix + target`, whatever follows it is kept as it is, later occurrences included.
   */
  lemma ReplaceFirstLeavesLater(prefix: string, target: string, rest: string, replacement: string)
    requires IndexOf(prefix + target, target) == Some(|prefix|)
    ensures ReplaceFirst(prefix + target + rest, target, replacement) == prefix + replacement + rest
  {
    var t := prefix + target;
    var s := t + rest;
    var k := |target|;
    assert OccursAt(s, target, |prefix|) by {
      assert s[|prefix|..|prefix| + k] == t[|prefix|..|prefix| + k];
    }
    forall j | 0 <= j < |prefix|
      ensures !OccursAt(s, target, j)
    {
      assert !OccursAt(t, target, j);
      assert s[j..j + k] == t[j..j + k];
    }
    FirstOccurrence(s, target, |prefix|);
    assert s[..|prefix|] == prefix;
    assert s[|prefix| + k..] == rest;
  }

  /** The first index where `pattern` occurs is the one `IndexOf` finds. */
  lemma {:induction false} FirstOccurrence(s: string, pattern: string, k: nat)
    requires OccursAt(s, pattern, k)
    requires forall j :: 0 <= j < k ==> !OccursAt(s, pattern, j)
    ensures IndexOf(s, pattern) == Some(k)
  {
    if k > 0 {
      assert !OccursAt(s, pattern, 0);
      ShiftOccurs(s, pattern);
      forall j | 0 <= j < k - 1
        ensures !OccursAt(s[1..], pattern, j)
      {
        assert !OccursAt(s, pattern, j + 1);
      }
      FirstOccurrence(s[1..], pattern, k - 1);
    }
  }

  /** A deployment id without surrounding white space is looked up as it is stored. */
  lemma DeploymentIdLookup(metadata: map<string, string>, id: string)
    requires KeyDeploymentId in metadata && metadata[KeyDeploymentId] == id && Trimmed(id)
    ensures GetValueFromScalerMetadata(metadata, KeyDeploymentId, DefaultDeploymentId) == id
  {
    assert KeyDeploymentId[0] == 'd' && KeyDeploymentId[|KeyDeploymentId| - 1] == 'd';
    TrimmedUnchanged(KeyDeploymentId);
    TrimmedUnchanged(id);
  }

  /** An unset variable reads as the default. */
  lemma UnsetEnvGivesDefault(env: map<string, string>, key: string, defaultValue: string)
    requires Trimmed(key) && key !in env
    ensures GetEnv(env, key, defaultValue) == defaultValue
  {
    assert TrimSpace("") == "";
    TrimmedUnchanged(key);
  }

  /** A template that starts with "deploymentid" gets the id in its place. */
  lemma TemplateStartsWithId(template: string, rest: string, id: string)
    requires template == KeyDeploymentId + rest
    ensures ReplaceFirst(template, KeyDeploymentId, id) == id + rest
  {
    FirstOccurrence(template, KeyDeploymentId, 0);
  }

  /**
   * A template that is not set in the environment falls back to its default;
   * when that default is "deploymentid" followed by `rest`, and the metadata
   * holds the id `id` without surrounding white space, the prefix is `id + rest`.
   */
  lemma PrefixFromDefaultTemplate(env: map<string, string>, metadata: map<string, string>, templateKey: string, rest: string, id: string)
    requires Trimmed(templateKey) && templateKey !in env
    requires KeyDeploymentId in metadata && metadata[KeyDeploymentId] == id && Trimmed(id)
    ensures ReplaceFirst(GetEnv(env, templateKey, KeyDeploymentId + rest), KeyDeploymentId,
                         GetValueFromScalerMetadata(metadata, KeyDeploymentId, DefaultDeploymentId)) == id + rest
  {
    UnsetEnvGivesDefault(env, templateKey, KeyDeploymentId + rest);
    DeploymentIdLookup(metadata, id);
    TemplateStartsWithId(KeyDeploymentId + rest, rest, id);
  }

  /**
   * With no template set in the environment and a deployment id `id` (without
   * surrounding white space) in the metadata, the metrics prefix is
   * `id + ":minio-metrics"`.
   */
  lemma DefaultMetricsPrefix(env: map<string, string>, metadata: map<string, string>, id: string)
    requires KeyMetricsPrefixTemplate !in env
    requires KeyDeploymentId in metadata && metadata[KeyDeploymentId] == id && Trimmed(id)
    ensures GetMetricsPrefix(env, metadata) == id + ":minio-metrics"
  {
    assert DefaultMetricsPrefixTemplate == KeyDeploymentId + ":minio-metrics";
    assert KeyMetricsPrefixTemplate[0] == 'M' && KeyMetricsPrefixTemplate[|KeyMetricsPrefixTemplate| - 1] == 'E';
    PrefixFromDefaultTemplate(env, metadata, KeyMetricsPrefixTemplate, ":minio-metrics", id);
  }

  /** Likewise the last-update prefix is `id + ":last_action"`. */
  lemma DefaultLastUpdatePrefix(env: map<string, string>, metadata: map<string, string>, id: string)
    requires KeyLastUpdatePrefixTemplate !in env
    requires KeyDeploymentId in metadata && metadata[KeyDeploymentId] == id && Trimmed(id)
    ensures GetLastUpdatePrefix(env, metadata) == id + ":last_action"
  {
    assert DefaultLastUpdatePrefixTemplate == KeyDeploymentId + ":last_action";
    assert KeyLastUpdatePrefixTemplate[0] == 'L' && KeyLastUpdatePrefixTemplate[|KeyLastUpdatePrefixTemplate| - 1] == 'E';
    PrefixFromDefaultTemplate(env, metadata, KeyLastUpdatePrefixTemplate, ":last_action", id);
  }

  /** Go's `strings.Split(s, string(sep))` for a one-character separator. */
  function Split(s: string, sep: char): (parts: seq<string>)
    ensures |parts| >= 1
    ensures forall k :: 0 <= k < |parts| ==> sep !in parts[k]
  {
    if s == [] then [[]]
    else
      var rest := Split(s[1..], sep);
      if s[0] == sep then [[]] + rest else [[s[0]] + rest[0]] + rest[1..]
  }

  /** The parts joined back with the separator between them. */
  function Join(parts: seq<string>, sep: char): string
    requires |parts| >= 1
  {
    if |parts| == 1 then parts[0] else parts[0] + [sep] + Join(parts[1..], sep)
  }

  /** Splitting loses nothing: joining the parts gives back the input. */
  lemma {:induction false} SplitJoin(s: string, sep: char)
    ensures Join(Split(s, sep), sep) == s
  {
    if s != [] {
      var rest := Split(s[1..], sep);
      SplitJoin(s[1..], sep);
      if s[0] == sep {
        assert Split(s, sep)[1..] == rest;
      } else {
        var parts := Split(s, sep);
        if |rest| == 1 {
          assert parts == [[s[0]] + rest[0]];
        } else {
          assert parts[1..] == rest[1..];
          assert Join(rest, sep) == rest[0] + [sep] + Join(rest[1..], sep);
        }
      }
    }
  }

  /** Go's `strings.HasPrefix`. */
  predicate HasPrefix(s: string, prefix: string)
    ensures HasPrefix(s, prefix) <==> |prefix| <= |s| && forall i :: 0 <= i < |prefix| ==> s[i] == prefix[i]
  {
    |prefix| <= |s| && s[..|prefix|] == prefix
  }

  /** The number of pods whose name starts with `prefix`. */
  function MatchCount(podNames: seq<string>, prefix: string): (n: nat)
    ensures n <= |podNames|
  {
    if podNames == [] then 0
    else
      MatchCount(podNames[..|podNames| - 1], prefix)
        + (if HasPrefix(podNames[|podNames| - 1], prefix) then 1 else 0)
  }

  /** The pods matched by every prefix added up, a pod counted once per prefix it matches. */
  function SumOfMatches(podNames: seq<string>, prefixes: seq<string>): nat
  {
    if prefixes == [] then 0
    else SumOfMatches(podNames, prefixes[..|prefixes| - 1]) + MatchCount(podNames, prefixes[|prefixes| - 1])
  }

  /** Every part trimmed. */
  function TrimEach(parts: seq<string>): (r: seq<string>)
    ensures |r| == |parts| && forall i :: 0 <= i < |parts| ==> r[i] == TrimSpace(parts[i])
  {
    seq(|parts|, i requires 0 <= i < |parts| => TrimSpace(parts[i]))
  }

  /**
   * The pod count of `getNoOfPods`: every pod when the trimmed list of
   * deployment names is empty, else the sum over its comma-separated parts,
   * each trimmed and used as a pod-name prefix.
   */
  function PodCount(podNames: seq<string>, deploymentNames: string): nat
  {
    var names := TrimSpace(deploymentNames);
    if names != "" then SumOfMatches(podNames, TrimEach(Split(names, ','))) else |podNames|
  }

  /** The inner loop of `getNoOfPods`: the pods whose name starts with `prefix`. */
  method CountMatches(podNames: seq<string>, prefix: string) returns (matches: int)
    ensures matches == MatchCount(podNames, prefix)
  {
    matches := 0;
    var j := 0;
    while j < |podNames|
      invariant 0 <= j <= |podNames|
      invariant matches == MatchCount(podNames[..j], prefix)
    {
      assert podNames[..j + 1][..j] == podNames[..j];
      if HasPrefix(podNames[j], prefix) {
        matches := matches + 1;
      }
      j := j + 1;
    }
    assert podNames[..j] == podNames;
  }

  /**
   * The outer loop of `getNoOfPods`: for every comma-separated deployment
   * name, trimmed, the pods whose name starts with it.
   */
  method CountAllMatches(podNames: seq<string>, deploymentNames: seq<string>) returns (pods: int)
    ensures pods == SumOfMatches(podNames, TrimEach(deploymentNames))
  {
    pods := 0;
    ghost var prefixes := TrimEach(deploymentNames);
    var i := 0;
    while i < |deploymentNames|
      invariant 0 <= i <= |deploymentNames|
      invariant pods == SumOfMatches(podNames, prefixes[..i])
    {
      assert prefixes[..i + 1][..i] == prefixes[..i];
      var matches := CountMatches(podNames, TrimSpace(deploymentNames[i]));
      pods := pods + matches;
      i := i + 1;
    }
    assert prefixes[..i] == prefixes;
  }

  /**
   * The counting of `getNoOfPods` over the listed pod names: the matches of
   * every comma-separated deployment name, or every pod when the trimmed list
   * of names is empty.
   */
  method CountPods(podNames: seq<string>, deploymentNames: string) returns (pods: int)
    ensures pods == PodCount(podNames, deploymentNames)
    ensures pods >= 0
  {
    var names := TrimSpace(deploymentNames);
    if names != "" {
      pods := CountAllMatches(podNames, Split(names, ','));
    } else {
      pods := |podNames|;
    }
  }

  /** The empty prefix matches every pod. */
  lemma {:induction false} EmptyPrefixMatchesAll(podNames: seq<string>)
    ensures MatchCount(podNames, "") == |podNames|
  {
    if podNames != [] {
      EmptyPrefixMatchesAll(podNames[..|podNames| - 1]);
    }
  }

  /** Each prefix contributes its own matches to the sum. */
  lemma {:induction false} SumIncludesEach(podNames: seq<string>, prefixes: seq<string>, k: nat)
    requires k < |prefixes|
    ensures SumOfMatches(podNames, prefixes) >= MatchCount(podNames, prefixes[k])
  {
    if k < |prefixes| - 1 {
      SumIncludesEach(podNames, prefixes[..|prefixes| - 1], k);
    }
  }

  /** No more than one match per pod per deployment name. */
  lemma {:induction false} SumBound(podNames: seq<string>, prefixes: seq<string>)
    ensures SumOfMatches(podNames, prefixes) <= |prefixes| * |podNames|
  {
    if prefixes != [] {
      var n, m := |prefixes| - 1, |podNames|;
      SumBound(podNames, prefixes[..n]);
      assert (n + 1) * m == n * m + m;
    }
  }

  /**
   * The pod count is at most one count of every pod per comma-separated name;
   * an empty name (as in "a,,b") counts every pod.
   */
  lemma PodCountBounds(podNames: seq<string>, deploymentNames: string)
    ensures var names := TrimSpace(deploymentNames);
      names == "" ==> PodCount(podNames, deploymentNames) == |podNames|
    ensures var names := TrimSpace(deploymentNames);
      names != "" ==> PodCount(podNames, deploymentNames) <= |Split(names, ',')| * |podNames|
    ensures var names := TrimSpace(deploymentNames); var parts := Split(names, ',');
      names != "" && (exists k :: 0 <= k < |parts| && TrimSpace(parts[k]) == "") ==>
        PodCount(podNames, deploymentNames) >= |podNames|
  {
    var names := TrimSpace(deploymentNames);
    var parts := Split(names, ',');
    if names != "" {
      var prefixes := TrimEach(parts);
      SumBound(podNames, prefixes);
      if k :| 0 <= k < |parts| && TrimSpace(parts[k]) == "" {
        SumIncludesEach(podNames, prefixes, k);
        EmptyPrefixMatchesAll(podNames);
      }
    }
  }
}
