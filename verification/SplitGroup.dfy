/** splitGroup: one entity's list of series divided into sub-entities by a label value,
    and FromFlattenedMetrics, which reads a sub-entity back (src/populator/populator.go,
    src/prometheus/definition.go). */
module SplitGroup {
  import opened RawData
  import opened Text
  import opened Narrowing

  predicate Carries(m: Metric, key: string, value: string) {
    key in m.labels && m.labels[key] == value
  }

  /** The series with a given label value, in order. */
  function SeriesWith(key: string, value: string, ms: seq<Metric>): seq<Metric> {
    if ms == [] then [] else
      var before, last := SeriesWith(key, value, ms[..|ms| - 1]), ms[|ms| - 1];
      if Carries(last, key, value) then before + [last] else before
  }

  /** The sub-entity for one label value: its series, and a copy of the shared metrics. */
  function Part(raw: RawMetrics, slice: string, key: string, value: string, ms: seq<Metric>): Option<RawMetrics> {
    var series := SeriesWith(key, value, ms);
    if series == [] then None else Some((raw - {slice})[slice := Series(series)])
  }

  ghost predicate IsSplit(parts: Entities, raw: RawMetrics, slice: string, key: string, ms: seq<Metric>) {
    forall r :: Lookup(parts, r) == Part(raw, slice, key, r, ms)
  }

  /** One iteration: get or create the part, then append to its list. */
  method AddToPart(parts: Entities, raw: RawMetrics, slice: string, r: string, m: Metric) returns (out: Entities)
    requires r in parts ==> slice in parts[r] && parts[r][slice].Series?
    ensures out == parts[r := if r in parts then parts[r][slice := Series(parts[r][slice].metrics + [m])]
                              else (raw - {slice})[slice := Series([m])]]
  {
    var part := if r in parts then parts[r] else raw - {slice};
    var series := if slice in part && part[slice].Series? then part[slice].metrics else [];
    assert r !in parts ==> [] + [m] == [m];
    out := parts[r := part[slice := Series(series + [m])]];
  }

  lemma SplitStep(parts: Entities, raw: RawMetrics, slice: string, key: string, ms: seq<Metric>, m: Metric)
    requires IsSplit(parts, raw, slice, key, ms)
    ensures key !in m.labels ==> IsSplit(parts, raw, slice, key, ms + [m])
    ensures key in m.labels ==>
              var r := m.labels[key];
              && (r in parts ==> slice in parts[r] && parts[r][slice].Series?)
              && IsSplit(parts[r := if r in parts then parts[r][slice := Series(parts[r][slice].metrics + [m])]
                                    else (raw - {slice})[slice := Series([m])]], raw, slice, key, ms + [m])
  {
    var more := ms + [m];
    assert more[..|ms|] == ms;
    if key in m.labels {
      var r := m.labels[key];
      assert Lookup(parts, r) == Part(raw, slice, key, r, ms);
      var out := parts[r := if r in parts then parts[r][slice := Series(parts[r][slice].metrics + [m])]
                            else (raw - {slice})[slice := Series([m])]];
      forall x ensures Lookup(out, x) == Part(raw, slice, key, x, more) {
        assert Lookup(parts, x) == Part(raw, slice, key, x, ms);
        if x == r {
          PartGrows(raw, slice, key, r, ms, m);
        }
      }
    } else {
      forall x ensures Lookup(parts, x) == Part(raw, slice, key, x, more) {
        assert Lookup(parts, x) == Part(raw, slice, key, x, ms);
      }
    }
  }

  lemma PartGrows(raw: RawMetrics, slice: string, key: string, r: string, ms: seq<Metric>, m: Metric)
    requires Carries(m, key, r)
    ensures Part(raw, slice, key, r, ms + [m]) ==
            var before := Part(raw, slice, key, r, ms);
            Some(if before.Some? then before.value[slice := Series(SeriesWith(key, r, ms) + [m])]
                 else (raw - {slice})[slice := Series([m])])
  {
    assert (ms + [m])[..|ms|] == ms;
    var series, shared := SeriesWith(key, r, ms), raw - {slice};
    assert SeriesWith(key, r, ms + [m]) == series + [m];
    assert series == [] ==> series + [m] == [m];
    assert shared[slice := Series(series)][slice := Series(series + [m])] == shared[slice := Series(series + [m])];
  }

  /** splitGroup: fails unless the metric to split holds a list. */
  method Split(raw: RawMetrics, sliceMetricName: string, group: string, key: string) returns (r: Result<Entities>)
    ensures var slice := if sliceMetricName == "" then group else sliceMetricName;
            if slice in raw && raw[slice].Series?
            then r.Ok? && IsSplit(r.value, raw, slice, key, raw[slice].metrics)
            else r == Err(NotASlice(group))
  {
    var slice := if sliceMetricName == "" then group else sliceMetricName;
    if slice !in raw || !raw[slice].Series? {
      return Err(NotASlice(group));
    }
    var ms, parts: Entities := raw[slice].metrics, map[];
    for i := 0 to |ms|
      invariant IsSplit(parts, raw, slice, key, ms[..i])
    {
      assert ms[..i + 1] == ms[..i] + [ms[i]];
      SplitStep(parts, raw, slice, key, ms[..i], ms[i]);
      if key in ms[i].labels {
        parts := AddToPart(parts, raw, slice, ms[i].labels[key], ms[i]);
      }
    }
    assert ms[..|ms|] == ms;
    return Ok(parts);
  }

  // ---- what a split is ---------------------------------------------------

  /** Every labelled series lands in the part of its own value, as often as it occurs, and
      in no other. */
  lemma {:induction false} PartitionExact(key: string, value: string, ms: seq<Metric>, m: Metric)
    ensures multiset(SeriesWith(key, value, ms))[m] == if Carries(m, key, value) then multiset(ms)[m] else 0
  {
    if ms != [] {
      PartitionExact(key, value, ms[..|ms| - 1], m);
      assert ms == ms[..|ms| - 1] + [ms[|ms| - 1]];
    }
  }

  /** A part exists exactly for the values that occur; shared metrics are copied to it. */
  lemma PartContents(parts: Entities, raw: RawMetrics, slice: string, key: string, ms: seq<Metric>, r: string)
    requires IsSplit(parts, raw, slice, key, ms)
    ensures r in parts <==> exists i :: 0 <= i < |ms| && Carries(ms[i], key, r)
    ensures r in parts ==> parts[r] - {slice} == raw - {slice}
  {
    assert Lookup(parts, r) == Part(raw, slice, key, r, ms);
    SeriesWithNonempty(key, r, ms);
  }

  /** A part has the bare metrics of the entity it was split from. */
  lemma PartSameBare(raw: RawMetrics, slice: string, key: string, r: string, part: RawMetrics)
    requires slice in raw && raw[slice].Series?
    requires Part(raw, slice, key, r, raw[slice].metrics) == Some(part)
    ensures SameBare(part, raw)
  {
    assert part[slice].Series?;
    forall k ensures Bare(part, k) == Bare(raw, k) {
    }
  }

  lemma {:induction false} SeriesWithNonempty(key: string, value: string, ms: seq<Metric>)
    ensures SeriesWith(key, value, ms) != [] <==> exists i :: 0 <= i < |ms| && Carries(ms[i], key, value)
  {
    if ms != [] {
      var front := ms[..|ms| - 1];
      SeriesWithNonempty(key, value, front);
      assert forall i :: 0 <= i < |front| ==> front[i] == ms[i];
      if SeriesWith(key, value, front) != [] {
        var i :| 0 <= i < |front| && Carries(front[i], key, value);
        assert Carries(ms[i], key, value);
      } else if Carries(ms[|ms| - 1], key, value) {
        assert Carries(ms[|ms| - 1], key, value);
      }
    }
  }

  // ---- FromFlattenedMetrics ----------------------------------------------

  function Flattened(ms: seq<Metric>, key: string): map<string, Leaf> {
    if ms == [] then map[] else
      var before, last := Flattened(ms[..|ms| - 1], key), ms[|ms| - 1];
      if key in last.labels then before[last.labels[key] := Sample(last.value)] else before
  }

  /** Anything but a non-empty list is no data, which is not an error. */
  function FlattenedFetch(v: Result<RawValue>, key: string): Result<Fetched> {
    if v.Err? then Err(v.error)
    else if v.value.Series? && v.value.metrics != [] then Ok(Bundle(Flattened(v.value.metrics, key)))
    else Ok(Scalar(Nil))
  }

  method FromFlattenedMetrics(metric: string, key: string, group: string, entity: string, groups: RawGroups)
    returns (r: Result<Fetched>)
    ensures r == FlattenedFetch(FromRaw(metric, group, entity, groups), key)
  {
    match FromRaw(metric, group, entity, groups) {
      case Err(e) => r := Err(e);
      case Ok(Series(ms)) =>
        if |ms| == 0 {
          return Ok(Scalar(Nil));
        }
        var values: map<string, Leaf> := map[];
        for i := 0 to |ms|
          invariant values == Flattened(ms[..i], key)
        {
          assert ms[..i + 1][..i] == ms[..i];
          if key in ms[i].labels {
            values := values[ms[i].labels[key] := Sample(ms[i].value)];
          }
        }
        assert ms[..|ms|] == ms;
        r := Ok(Bundle(values));
      case Ok(_) => r := Ok(Scalar(Nil));
    }
  }

  /** The last series carrying both label values. */
  function LastWith(splitKey: string, r: string, key: string, t: string, ms: seq<Metric>): Option<Metric> {
    if ms == [] then None
    else if Carries(ms[|ms| - 1], splitKey, r) && Carries(ms[|ms| - 1], key, t) then Some(ms[|ms| - 1])
    else LastWith(splitKey, r, key, t, ms[..|ms| - 1])
  }

  /** Flattening one part at t gives the last series of the original list with (r, t). */
  lemma {:induction false} FlattenedPart(splitKey: string, r: string, key: string, t: string, ms: seq<Metric>)
    ensures var flat := Flattened(SeriesWith(splitKey, r, ms), key);
            var last := LastWith(splitKey, r, key, t, ms);
            if last.None? then t !in flat else t in flat && flat[t] == Sample(last.value.value)
  {
    if ms != [] {
      var front, m := ms[..|ms| - 1], ms[|ms| - 1];
      FlattenedPart(splitKey, r, key, t, front);
      var before := SeriesWith(splitKey, r, front);
      assert (before + [m])[..|before|] == before;
    }
  }

  /** What flattening reports: for every value of the label the last series carrying it, and
      no data exactly for a stored value that is not a non-empty list. */
  lemma FlattenedExact(v: RawValue, key: string, t: string)
    ensures var f := FlattenedFetch(Ok(v), key);
            && f.Ok?
            && (f.value == Scalar(Nil) <==> v == Series([]) || !v.Series?)
            && (f.value != Scalar(Nil) ==>
                  && f.value.Bundle?
                  && var last := LastWith(key, t, key, t, v.metrics);
                     if last.None? then t !in f.value.values
                     else t in f.value.values && f.value.values[t] == Sample(last.value.value))
  {
    if v.Series? {
      FlattenedAt(v.metrics, key, t);
    }
  }

  lemma {:induction false} FlattenedAt(ms: seq<Metric>, key: string, t: string)
    ensures var last := LastWith(key, t, key, t, ms);
            if last.None? then t !in Flattened(ms, key)
            else t in Flattened(ms, key) && Flattened(ms, key)[t] == Sample(last.value.value)
  {
    if ms != [] {
      FlattenedAt(ms[..|ms| - 1], key, t);
    }
  }

  /** A sub-entity fetched through its narrowed groups reports, for each key value, the
      last input series with that pair of label values. */
  lemma SubEntityValues(groups: RawGroups, group: string, entity: string, raw: RawMetrics, slice: string,
                        splitKey: string, parts: Entities, r: string, key: string, t: string)
    requires slice in raw && raw[slice].Series?
    requires IsSplit(parts, raw, slice, splitKey, raw[slice].metrics) && r in parts
    ensures var v := FromRaw(slice, group, entity, Narrow(groups, group, entity, parts[r]));
            && v.Ok? && v.value.Series? && v.value.metrics != []
            && var flat := Flattened(v.value.metrics, key);
               var last := LastWith(splitKey, r, key, t, raw[slice].metrics);
               if last.None? then t !in flat else t in flat && flat[t] == Sample(last.value.value)
  {
    assert Lookup(parts, r) == Part(raw, slice, splitKey, r, raw[slice].metrics);
    FlattenedPart(splitKey, r, key, t, raw[slice].metrics);
  }

  /** Sub-entity IDs are distinct for distinct label values. */
  lemma SubIdsDistinct(entity: string, r: string, r': string)
    requires Joined(entity, r) == Joined(entity, r')
    ensures r == r'
  {
    PrefixCancel(entity + "_", r, r');
  }
}
