/** Counting the series whose labels match a filter (src/prometheus/definition.go). */
module Counting {
  import opened Aggregation
  import opened AttributeNames
  import opened RawData
  import opened Text

  // ---- filtered counting -------------------------------------------------

  predicate HasMatchingLabels(m: Metric, filters: seq<LabelsFilter>) {
    |Filtered(m.labels, filters)| != 0
  }

  /** A series matches exactly if some label of it passes every filter. */
  lemma MatchingIff(m: Metric, filters: seq<LabelsFilter>)
    ensures HasMatchingLabels(m, filters) <==>
            exists k :: k in m.labels && forall i :: 0 <= i < |filters| ==> Survives(filters[i], k, m.labels[k])
  {
    forall k ensures k in Filtered(m.labels, filters) <==>
                     k in m.labels && forall i :: 0 <= i < |filters| ==> Survives(filters[i], k, m.labels[k]) {
      FilteredExact(m.labels, filters, k);
    }
    if HasMatchingLabels(m, filters) {
      var k :| k in Filtered(m.labels, filters);
    }
  }

  /** The matching series, all under one name. */
  function Selected(name: string, series: seq<Metric>, filters: seq<LabelsFilter>): seq<Entry> {
    if series == [] then [] else
      var before, last := Selected(name, series[..|series| - 1], filters), series[|series| - 1];
      if HasMatchingLabels(last, filters) then before + [(name, last.value)] else before
  }

  method FetchedValuesFromRawMetricsWithLabels(metric: string, override: string, series: seq<Metric>,
                                               returnZeroWhenEmpty: bool, filters: seq<LabelsFilter>)
    returns (r: Result<map<string, Leaf>>)
    ensures var name := if override != "" then override else metric;
            var all := Fold(name, Selected(name, series, filters));
            r == if all.Ok? && all.value == map[] && returnZeroWhenEmpty
                 then Ok(map[name := Sample(Gauge(0.0))]) else all
  {
    var val: map<string, Leaf> := map[];
    var name := if override != "" then override else metric;
    for i := 0 to |series|
      invariant Fold(name, Selected(name, series[..i], filters)) == Ok(val)
    {
      var m := series[i];
      ghost var before := Selected(name, series[..i], filters);
      assert series[..i + 1][..i] == series[..i];
      var labels := FilterLabels(m.labels, filters);
      if |labels| != 0 {
        FoldSnoc(name, before, name, m.value, val);
        match Step(name, val, name, m.value) {
          case Err(e) =>
            SelectedErrSticks(name, series, filters, i + 1);
            return Err(e);
          case Ok(next) => val := next;
        }
      }
    }
    assert series[..|series|] == series;
    if returnZeroWhenEmpty && |val| == 0 {
      val := map[name := Sample(Gauge(0.0))];
    }
    return Ok(val);
  }

  lemma {:induction false} SelectedErrSticks(name: string, series: seq<Metric>, filters: seq<LabelsFilter>, i: nat)
    requires i <= |series| && Fold(name, Selected(name, series[..i], filters)).Err?
    ensures Fold(name, Selected(name, series, filters)) == Fold(name, Selected(name, series[..i], filters))
  {
    if i == |series| {
      assert series[..i] == series;
    } else {
      var front := series[..|series| - 1];
      assert front[..i] == series[..i];
      SelectedErrSticks(name, front, filters, i);
      var before, after := Selected(name, front, filters), Selected(name, series, filters);
      assert after[..|before|] == before;
      FoldErrSticks(name, after, |before|);
    }
  }

  /** Counting gauges yields the sum of the matching ones; no match counts as zero. */
  lemma GaugeCount(name: string, series: seq<Metric>, filters: seq<LabelsFilter>)
    requires Gauges(series)
    ensures var s := Selected(name, series, filters);
            Fold(name, s) == Ok(if s == [] then map[] else map[name := Sample(Gauge(Sum(Values(s))))])
  {
    var s := Selected(name, series, filters);
    SelectedGauges(name, series, filters);
    FoldExact(name, s);
    forall n ensures ValuesNamed(n, s) == (if n == name then Values(s) else []) && !NameClashes(n, s) {
      OneNameValues(n, name, s);
    }
    var m := Fold(name, s).value;
    assert Aggregation.At(m, name) == Expected(name, s);
    forall n | n in m ensures n == name && s != [] {
      assert Aggregation.At(m, n) == Expected(n, s);
    }
    if s != [] {
      GaugeAggregate(name, s);
      assert m == map[name := Sample(Gauge(Sum(Values(s))))];
    }
  }

  lemma GaugeAggregate(name: string, s: seq<Entry>)
    requires s != [] && GaugesNamed(name, s)
    ensures Aggregate(Values(s)) == Sample(Gauge(Sum(Values(s))))
  {
    assert s[|s| - 1] in s;
    assert Values(s)[|s| - 1] == s[|s| - 1].1;
    if |s| == 1 {
      assert Values(s)[..0] == [];
    }
  }

  predicate GaugesNamed(name: string, s: seq<Entry>) {
    forall e :: e in s ==> e.0 == name && e.1.Gauge?
  }

  lemma {:induction false} SelectedGauges(name: string, series: seq<Metric>, filters: seq<LabelsFilter>)
    requires Gauges(series)
    ensures GaugesNamed(name, Selected(name, series, filters))
  {
    if series != [] {
      SelectedGauges(name, series[..|series| - 1], filters);
    }
  }

  lemma {:induction false} OneNameValues(n: string, name: string, s: seq<Entry>)
    requires GaugesNamed(name, s)
    ensures ValuesNamed(n, s) == if n == name then Values(s) else []
  {
    if s != [] {
      OneNameValues(n, name, s[..|s| - 1]);
      assert Values(s) == Values(s[..|s| - 1]) + [s[|s| - 1].1];
    }
  }

  // ---- counting with zero for missing ------------------------------------

  /** The text of a FromRaw error; %q around a name without characters to escape. */
  function ErrorText(e: Error): string {
    match e
    case GroupNotFound(group) => "group " + "\"" + group + "\"" + " not found"
    case EntityNotFound(entity) => "entity " + "\"" + entity + "\"" + " not found"
    case MetricNotFound(metric) => "metric " + "\"" + metric + "\"" + " not found"
    case _ => ""
  }

  predicate CountsAsZero(e: Error) {
    Contains(ErrorText(e), "metric") && Contains(ErrorText(e), "not found")
  }

  /** A missing metric counts as zero, and so does a missing group or entity whose own name
      contains the word. */
  lemma CountsAsZeroIff(metric: string, group: string, entity: string, groups: RawGroups)
    requires FromRaw(metric, group, entity, groups).Err?
    ensures CountsAsZero(FromRaw(metric, group, entity, groups).error) <==>
            if group !in groups then Contains(group, "metric")
            else if entity !in groups[group] then Contains(entity, "metric")
            else true
  {
    if group !in groups {
      NotFoundText("group ", group);
    } else if entity !in groups[group] {
      NotFoundText("entity ", entity);
    } else {
      NotFoundText("metric ", metric);
    }
  }

  lemma NotFoundText(what: string, name: string)
    requires what in ["group ", "entity ", "metric "]
    ensures var text := what + "\"" + name + "\"" + " not found";
            && Contains(text, "not found")
            && (Contains(text, "metric") <==> what == "metric " || Contains(name, "metric"))
  {
    var q := '"';
    var text := what + "\"" + name + "\"" + " not found";
    assert text == what + [q] + (name + [q] + " not found");
    ContainsAcross(what, q, name + [q] + " not found", "metric");
    ContainsAcross(name, q, " not found", "metric");
    ContainsAcross(what, q, name + [q] + " not found", "not found");
    ContainsAcross(name, q, " not found", "not found");
    assert " not found"[1..] == "not found" && Text.At(" not found", "not found", 1);
    assert forall c :: c in " not found" ==> c != 'm';
    ContainsFirst(" not found", "metric");
    if what == "metric " {
      assert Text.At(what, "metric", 0);
    } else {
      assert forall c :: c in what ==> c != 'm';
      ContainsFirst(what, "metric");
    }
  }

  // ---- fetching a count --------------------------------------------------

  function CountName(metric: string, override: string): string {
    if override != "" then override else metric
  }

  /** What is fetched for a stored value: the matching series of a list, with zero for none on
      request, but a bare metric whatever its labels. */
  function Counted(v: RawValue, metric: string, override: string, filters: seq<LabelsFilter>, zeroIfNone: bool)
    : Result<Fetched>
  {
    match v
    case Single(m) => Ok(Scalar(Sample(m.value)))
    case Series(ms) =>
      (var name := CountName(metric, override);
       var all := Fold(name, Selected(name, ms, filters));
       if all.Err? then Err(all.error)
       else if all.value == map[] && zeroIfNone then Ok(Bundle(map[name := Sample(Gauge(0.0))]))
       else Ok(Bundle(all.value)))
    case _ => Err(IncompatibleType(metric))
  }

  /** CountFromValueWithLabelsFilter; some errors of the lookup count as zero. */
  function CountFetch(v: Result<RawValue>, metric: string, override: string,
                      filters: seq<LabelsFilter>): Result<Fetched> {
    if v.Ok? then Counted(v.value, metric, override, filters, true)
    else if CountsAsZero(v.error) then Ok(Bundle(map[CountName(metric, override) := Sample(Gauge(0.0))]))
    else Err(v.error)
  }

  method CountFromValueWithLabelsFilter(metric: string, override: string, filters: seq<LabelsFilter>,
                                        group: string, entity: string, groups: RawGroups) returns (r: Result<Fetched>)
    ensures r == CountFetch(FromRaw(metric, group, entity, groups), metric, override, filters)
  {
    match FromRaw(metric, group, entity, groups) {
      case Err(e) =>
        if CountsAsZero(e) {
          var values := FetchedValuesFromRawMetricsWithLabels(metric, override, [], true, filters);
          assert Selected(CountName(metric, override), [], filters) == [];
          r := Ok(Bundle(values.value));
        } else {
          r := Err(e);
        }
      case Ok(Single(m)) => r := Ok(Scalar(Sample(m.value)));
      case Ok(Series(ms)) =>
        var values := FetchedValuesFromRawMetricsWithLabels(metric, override, ms, true, filters);
        r := if values.Err? then Err(values.error) else Ok(Bundle(values.value));
      case Ok(_) => r := Err(IncompatibleType(metric));
    }
  }

  method FromValueWithLabelsFilter(metric: string, override: string, filters: seq<LabelsFilter>,
                                   group: string, entity: string, groups: RawGroups) returns (r: Result<Fetched>)
    ensures var v := FromRaw(metric, group, entity, groups);
            r == if v.Err? then Err(v.error) else Counted(v.value, metric, override, filters, false)
  {
    match FromRaw(metric, group, entity, groups) {
      case Err(e) => r := Err(e);
      case Ok(Single(m)) => r := Ok(Scalar(Sample(m.value)));
      case Ok(Series(ms)) =>
        var values := FetchedValuesFromRawMetricsWithLabels(metric, override, ms, false, filters);
        r := if values.Err? then Err(values.error) else Ok(Bundle(values.value));
      case Ok(_) => r := Err(IncompatibleType(metric));
    }
  }

  /** A count of series has one attribute: the overriding name if one is given, else the metric. */
  lemma CountIsNamed(v: Result<RawValue>, metric: string, override: string, filters: seq<LabelsFilter>)
    ensures var r := CountFetch(v, metric, override, filters);
            r.Ok? && r.value.Bundle? ==> r.value.values.Keys == {if override == "" then metric else override}
  {
    var name := if override == "" then metric else override;
    if v.Ok? && v.value.Series? {
      var s := Selected(name, v.value.metrics, filters);
      FoldExact(name, s);
      forall n | n != name
        ensures ValuesNamed(n, s) == []
      {
        OthersUnnamed(n, name, v.value.metrics, filters);
      }
      if Fold(name, s).Ok? {
        var m := Fold(name, s).value;
        forall n | n in m
          ensures n == name
        {
          assert Aggregation.At(m, n) == Expected(n, s);
        }
      }
    }
  }

  lemma {:induction false} OthersUnnamed(n: string, name: string, series: seq<Metric>, filters: seq<LabelsFilter>)
    requires n != name
    ensures ValuesNamed(n, Selected(name, series, filters)) == []
  {
    if series != [] {
      OthersUnnamed(n, name, series[..|series| - 1], filters);
    }
  }

  // ---- when the count is right -------------------------------------------

  /** The amount a fetched value reports. */
  ghost function Reported(f: Fetched): real {
    match f
    case Scalar(leaf) => LeafAmount(leaf)
    case Bundle(values) => MapTotal(values)
  }

  /** The series behind a stored value. */
  function SeriesIn(v: RawValue): seq<Metric> {
    match v
    case Single(m) => [m]
    case Series(ms) => ms
    case _ => []
  }

  predicate Gauges(series: seq<Metric>) {
    forall i :: 0 <= i < |series| ==> series[i].value.Gauge?
  }

  /** The count the filter asks for. */
  function MatchingTotal(name: string, series: seq<Metric>, filters: seq<LabelsFilter>): real {
    Sum(Values(Selected(name, series, filters)))
  }

  lemma OneEntryTotal(name: string, v: Value)
    ensures MapTotal(map[name := Sample(v)]) == Amount(v)
  {
    var m := map[name := Sample(v)];
    MapTotalWithout(m, name);
    assert m - {name} == map[];
  }

  /** The filter is ignored: a bare metric that does not match is reported all the same. */
  predicate Bypassed(v: RawValue, filters: seq<LabelsFilter>) {
    v.Single? && !HasMatchingLabels(v.metric, filters) && v.metric.value.Gauge? && v.metric.value.amount != 0.0
  }

  /** For gauges, the reported amount is that of the matching series, exactly unless the
      stored value is a bare metric that does not match and is not zero. */
  lemma CountRightIff(v: RawValue, metric: string, override: string, filters: seq<LabelsFilter>, zeroIfNone: bool)
    requires (v.Single? || v.Series?) && Gauges(SeriesIn(v))
    ensures Counted(v, metric, override, filters, zeroIfNone).Ok?
    ensures var wanted := MatchingTotal(CountName(metric, override), SeriesIn(v), filters);
            Reported(Counted(v, metric, override, filters, zeroIfNone).value) == wanted <==> !Bypassed(v, filters)
  {
    var name := CountName(metric, override);
    if v.Single? {
      assert [v.metric][..0] == [] && SeriesIn(v)[0] == v.metric;
      assert Selected(name, [v.metric], filters) ==
             if HasMatchingLabels(v.metric, filters) then [(name, v.metric.value)] else [];
      OneValue(name, v.metric.value);
    } else {
      GaugeCount(name, v.metrics, filters);
      var s := Selected(name, v.metrics, filters);
      OneEntryTotal(name, Gauge(0.0));
      OneEntryTotal(name, Gauge(Sum(Values(s))));
    }
  }

  lemma OneValue(name: string, v: Value)
    ensures Sum(Values([(name, v)])) == Amount(v) && Sum(Values([])) == 0.0
  {
    var vs := Values([(name, v)]);
    assert vs == [v] && vs[..0] == [];
  }

  /** An address of an endpoint that is not ready. */
  const NOT_READY := Metric(map["ready" := "false"], Gauge(1.0))
  const ONLY_READY := [IncludeOnlyWhenMatch(map["ready" := "true"])]

  lemma NotReadyDoesNotMatch()
    ensures !HasMatchingLabels(NOT_READY, ONLY_READY)
  {
    assert ONLY_READY[1..] == [];
    assert Filtered(NOT_READY.labels, ONLY_READY) == map[];
  }

  /** One address that is not ready is counted as an available one; two are not. */
  lemma BareAddressIsCounted()
    ensures Counted(Single(NOT_READY), "kube_endpoint_address", "addressAvailable", ONLY_READY, true) ==
            Ok(Scalar(Sample(Gauge(1.0))))
    ensures Counted(Series([NOT_READY, NOT_READY]), "kube_endpoint_address", "addressAvailable", ONLY_READY, true) ==
            Ok(Bundle(map["addressAvailable" := Sample(Gauge(0.0))]))
  {
    NotReadyDoesNotMatch();
    NoneSelected("addressAvailable", [NOT_READY, NOT_READY], ONLY_READY);
  }

  lemma {:induction false} NoneSelected(name: string, series: seq<Metric>, filters: seq<LabelsFilter>)
    requires forall i :: 0 <= i < |series| ==> !HasMatchingLabels(series[i], filters)
    ensures Selected(name, series, filters) == []
  {
    if series != [] {
      NoneSelected(name, series[..|series| - 1], filters);
    }
  }

  // ---- names that contain the word ---------------------------------------

  lemma MetricsServerContainsMetric()
    ensures Contains("default_metrics-server", "metric")
  {
    assert Text.At("default_metrics-server", "metric", 8);
  }

  /** Counting for an entity that does not exist yields zero instead of an error when its name
      happens to contain "metric". */
  lemma MissingEntityCountsAsZero(metric: string, group: string, groups: RawGroups)
    requires group in groups && "default_metrics-server" !in groups[group]
    ensures FromRaw(metric, group, "default_metrics-server", groups).Err?
    ensures CountsAsZero(FromRaw(metric, group, "default_metrics-server", groups).error)
  {
    MetricsServerContainsMetric();
    CountsAsZeroIff(metric, group, "default_metrics-server", groups);
  }
}
