/** Grouping, namespace extraction and population of kube-state-metrics data together
    (src/prometheus/definition.go, src/populator/populator.go). */
module KsmPipeline {
  import opened RawData
  import opened Text
  import opened Grouping
  import opened Namespaces
  import opened Population
  import opened PopulationRuns
  import opened Narrowing
  import opened Inheritance
  import opened SplitGroup
  import opened NamespaceFilter
  import opened Counting
  import opened AttributeNames

  // ---- the namespace filter ----------------------------------------------

  /** The namespace an entity is judged by: the one in its key if some bare metric names a
      namespace, otherwise the empty one. */
  ghost function JudgedBy(groups: RawGroups, group: string, raw: string): string
    requires raw in EntitiesOf(groups, group)
  {
    if exists k :: NamesNamespace(groups[group][raw], k) then KeyNamespace(group, raw) else ""
  }

  /** The namespace getter of the group is FromLabelGetNamespace, whatever order it ranges in. */
  ghost predicate GetsNamespace(config: Config, group: string) {
    && group in config.specs && config.specs[group].namespaceGetter.Some?
    && forall ms :: NamespaceFound(ms, config.specs[group].namespaceGetter.value(ms))
  }

  lemma GetterJudges(config: Config, specs: set<string>, items: seq<Item>, group: string, raw: string)
    requires IsGrouping(config.groups, specs, items) && NamespaceKeyed(group) && PlainNamespaces(items, group)
    requires GetsNamespace(config, group) && raw in EntitiesOf(config.groups, group)
    ensures config.specs[group].namespaceGetter.value(config.groups[group][raw]) == JudgedBy(config.groups, group, raw)
  {
    var ms := config.groups[group][raw];
    var ns := config.specs[group].namespaceGetter.value(ms);
    assert NamespaceFound(ms, ns);
    NamespaceDeterministic(config.groups, specs, items, group, raw, ns);
  }

  /** With a filter, an entity is created only if the namespace its getter finds is allowed,
      and a namespace entity is flagged by the verdict on it. In a namespace-keyed group that
      is the namespace the entity is judged by; in any group it is "" if no bare metric names
      one. */
  lemma CreatedOnlyIfAllowed(config: Config, specs: set<string>, items: seq<Item>, ev: Event, allowed: string -> bool)
    requires IsGrouping(config.groups, specs, items)
    requires Due(config, ev) && config.filter == Some(allowed) && GetsNamespace(config, ev.group)
    ensures var ms := config.groups[ev.group][ev.raw];
            var ns := config.specs[ev.group].namespaceGetter.value(ms);
            && (ev.group != "namespace" ==> allowed(ns))
            && (ev.group == "namespace" ==>
                  Attribute("nrFiltered", if allowed(ns) then "false" else "true") in ev.attributes)
            && (NamespaceKeyed(ev.group) && PlainNamespaces(items, ev.group) ==>
                  ns == JudgedBy(config.groups, ev.group, ev.raw))
            && ((forall k :: !NamesNamespace(ms, k)) ==> ns == "")
  {
    var ms := config.groups[ev.group][ev.raw];
    FilterGuarantees(config, ev, allowed, config.specs[ev.group].namespaceGetter.value);
    assert NamespaceFound(ms, config.specs[ev.group].namespaceGetter.value(ms));
    if NamespaceKeyed(ev.group) && PlainNamespaces(items, ev.group) {
      GetterJudges(config, specs, items, ev.group, ev.raw);
    }
  }

  /** The entity would be created under the filter. */
  ghost predicate CreatedUnder(config: Config, allowed: string -> bool, ev: Event) {
    Due(config.(filter := Some(allowed)), ev)
  }

  /** What is due without a filter is due under one that allows the namespace the getter finds,
      and under no other. */
  lemma CreatedIffFound(config: Config, ev: Event, allowed: string -> bool)
    requires Due(config.(filter := None), ev) && ev.group != "namespace" && config.specs[ev.group].namespaceGetter.Some?
    ensures CreatedUnder(config, allowed, ev) <==>
            allowed(config.specs[ev.group].namespaceGetter.value(config.groups[ev.group][ev.raw]))
  {
    var getter := config.specs[ev.group].namespaceGetter.value;
    var open, filtered := config.(filter := None), config.(filter := Some(allowed));
    if allowed(getter(config.groups[ev.group][ev.raw])) {
      var u :| IsUnit(open, ev.group, ev.raw, u) && Accepted(open, u) &&
               ev == Creation(open, ev.group, FilterAttributes(open, ev.group, ev.raw), u);
      assert IsUnit(filtered, ev.group, ev.raw, u) && Accepted(filtered, u);
      assert ev == Creation(filtered, ev.group, FilterAttributes(filtered, ev.group, ev.raw), u);
    }
    if CreatedUnder(config, allowed, ev) {
      FilterGuarantees(filtered, ev, allowed, getter);
    }
  }

  /** Under a filter, exactly the entities judged by an allowed namespace are created. */
  lemma CreatedIffJudgedAllowed(config: Config, specs: set<string>, items: seq<Item>, ev: Event,
                                allowed: string -> bool)
    requires IsGrouping(config.groups, specs, items)
    requires Due(config.(filter := None), ev) && GetsNamespace(config, ev.group)
    requires NamespaceKeyed(ev.group) && ev.group != "namespace" && PlainNamespaces(items, ev.group)
    ensures CreatedUnder(config, allowed, ev) <==> allowed(JudgedBy(config.groups, ev.group, ev.raw))
  {
    CreatedIffFound(config, ev, allowed);
    GetterJudges(config, specs, items, ev.group, ev.raw);
  }

  /** Whatever the filter, the entity is created exactly if the namespace in its key is allowed. */
  ghost predicate FilteredByKey(config: Config, ev: Event)
    requires ev.Created?
  {
    forall allowed: string -> bool :: CreatedUnder(config, allowed, ev) <==> allowed(KeyNamespace(ev.group, ev.raw))
  }

  /** No filter lets the entity be created unless it allows the namespace in its key. */
  ghost predicate NeverLeaks(config: Config, ev: Event)
    requires ev.Created?
  {
    forall allowed: string -> bool :: CreatedUnder(config, allowed, ev) ==> allowed(KeyNamespace(ev.group, ev.raw))
  }

  /** No filter that allows the namespace in its key drops the entity. */
  ghost predicate NeverDropped(config: Config, ev: Event)
    requires ev.Created?
  {
    forall allowed: string -> bool :: allowed(KeyNamespace(ev.group, ev.raw)) ==> CreatedUnder(config, allowed, ev)
  }

  /** The filter does what it promises, never leaks and never drops, exactly when a bare metric
      names the namespace: an entity all of whose metrics are lists is judged by the empty
      namespace, which errs in both directions. */
  lemma FilteredByKeyIff(config: Config, specs: set<string>, items: seq<Item>, ev: Event)
    requires IsGrouping(config.groups, specs, items)
    requires Due(config.(filter := None), ev) && GetsNamespace(config, ev.group)
    requires NamespaceKeyed(ev.group) && ev.group != "namespace" && PlainNamespaces(items, ev.group)
    requires KeyNamespace(ev.group, ev.raw) != ""
    ensures var named := exists k :: NamesNamespace(config.groups[ev.group][ev.raw], k);
            && (FilteredByKey(config, ev) <==> named)
            && (NeverLeaks(config, ev) <==> named)
            && (NeverDropped(config, ev) <==> named)
  {
    var key, ns := KeyNamespace(ev.group, ev.raw), JudgedBy(config.groups, ev.group, ev.raw);
    var onlyEmpty, notEmpty := (x: string) => x == "", (x: string) => x != "";
    CreatedIffJudgedAllowed(config, specs, items, ev, onlyEmpty);
    CreatedIffJudgedAllowed(config, specs, items, ev, notEmpty);
    if ns == key {
      forall allowed: string -> bool ensures CreatedUnder(config, allowed, ev) <==> allowed(key) {
        CreatedIffJudgedAllowed(config, specs, items, ev, allowed);
      }
    } else {
      BothErrors(config, ev, onlyEmpty, notEmpty);
    }
  }

  lemma BothErrors(config: Config, ev: Event, leaking: string -> bool, dropping: string -> bool)
    requires ev.Created?
    requires CreatedUnder(config, leaking, ev) && !leaking(KeyNamespace(ev.group, ev.raw))
    requires !CreatedUnder(config, dropping, ev) && dropping(KeyNamespace(ev.group, ev.raw))
    ensures !FilteredByKey(config, ev) && !NeverLeaks(config, ev) && !NeverDropped(config, ev)
  {
  }

  function InBad(value: real): Metric {
    Metric(map["namespace" := "bad", "deployment" := "x"], Gauge(value))
  }

  /** Two series of one metric in namespace "bad", and the groups they make. */
  function BadItems(): seq<Item> {
    [("replicas", InBad(1.0)), ("replicas", InBad(2.0))]
  }

  function BadGroups(): RawGroups {
    map["deployment" := map["bad_x" := map["replicas" := Series([InBad(1.0), InBad(2.0)])]]]
  }

  lemma BadGrouping()
    ensures IsGrouping(BadGroups(), {"deployment"}, BadItems()) && PlainNamespaces(BadItems(), "deployment")
    ensures KeyNamespace("deployment", "bad_x") == "bad"
  {
    var first: Item, second: Item := ("replicas", InBad(1.0)), ("replicas", InBad(2.0));
    assert EntityKey("deployment", InBad(1.0)) == "bad_x" && EntityKey("deployment", InBad(2.0)) == "bad_x";
    EmptyTable("deployment");
    PutStep(map[], "deployment", [], first);
    var one: Entities := Put(map[], "bad_x", "replicas", InBad(1.0));
    assert [] + [first] == [first] && [first] + [second] == BadItems();
    PutStep(one, "deployment", [first], second);
    var two: Entities := Put(one, "bad_x", "replicas", InBad(2.0));
    assert one["bad_x"] == map["replicas" := Single(InBad(1.0))];
    assert two["bad_x"] == map["replicas" := Series([InBad(1.0), InBad(2.0)])];
    assert two == BadGroups()["deployment"];
    UpToSplit('_', "bad", "x");
    assert "bad" + ['_'] + "x" == "bad_x";
  }

  /** The deployment in "bad" is created by a filter that forbids "bad" and allows "", and
      dropped by one that allows "bad" and forbids "". */
  lemma HiddenNamespace(config: Config, ev: Event, allowed: string -> bool)
    requires config.groups == BadGroups() && GetsNamespace(config, "deployment")
    requires Due(config.(filter := None), ev) && ev.group == "deployment" && ev.raw == "bad_x"
    ensures KeyNamespace(ev.group, ev.raw) == "bad"
    ensures allowed("") && !allowed("bad") ==> CreatedUnder(config, allowed, ev)
    ensures !allowed("") && allowed("bad") ==> !CreatedUnder(config, allowed, ev)
  {
    BadGrouping();
    assert forall k :: !NamesNamespace(BadGroups()["deployment"]["bad_x"], k);
    CreatedIffJudgedAllowed(config, {"deployment"}, BadItems(), ev, allowed);
  }

  /** With a selector configured and listed, an entity no bare metric of which names a namespace
      is never created, whatever namespace it is in: of any group but "namespace". */
  lemma UnnamedIsDropped(config: Config, selection: Selection, ev: Event)
    requires ev.Created? && ev.group != "namespace"
    requires Present(config, ev.group, ev.raw) && GetsNamespace(config, ev.group)
    requires config.filter == Some(ns => Allowed(selection, ns)) && Selects(selection) && Named(selection)
    requires forall k :: !NamesNamespace(config.groups[ev.group][ev.raw], k)
    ensures !Due(config, ev)
  {
    EmptyNamespaceRejected(selection);
    var ms := config.groups[ev.group][ev.raw];
    assert NamespaceFound(ms, config.specs[ev.group].namespaceGetter.value(ms));
  }

  // ---- counts ------------------------------------------------------------

  /** The only series there is does not match, and is not zero. */
  predicate LoneMismatch(series: seq<Metric>, filters: seq<LabelsFilter>)
    requires Gauges(series)
  {
    |series| == 1 && !HasMatchingLabels(series[0], filters) && series[0].value.amount != 0.0
  }

  lemma PackedCountRightIff(series: seq<Metric>, v: RawValue, metric: string, override: string,
                            filters: seq<LabelsFilter>)
    requires Gauges(series) && Pack(series) == Some(v)
    ensures var r := CountFetch(Ok(v), metric, override, filters);
            && r.Ok?
            && (Reported(r.value) == MatchingTotal(CountName(metric, override), series, filters) <==>
                !LoneMismatch(series, filters))
  {
    assert SeriesIn(v) == series;
    CountRightIff(v, metric, override, filters, true);
  }

  lemma MissingCountIsZero(metric: string, group: string, entity: string, g: RawGroups, override: string,
                           filters: seq<LabelsFilter>)
    requires entity in EntitiesOf(g, group) && metric !in g[group][entity]
    ensures var r := CountFetch(FromRaw(metric, group, entity, g), metric, override, filters);
            r.Ok? && Reported(r.value) == 0.0 == MatchingTotal(CountName(metric, override), [], filters)
  {
    CountsAsZeroIff(metric, group, entity, g);
    OneEntryTotal(CountName(metric, override), Gauge(0.0));
  }

  /** On built groups the count of an entity is that of its matching series, exactly unless it
      has a single series, which does not match and is not zero. */
  lemma BuiltCountRightIff(g: RawGroups, specs: set<string>, items: seq<Item>, group: string, entity: string,
                           metric: string, override: string, filters: seq<LabelsFilter>)
    requires IsGrouping(g, specs, items) && entity in EntitiesOf(g, group)
    requires Gauges(SeriesOf(group, entity, metric, items))
    ensures var r := CountFetch(FromRaw(metric, group, entity, g), metric, override, filters);
            var series := SeriesOf(group, entity, metric, items);
            && r.Ok?
            && (Reported(r.value) == MatchingTotal(CountName(metric, override), series, filters) <==>
                !LoneMismatch(series, filters))
  {
    var series := SeriesOf(group, entity, metric, items);
    assert IsTable(EntitiesOf(g, group), group, items);
    assert Cell(g[group], entity, metric) == Pack(series);
    if series == [] {
      MissingCountIsZero(metric, group, entity, g, override, filters);
    } else {
      PackedCountRightIff(series, g[group][entity][metric], metric, override, filters);
    }
  }

  // ---- values that are set -----------------------------------------------

  /** The unit is the raw entity or a part of it, and has its bare metrics. */
  lemma UnitSameBare(config: Config, group: string, raw: string, u: Unit)
    requires IsUnit(config, group, raw, u)
    ensures SameBare(u.metrics, config.groups[group][raw])
  {
    var sg, ms := config.specs[group], config.groups[group][raw];
    if sg.splitByLabel != "" {
      var slice := SliceName(sg, group);
      var r :| u.id == Joined(raw, r) && Part(ms, slice, sg.splitByLabel, r, ms[slice].metrics) == Some(u.metrics);
      PartSameBare(ms, slice, sg.splitByLabel, r, u.metrics);
    }
  }

  /** The spec inherits labels from a parent group. */
  ghost predicate Inherits(spec: Spec, parent: string, metric: string, prefix: string) {
    forall l, e, g :: Inherited(parent, metric, l, e, g, prefix, spec.valueFunc(l, e, g))
  }

  /** A value function that inherits labels, applied to a unit as the populator applies it,
      yields only what it could yield on the full groups. */
  lemma UnitFetchIsFullFetch(config: Config, specs: set<string>, items: seq<Item>, group: string, raw: string, u: Unit,
                             spec: Spec, parent: string, metric: string, prefix: string)
    requires IsGrouping(config.groups, specs, items)
    requires IsUnit(config, group, raw, u)
    requires parent == group ==> group != "container"
    requires Inherits(spec, parent, metric, prefix)
    ensures Inherited(parent, metric, group, raw, config.groups, prefix, FetchedBy(config, group, u, spec))
  {
    var narrowed := Narrow(config.groups, group, raw, u.metrics);
    assert Inherited(parent, metric, group, raw, narrowed, prefix, spec.valueFunc(group, raw, narrowed));
    UnitSameBare(config, group, raw, u);
    NarrowedInheritance(config.groups, specs, items, group, raw, u.metrics, parent, metric, prefix,
                        FetchedBy(config, group, u, spec));
  }

  /** Every metric an inheriting spec sets is a renamed label of a metric found in the full
      groups: of the bare metric of a parent resolved from the entity. */
  lemma SetLabelsAreInherited(config: Config, specs: set<string>, items: seq<Item>, group: string, raw: string, u: Unit,
                              spec: Spec, parent: string, metric: string, prefix: string, ev: Event)
    requires IsGrouping(config.groups, specs, items)
    requires IsUnit(config, group, raw, u) && SetBy(config, group, u, spec, ev)
    requires parent == group ==> group != "container"
    requires Inherits(spec, parent, metric, prefix)
    ensures exists id, k :: LabelInherited(config.groups, group, raw, parent, metric, prefix, id, k, ev.name, ev.leaf)
  {
    UnitFetchIsFullFetch(config, specs, items, group, raw, u, spec, parent, metric, prefix);
    var out := FetchedBy(config, group, u, spec);
    var id :| ParentId(parent, config.groups[group][raw], id) &&
              InheritedVia(id, parent, metric, config.groups, prefix, out);
    var m := FromRaw(metric, parent, id.value, config.groups).value.metric;
    assert Prefixed(m.labels, prefix, out.value.values);
    var k :| k in m.labels && AttributeKey(prefix, k) == ev.name && out.value.values[ev.name] == Str(m.labels[k]);
    var x := Stripped(prefix, k);
    assert LabelInherited(config.groups, group, raw, parent, metric, prefix, id.value, k, ev.name, ev.leaf);
  }

  /** Label k of the parent's metric is reported under the name with the leaf as its value. */
  ghost predicate LabelInherited(groups: RawGroups, group: string, raw: string, parent: string, metric: string,
                                 prefix: string, id: string, k: string, name: string, leaf: Leaf) {
    && raw in EntitiesOf(groups, group) && ParentId(parent, groups[group][raw], Ok(id))
    && var v := FromRaw(metric, parent, id, groups);
       && v.Ok? && v.value.Single? && k in v.value.metric.labels
       && (exists x :: name == prefix + "." + x && (k == prefix + "_" + x || (k == x && !(prefix + "_" <= x))))
       && leaf == Str(v.value.metric.labels[k])
  }

  /** The spec flattens the list a group is split by. */
  ghost predicate Flattens(spec: Spec, slice: string, key: string) {
    forall l, e, g :: spec.valueFunc(l, e, g) == FlattenedFetch(FromRaw(slice, l, e, g), key)
  }

  /** Every metric a flattening spec sets on the sub-entity of label value r is, at its name t,
      the last series of the original list with that pair of label values. */
  lemma SetSeriesAreLast(config: Config, group: string, raw: string, u: Unit, spec: Spec, key: string, ev: Event)
    requires IsUnit(config, group, raw, u) && config.specs[group].splitByLabel != ""
    requires var sg := config.specs[group]; Flattens(spec, SliceName(sg, group), key)
    requires SetBy(config, group, u, spec, ev)
    ensures var sg := config.specs[group];
            var series := config.groups[group][raw][SliceName(sg, group)].metrics;
            exists r :: u.id == Joined(raw, r) &&
                        var last := LastWith(sg.splitByLabel, r, key, ev.name, series);
                        last.Some? && ev.leaf == Sample(last.value.value)
  {
    var sg, ms := config.specs[group], config.groups[group][raw];
    var slice := SliceName(sg, group);
    var series := ms[slice].metrics;
    var r :| u.id == Joined(raw, r) && Part(ms, slice, sg.splitByLabel, r, series) == Some(u.metrics);
    var narrowed := Narrow(config.groups, group, raw, u.metrics);
    assert spec.valueFunc(group, raw, narrowed) == FlattenedFetch(FromRaw(slice, group, raw, narrowed), key);
    FlattenedPart(sg.splitByLabel, r, key, ev.name, series);
  }
}
