/** Entity IDs and types generated from labels, and what keeps the entities of a
    kube-state-metrics run apart (src/prometheus/definition.go, src/metric/definition.go). */
module KsmIdentity {
  import opened RawData
  import opened Text
  import opened Grouping
  import opened Narrowing
  import opened SplitGroup
  import opened Population
  import opened PopulationRuns

  // ---- generators --------------------------------------------------------

  /** The text FromLabelValue fetches. */
  function LabelText(metric: string, key: string, group: string, raw: string, groups: RawGroups): Result<string> {
    match FromLabelValue(metric, key, group, raw, groups)
    case Ok(Scalar(Str(text))) => Ok(text)
    case Ok(_) => Err(IncompatibleType(metric))
    case Err(e) => Err(e)
  }

  /** FromLabelValueEntityTypeGeneratorWithCustomGroup */
  function LabelType(metric: string, custom: string, group: string, raw: string, groups: RawGroups, cluster: string)
    : Result<string>
  {
    if Global(group) then Ok("k8s:" + cluster + ":" + custom)
    else
      var ns := LabelText(metric, "namespace", group, raw, groups);
      if ns.Err? then Err(ns.error)
      else if group == "container" then
        var pod := LabelText(metric, "pod", group, raw, groups);
        if pod.Err? then Err(pod.error)
        else if ns.value == "" || pod.value == "" then Err(EmptyIdentifier(group))
        else Ok("k8s:" + cluster + ":" + ns.value + ":" + pod.value + ":" + custom)
      else if ns.value == "" then Err(EmptyIdentifier(group))
      else Ok("k8s:" + cluster + ":" + ns.value + ":" + custom)
  }

  /** Every type there is: with the non-empty namespace the metric carries, and a container's pod,
      unless the group is global. */
  lemma LabelTypeIff(metric: string, custom: string, group: string, raw: string, groups: RawGroups, cluster: string,
                     t: string)
    ensures LabelType(metric, custom, group, raw, groups, cluster) == Ok(t) <==>
            if group == "namespace" || group == "node" || group == "persistentvolume"
            then t == "k8s:" + cluster + ":" + custom
            else
              var v := Cell(EntitiesOf(groups, group), raw, metric);
              && v.Some?
              && (v.value.Single? || (v.value.Series? && v.value.metrics != []))
              && var labels := (if v.value.Single? then v.value.metric else v.value.metrics[0]).labels;
                 && "namespace" in labels && labels["namespace"] != ""
                 && if group == "container"
                    then "pod" in labels && labels["pod"] != "" &&
                         t == "k8s:" + cluster + ":" + labels["namespace"] + ":" + labels["pod"] + ":" + custom
                    else t == "k8s:" + cluster + ":" + labels["namespace"] + ":" + custom
  {
  }

  /** The metric and the custom type name each group's generators use. */
  datatype Naming = Naming(metric: string, custom: string)

  /** The KSM spec groups: typed by labels; identified by the group's own label of the same
      metric, or by the raw ID if that is the label or the group is split. */
  ghost predicate KsmGroup(config: Config, l: string, n: Naming)
    requires l in config.specs
  {
    && l != "container" && ':' !in n.custom
    && (forall raw :: TypeOf(config, l, raw) ==
                      LabelType(n.metric, n.custom, l, raw, config.groups, config.clusterName))
    && (config.specs[l].splitByLabel == "" ==>
          forall raw :: IdOf(config, l, raw).Ok? ==>
                          (Global(l) && IdOf(config, l, raw) == Ok(raw)) ||
                          IdOf(config, l, raw) == LabelText(n.metric, l, l, raw, config.groups))
  }

  /** Different groups have different custom names. */
  ghost predicate KsmSpecs(config: Config, naming: map<string, Naming>) {
    && (forall l :: l in config.specs ==> l in naming && KsmGroup(config, l, naming[l]))
    && (forall l, k :: l in config.specs && k in config.specs && naming[l].custom == naming[k].custom ==> l == k)
  }

  /** Names of entities that are split have no underscore. */
  ghost predicate PlainSplitNames(config: Config, items: seq<Item>) {
    forall l, i :: 0 <= i < |items| && l in config.specs && config.specs[l].splitByLabel != "" ==>
                     Eligible(l, items[i].1) ==> '_' !in LabelOr(items[i].1, l)
  }

  // ---- one metric names the entity ---------------------------------------

  /** The first series stored for a metric of a built entity; its labels are what
      FromLabelValue reads. */
  lemma FirstSeries(g: RawGroups, specs: set<string>, items: seq<Item>, group: string, raw: string, metric: string)
    returns (m: Metric)
    requires IsGrouping(g, specs, items) && raw in EntitiesOf(g, group) && metric in g[group][raw]
    ensures Eligible(group, m) && EntityKey(group, m) == raw && exists i :: 0 <= i < |items| && items[i].1 == m
    ensures forall key ::
              LabelText(metric, key, group, raw, g) ==
              if key in m.labels then Ok(m.labels[key]) else Err(LabelNotFound(key))
  {
    StoredSeries(g, specs, items, group, raw, metric);
    var v := g[group][raw][metric];
    m := if v.Single? then v.metric else v.metrics[0];
    assert IsTable(EntitiesOf(g, group), group, items);
    assert Cell(g[group], raw, metric) == Pack(SeriesOf(group, raw, metric, items));
    var i := FirstFromItems(group, raw, metric, items, 0);
  }

  lemma {:induction false} FirstFromItems(group: string, entity: string, name: string, items: seq<Item>, i: nat)
    returns (j: nat)
    requires i < |SeriesOf(group, entity, name, items)|
    ensures j < |items| && items[j].1 == SeriesOf(group, entity, name, items)[i]
  {
    var front := items[..|items| - 1];
    if i < |SeriesOf(group, entity, name, front)| {
      j := FirstFromItems(group, entity, name, front, i);
    } else {
      j := |items| - 1;
    }
  }

  /** How a due entity got its ID and type: from the name x of the entity, the namespace in its
      type, and the label value of a part. */
  ghost predicate Identified(config: Config, n: Naming, ev: Event, ns: string, x: string)
    requires ev.Created? && ev.group in config.specs
  {
    && ev.raw == (if Global(ev.group) then x else Joined(ns, x))
    && ev.kind == (if Global(ev.group) then "k8s:" + config.clusterName + ":" + n.custom
                   else "k8s:" + config.clusterName + ":" + ns + ":" + n.custom)
    && if config.specs[ev.group].splitByLabel == "" then ev.id == x
       else '_' !in x && exists r :: ev.id == Joined(ev.raw, r)
  }

  /** A metric of a record the type generator succeeded on: the one it read, or any. */
  lemma NamingMetric(config: Config, n: Naming, specs: set<string>, items: seq<Item>, group: string, raw: string)
    returns (m: Metric)
    requires IsGrouping(config.groups, specs, items) && Present(config, group, raw) && KsmGroup(config, group, n)
    requires TypeOf(config, group, raw).Ok?
    ensures Eligible(group, m) && EntityKey(group, m) == raw && exists i :: 0 <= i < |items| && items[i].1 == m
    ensures !Global(group) ==>
              LabelText(n.metric, "namespace", group, raw, config.groups) == Ok(LabelOr(m, "namespace"))
    ensures !Global(group) ==>
              forall x :: LabelText(n.metric, group, group, raw, config.groups) == Ok(x) ==> x == LabelOr(m, group)
  {
    var g := config.groups;
    assert TypeOf(config, group, raw) == LabelType(n.metric, n.custom, group, raw, g, config.clusterName);
    if Global(group) {
      assert IsTable(EntitiesOf(g, group), group, items);
      var name :| name in g[group][raw];
      m := FirstSeries(g, specs, items, group, raw, name);
    } else {
      m := FirstSeries(g, specs, items, group, raw, n.metric);
      assert LabelText(n.metric, "namespace", group, raw, g).Ok?;
    }
  }

  lemma GlobalId(config: Config, n: Naming, specs: set<string>, items: seq<Item>, group: string, raw: string, x: string)
    requires IsGrouping(config.groups, specs, items) && Present(config, group, raw) && Global(group)
    requires LabelText(n.metric, group, group, raw, config.groups) == Ok(x)
    ensures x == raw
  {
    var m := FirstSeries(config.groups, specs, items, group, raw, n.metric);
  }

  /** Every due entity is identified by its own name and namespace. */
  lemma DueIdentified(config: Config, naming: map<string, Naming>, specs: set<string>, items: seq<Item>, ev: Event)
    returns (ns: string, x: string)
    requires IsGrouping(config.groups, specs, items) && KsmSpecs(config, naming) && PlainSplitNames(config, items)
    requires Due(config, ev)
    ensures Identified(config, naming[ev.group], ev, ns, x)
  {
    var l, raw, n := ev.group, ev.raw, naming[ev.group];
    assert KsmGroup(config, l, n);
    var u :| IsUnit(config, l, raw, u) && Accepted(config, u) &&
             ev == Creation(config, l, FilterAttributes(config, l, raw), u);
    assert TypeOf(config, l, raw) == LabelType(n.metric, n.custom, l, raw, config.groups, config.clusterName);
    var m := NamingMetric(config, n, specs, items, l, raw);
    ns, x := LabelOr(m, "namespace"), LabelOr(m, l);
    if config.specs[l].splitByLabel == "" {
      if IdOf(config, l, raw) != Ok(raw) && Global(l) {
        GlobalId(config, n, specs, items, l, raw, u.id);
      }
    } else {
      var i :| 0 <= i < |items| && items[i].1 == m;
      assert '_' !in LabelOr(items[i].1, l);
      var ms, slice := config.groups[l][raw], SliceName(config.specs[l], l);
      var r :| u.id == Joined(raw, r) &&
               Part(ms, slice, config.specs[l].splitByLabel, r, ms[slice].metrics) == Some(u.metrics);
    }
  }

  // ---- identities determine entities -------------------------------------

  /** The custom name is the last part of a type. */
  lemma SameCustom(p: string, c: string, p': string, c': string)
    requires ':' !in c && ':' !in c' && p + ":" + c == p' + ":" + c'
    ensures p == p' && c == c'
  {
    SplitUniqueLast(':', p, c, p', c');
  }

  /** Type: everything before the custom name. */
  function TypePrefix(config: Config, group: string, ns: string): string {
    if Global(group) then "k8s:" + config.clusterName else "k8s:" + config.clusterName + ":" + ns
  }

  lemma SameOwner(config: Config, naming: map<string, Naming>, a: Event, ns: string, x: string, b: Event, ns': string,
                  x': string)
    requires KsmSpecs(config, naming) && a.Created? && b.Created? && a.group in config.specs && b.group in config.specs
    requires Identified(config, naming[a.group], a, ns, x) && Identified(config, naming[b.group], b, ns', x')
    requires a.id == b.id && a.kind == b.kind
    ensures a.group == b.group && a.raw == b.raw
  {
    assert KsmGroup(config, a.group, naming[a.group]) && KsmGroup(config, b.group, naming[b.group]);
    var p, p' := TypePrefix(config, a.group, ns), TypePrefix(config, b.group, ns');
    SameCustom(p, naming[a.group].custom, p', naming[b.group].custom);
    assert a.group == b.group;
    if !Global(a.group) {
      PrefixCancel("k8s:" + config.clusterName + ":", ns, ns');
    }
    if config.specs[a.group].splitByLabel != "" {
      var r :| a.id == Joined(a.raw, r);
      var r' :| b.id == Joined(b.raw, r');
      var prefix := if Global(a.group) then "" else ns + "_";
      assert a.raw == prefix + x && b.raw == prefix + x';
      SameName(prefix, x, r, x', r');
    }
  }

  lemma SameName(prefix: string, x: string, r: string, x': string, r': string)
    requires '_' !in x && '_' !in x' && Joined(prefix + x, r) == Joined(prefix + x', r')
    ensures x == x'
  {
    assert Joined(prefix + x, r) == prefix + (x + ['_'] + r) && Joined(prefix + x', r') == prefix + (x' + ['_'] + r');
    PrefixCancel(prefix, x + ['_'] + r, x' + ['_'] + r');
    SplitUnique('_', x, r, x', r');
  }

  /** Within a namespace, a sub-entity shares its ID with no other name and label value exactly
      when neither has an underscore. */
  lemma SplitIdUniqueIff(ns: string, x: string, r: string)
    ensures (forall x', r' :: Joined(Joined(ns, x'), r') == Joined(Joined(ns, x), r) ==> x' == x && r' == r) <==>
            '_' !in x && '_' !in r
  {
    JoinedUniqueIff(x, r);
    forall x', r' ensures Joined(Joined(ns, x'), r') == Joined(Joined(ns, x), r) <==> Joined(x', r') == Joined(x, r) {
      SameTail(ns, x', r', x, r);
    }
    if !('_' !in x && '_' !in r) {
      var x', r' :| Joined(x', r') == Joined(x, r) && !(x' == x && r' == r);
      assert Joined(Joined(ns, x'), r') == Joined(Joined(ns, x), r);
    }
  }

  lemma SameTail(ns: string, x: string, r: string, x': string, r': string)
    ensures Joined(Joined(ns, x), r) == Joined(Joined(ns, x'), r') <==> Joined(x, r) == Joined(x', r')
  {
    var p := ns + "_";
    assert Joined(Joined(ns, x), r) == p + Joined(x, r) && Joined(Joined(ns, x'), r') == p + Joined(x', r');
    if p + Joined(x, r) == p + Joined(x', r') {
      PrefixCancel(p, Joined(x, r), Joined(x', r'));
    }
  }

  lemma SameKsmEntity(config: Config, naming: map<string, Naming>, specs: set<string>, items: seq<Item>,
                      a: Event, b: Event)
    requires IsGrouping(config.groups, specs, items) && KsmSpecs(config, naming) && PlainSplitNames(config, items)
    requires Due(config, a) && Due(config, b) && a.id == b.id && a.kind == b.kind
    ensures a.group == b.group && a.raw == b.raw
  {
    var ns, x := DueIdentified(config, naming, specs, items, a);
    var ns', x' := DueIdentified(config, naming, specs, items, b);
    SameOwner(config, naming, a, ns, x, b, ns', x');
  }

  lemma KsmIdentities(config: Config, naming: map<string, Naming>, specs: set<string>, items: seq<Item>)
    requires IsGrouping(config.groups, specs, items) && KsmSpecs(config, naming) && PlainSplitNames(config, items)
    ensures IdentityDetermines(config)
  {
    forall a: Event, b: Event | Due(config, a) && Due(config, b) && a.id == b.id && a.kind == b.kind
      ensures a.group == b.group && a.raw == b.raw
    {
      SameKsmEntity(config, naming, specs, items, a, b);
    }
  }

  /** In every run over built groups, no two created entities share ID and type. */
  lemma KsmRunsKeepIdentities(config: Config, naming: map<string, Naming>, specs: set<string>, items: seq<Item>,
                              order: seq<RawEntity>, t: Trace)
    requires IsGrouping(config.groups, specs, items) && KsmSpecs(config, naming) && PlainSplitNames(config, items)
    requires RunTrace(config, order, t) && Visits(config, order)
    ensures OneIdentityEach(t.events)
  {
    KsmIdentities(config, naming, specs, items);
    IdentitiesStaySeparate(config, order, t);
  }
}
