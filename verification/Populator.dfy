/** The loops of IntegrationPopulator over the groups and the integration
    (src/populator/populator.go), shown to stay inside the runs Population describes. */
module Populator {
  import opened RawData
  import opened Text
  import opened Narrowing
  import opened SplitGroup
  import opened Population
  import opened PopulationRuns

  class Integration {
    var events: seq<Event>

    constructor ()
      ensures events == []
    {
      events := [];
    }
  }

  // ---- the groups on the heap ---------------------------------------

  /** One group's map of entities; copies of the groups share it. */
  class EntityTable {
    var entities: Entities

    constructor (entities: Entities)
      ensures this.entities == entities
    {
      this.entities := entities;
    }
  }

  /** A RawGroups map; its value is what fetch functions read. */
  class GroupTable {
    var groups: map<string, EntityTable>

    function Value(): RawGroups
      reads this, groups.Values
    {
      map l | l in groups :: groups[l].entities
    }

    constructor ()
      ensures groups == map[]
    {
      groups := map[];
    }

    method Put(l: string, table: EntityTable)
      modifies this
      ensures groups == old(groups)[l := table]
    {
      groups := groups[l := table];
    }
  }

  /** The copying loop of processEntities: a new outer map around the same inner maps. */
  method ShallowCopy(table: GroupTable) returns (copy: GroupTable)
    ensures fresh(copy) && copy.groups == table.groups
  {
    copy := new GroupTable();
    var todo := table.groups.Keys;
    while todo != {}
      invariant todo <= table.groups.Keys && fresh(copy)
      invariant forall l :: l in copy.groups <==> l in table.groups && l !in todo
      invariant forall l :: l in copy.groups ==> copy.groups[l] == table.groups[l]
      decreases todo
    {
      var l :| l in todo;
      copy.Put(l, table.groups[l]);
      todo := todo - {l};
    }
  }

  /** groupsForThisEntity: the copy in which the unit is alone in its group. */
  method NarrowedCopy(table: GroupTable, group: string, u: Unit) returns (narrowed: GroupTable)
    ensures fresh(narrowed)
    ensures narrowed.Value() == Narrow(table.Value(), group, u.originalId, u.metrics)
  {
    narrowed := ShallowCopy(table);
    var alone := new EntityTable(map[u.originalId := u.metrics]);
    narrowed.Put(group, alone);
  }

  // ---- filtering and units ------------------------------------------

  method FilterGroup(config: Config, group: string, raw: string) returns (extra: seq<Attribute>, skip: bool)
    requires Present(config, group, raw)
    ensures skip == !Passes(config, group, raw)
    ensures !skip ==> extra == FilterAttributes(config, group, raw)
  {
    var getter := config.specs[group].namespaceGetter;
    if config.filter.None? || getter.None? {
      return [], false;
    }
    var ns := getter.value(config.groups[group][raw]);
    if group != "namespace" {
      return [], !config.filter.value(ns);
    }
    return [Attribute("nrFiltered", if !config.filter.value(ns) then "true" else "false")], false;
  }

  /** One unit per part, in an arbitrary order. */
  method UnitsFromParts(raw: string, kind: string, parts: Entities) returns (units: seq<Unit>)
    ensures forall u :: u in units <==> exists r :: r in parts && u == Unit(raw, Joined(raw, r), kind, parts[r])
    ensures DistinctIds(units)
  {
    units := [];
    var todo := parts.Keys;
    while todo != {}
      invariant todo <= parts.Keys
      invariant forall u :: u in units <==>
                    exists r :: r in parts && r !in todo && u == Unit(raw, Joined(raw, r), kind, parts[r])
      invariant DistinctIds(units)
      decreases todo
    {
      var r :| r in todo;
      forall i | 0 <= i < |units| ensures units[i].id != Joined(raw, r) {
        assert units[i] in units;
        var x :| x in parts && x !in todo && units[i] == Unit(raw, Joined(raw, x), kind, parts[x]);
        if Joined(raw, x) == Joined(raw, r) {
          SubIdsDistinct(raw, x, r);
        }
      }
      units := units + [Unit(raw, Joined(raw, r), kind, parts[r])];
      todo := todo - {r};
    }
  }

  /** prepareProcessingUnits; splitting needs a type generator. */
  method PrepareProcessingUnits(config: Config, group: string, raw: string) returns (r: Result<seq<Unit>>)
    requires Present(config, group, raw)
    requires config.specs[group].splitByLabel != "" ==> config.specs[group].typeGenerator.Some?
    ensures r.Ok? ==> UnitError(config, group, raw).None? && Lists(config, group, raw, r.value)
    ensures r.Err? ==> UnitError(config, group, raw) == Some(r.error) && forall u :: !IsUnit(config, group, raw, u)
  {
    var sg, ms := config.specs[group], config.groups[group][raw];
    if sg.splitByLabel != "" {
      var parts := Split(ms, sg.sliceMetricName, group, sg.splitByLabel);
      if parts.Err? {
        return Err(parts.error);
      }
      var kind := TypeOf(config, group, raw);
      if kind.Err? {
        return Err(GenerateType(raw));
      }
      var units := UnitsFromParts(raw, kind.value, parts.value);
      UnitsOfParts(config, group, raw, kind.value, parts.value, units);
      return Ok(units);
    }
    var id := IdOf(config, group, raw);
    if id.Err? {
      return Err(GenerateId(raw));
    }
    var kind := TypeOf(config, group, raw);
    if kind.Err? {
      return Err(GenerateType(raw));
    }
    return Ok([Unit(raw, id.value, kind.value, ms)]);
  }

  lemma UnitsOfParts(config: Config, group: string, raw: string, kind: string, parts: Entities, units: seq<Unit>)
    requires Present(config, group, raw) && config.specs[group].splitByLabel != ""
    requires TypeOf(config, group, raw) == Ok(kind)
    requires var sg, ms := config.specs[group], config.groups[group][raw];
             var slice := SliceName(sg, group);
             slice in ms && ms[slice].Series? && IsSplit(parts, ms, slice, sg.splitByLabel, ms[slice].metrics)
    requires forall u :: u in units <==> exists r :: r in parts && u == Unit(raw, Joined(raw, r), kind, parts[r])
    ensures forall u :: u in units <==> IsUnit(config, group, raw, u)
  {
    var sg, ms := config.specs[group], config.groups[group][raw];
    var slice := SliceName(sg, group);
    forall u ensures u in units <==> IsUnit(config, group, raw, u) {
      if u in units {
        var r :| r in parts && u == Unit(raw, Joined(raw, r), kind, parts[r]);
        assert Lookup(parts, r) == Part(ms, slice, sg.splitByLabel, r, ms[slice].metrics);
      }
      if IsUnit(config, group, raw, u) {
        var r :| u.id == Joined(raw, r) && Part(ms, slice, sg.splitByLabel, r, ms[slice].metrics) == Some(u.metrics);
        assert Lookup(parts, r) == Part(ms, slice, sg.splitByLabel, r, ms[slice].metrics);
        assert u == Unit(raw, Joined(raw, r), kind, parts[r]);
      }
    }
  }

  // ---- setting metrics ----------------------------------------------

  /** populateSingleMetric */
  method PopulateSingleMetric(i: Integration, config: Config, group: string, u: Unit, spec: Spec, leaf: Leaf)
    returns (ok: bool)
    modifies i
    ensures ok == Settable(config, spec, spec.name, leaf)
    ensures i.events == old(i.events) + if ok then [MetricEvent(group, u, spec.name, leaf)] else []
  {
    ok := Settable(config, spec, spec.name, leaf);
    if ok {
      i.events := i.events + [MetricSet(group, u.originalId, u.id, u.kind, spec.name, leaf)];
    }
  }

  /** populateMetricsFromMap: in any order, up to the first value refused. */
  method PopulateMetricsFromMap(i: Integration, config: Config, group: string, u: Unit, spec: Spec,
                                values: map<string, Leaf>)
    returns (refused: Option<string>, ghost keys: seq<string>)
    modifies i
    ensures Attempt(config, spec, values, keys, refused)
    ensures i.events == old(i.events) + SetEvents(group, u, values, keys)
  {
    keys, refused := [], None;
    var todo := values.Keys;
    while todo != {}
      invariant todo <= values.Keys
      invariant forall k :: k in keys <==> k in values && k !in todo
      invariant forall k :: k in keys ==> Settable(config, spec, k, values[k])
      invariant Distinct(keys)
      invariant i.events == old(i.events) + SetEvents(group, u, values, keys)
      decreases todo
    {
      var k :| k in todo;
      if !Settable(config, spec, k, values[k]) {
        return Some(k), keys;
      }
      i.events := i.events + [MetricSet(group, u.originalId, u.id, u.kind, k, values[k])];
      assert (keys + [k])[..|keys|] == keys;
      keys := keys + [k];
      todo := todo - {k};
    }
  }

  /** populateValue */
  method PopulateValue(i: Integration, config: Config, group: string, u: Unit, spec: Spec, value: Fetched)
    returns (ok: bool, refused: Option<string>, ghost keys: seq<string>)
    modifies i
    ensures Attempt(config, spec, Pairs(spec, value), keys, refused)
    ensures i.events == old(i.events) + SetEvents(group, u, Pairs(spec, value), keys)
    ensures ok == FullySet(config, spec, value)
  {
    match value {
      case Scalar(leaf) =>
        ok := PopulateSingleMetric(i, config, group, u, spec, leaf);
        refused, keys := if ok then None else Some(spec.name), if ok then [spec.name] else [];
        assert ok ==> keys[..0] == [];
      case Bundle(values) =>
        refused, keys := PopulateMetricsFromMap(i, config, group, u, spec, values);
        ok := refused.None? && values != map[];
    }
  }

  /** The loop body of metricSetPopulate. */
  method PopulateSpec(i: Integration, config: Config, group: string, u: Unit, spec: Spec, groups: RawGroups)
    returns (populated: bool, errs: seq<Error>, ghost t: Trace)
    requires groups == Narrow(config.groups, group, u.originalId, u.metrics)
    modifies i
    ensures i.events == old(i.events) + t.events && t.errs == errs && t.populated == populated
    ensures SpecTrace(config, group, u, spec, t)
  {
    var value := spec.valueFunc(group, u.originalId, groups);
    if value.Err? {
      errs := if spec.optional then [] else [FetchFailed(spec.name)];
      return false, errs, Trace([], errs, false);
    }
    if value.value == Scalar(Nil) {
      return false, [], NOTHING;
    }
    var refused;
    ghost var keys;
    populated, refused, keys := PopulateValue(i, config, group, u, spec, value.value);
    errs := if refused.Some? && !spec.optional then [SetMetricFailed(refused.value)] else [];
    t := Trace(SetEvents(group, u, Pairs(spec, value.value), keys), errs, populated);
  }

  lemma ThenAppends(base: seq<Event>, a: Trace, b: Trace)
    ensures base + a.events + b.events == base + a.Then(b).events
  {
  }

  lemma {:induction false} FlatMore(base: seq<Event>, parts: seq<Trace>, t: Trace)
    ensures Flat(parts + [t]) == Flat(parts).Then(t)
    ensures base + Flat(parts).events + t.events == base + Flat(parts + [t]).events
  {
    assert (parts + [t])[..|parts|] == parts;
    ThenAppends(base, Flat(parts), t);
  }

  lemma SpecPartsMore(config: Config, group: string, u: Unit, specs: seq<Spec>, parts: seq<Trace>, t: Trace)
    requires SpecParts(config, group, u, specs, parts) && |parts| < |specs|
    requires SpecTrace(config, group, u, specs[|parts|], t)
    ensures SpecParts(config, group, u, specs, parts + [t])
  {
  }

  /** metricSetPopulate */
  method MetricSetPopulate(i: Integration, config: Config, group: string, u: Unit, groups: RawGroups)
    returns (populated: bool, errs: seq<Error>, ghost t: Trace)
    requires group in config.specs
    requires groups == Narrow(config.groups, group, u.originalId, u.metrics)
    modifies i
    ensures i.events == old(i.events) + t.events && t.errs == errs && t.populated == populated
    ensures SpecsTrace(config, group, u, config.specs[group].specs, t)
  {
    populated, errs := false, [];
    ghost var parts: seq<Trace> := [];
    var specs := config.specs[group].specs;
    for j := 0 to |specs|
      invariant |parts| == j && SpecParts(config, group, u, specs, parts)
      invariant i.events == old(i.events) + Flat(parts).events
      invariant Flat(parts).errs == errs && Flat(parts).populated == populated
    {
      var ok, faults;
      ghost var more;
      ok, faults, more := PopulateSpec(i, config, group, u, specs[j], groups);
      FlatMore(old(i.events), parts, more);
      SpecPartsMore(config, group, u, specs, parts, more);
      parts := parts + [more];
      errs := errs + faults;
      populated := populated || ok;
    }
    t := Flat(parts);
  }

  // ---- units and entities -------------------------------------------

  /** The loop body of processEntities: the unit reads a copy of the groups narrowed to
      itself, so the groups stay as they are. */
  method ProcessUnit(i: Integration, table: GroupTable, config: Config, group: string, extra: seq<Attribute>, u: Unit)
    returns (populated: bool, errs: seq<Error>, ghost t: Trace)
    requires group in config.specs && table.Value() == config.groups
    modifies i
    ensures i.events == old(i.events) + t.events && t.errs == errs && t.populated == populated
    ensures UnitTrace(config, group, extra, u, t)
  {
    if !Accepted(config, u) {
      return false, [SdkRefused("entity")], Trace([], [SdkRefused("entity")], false);
    }
    var narrowed := NarrowedCopy(table, group, u);
    populated, errs, t := CreateAndPopulate(i, config, group, extra, u, narrowed.Value());
  }

  method CreateAndPopulate(i: Integration, config: Config, group: string, extra: seq<Attribute>, u: Unit,
                           groups: RawGroups)
    returns (populated: bool, errs: seq<Error>, ghost t: Trace)
    requires group in config.specs && Accepted(config, u)
    requires groups == Narrow(config.groups, group, u.originalId, u.metrics)
    modifies i
    ensures i.events == old(i.events) + t.events && t.errs == errs && t.populated == populated
    ensures UnitTrace(config, group, extra, u, t)
  {
    i.events := i.events + [Creation(config, group, extra, u)];
    t := Trace([Creation(config, group, extra, u)], [], false);
    var sample := SampleType(config, group);
    if sample.Err? {
      return false, [sample.error], Trace(t.events, [sample.error], false);
    }
    ghost var sets;
    populated, errs, sets := MetricSetPopulate(i, config, group, u, groups);
    ThenAppends(old(i.events), t, sets);
    t := t.Then(sets);
  }

  lemma UnitPartsMore(config: Config, group: string, extra: seq<Attribute>, units: seq<Unit>, parts: seq<Trace>,
                      t: Trace)
    requires group in config.specs && UnitParts(config, group, extra, units, parts)
    requires |parts| < |units| && UnitTrace(config, group, extra, units[|parts|], t)
    ensures UnitParts(config, group, extra, units, parts + [t])
  {
  }

  method ProcessEntities(i: Integration, table: GroupTable, config: Config, group: string, extra: seq<Attribute>,
                         units: seq<Unit>)
    returns (populated: bool, errs: seq<Error>, ghost t: Trace)
    requires group in config.specs && table.Value() == config.groups
    modifies i
    ensures i.events == old(i.events) + t.events && t.errs == errs && t.populated == populated
    ensures UnitsTrace(config, group, extra, units, t)
  {
    populated, errs := false, [];
    ghost var parts: seq<Trace> := [];
    for j := 0 to |units|
      invariant |parts| == j && UnitParts(config, group, extra, units, parts)
      invariant i.events == old(i.events) + Flat(parts).events
      invariant Flat(parts).errs == errs && Flat(parts).populated == populated
    {
      var wasPopulated, faults;
      ghost var more;
      wasPopulated, faults, more := ProcessUnit(i, table, config, group, extra, units[j]);
      FlatMore(old(i.events), parts, more);
      UnitPartsMore(config, group, extra, units, parts, more);
      parts := parts + [more];
      errs := errs + faults;
      populated := populated || wasPopulated;
    }
    t := Flat(parts);
  }

  /** The body of the two outer loops for one raw entity. */
  method PopulateEntity(i: Integration, table: GroupTable, config: Config, group: string, raw: string)
    returns (populated: bool, errs: seq<Error>, ghost t: Trace)
    requires raw in EntitiesOf(config.groups, group) && table.Value() == config.groups
    requires Runnable(config)
    modifies i
    ensures i.events == old(i.events) + t.events && t.errs == errs && t.populated == populated
    ensures EntityTrace(config, (group, raw), t)
  {
    populated, errs, t := false, [], NOTHING;
    if group !in config.specs {
      return;
    }
    var extra, skip := FilterGroup(config, group, raw);
    if skip {
      return;
    }
    var units := PrepareProcessingUnits(config, group, raw);
    if units.Err? {
      return false, [units.error], Trace([], [units.error], false);
    }
    populated, errs, t := ProcessEntities(i, table, config, group, extra, units.value);
  }

  // ---- the whole run ------------------------------------------------

  lemma RunTraceMore(config: Config, order: seq<RawEntity>, a: Trace, e: RawEntity, b: Trace)
    requires RunTrace(config, order, a) && EntityTrace(config, e, b)
    ensures RunTrace(config, order + [e], a.Then(b))
  {
    var parts: seq<Trace> :| EntityParts(config, order, parts) && a == Flat(parts);
    FlatMore([], parts, b);
    EntityPartsMore(config, order, parts, e, b);
  }

  lemma EntityPartsMore(config: Config, order: seq<RawEntity>, parts: seq<Trace>, e: RawEntity, b: Trace)
    requires EntityParts(config, order, parts) && EntityTrace(config, e, b)
    ensures EntityParts(config, order + [e], parts + [b])
  {
  }

  /** The inner loop over the entities of one group, in an arbitrary order. */
  method PopulateGroup(i: Integration, table: GroupTable, config: Config, group: string, before: bool,
                       faults: seq<Error>,
                       ghost base: seq<Event>, ghost t0: Trace, ghost order0: seq<RawEntity>)
    returns (populated: bool, errs: seq<Error>, ghost t: Trace, ghost order: seq<RawEntity>)
    requires Runnable(config) && group in table.groups && table.Value() == config.groups
    requires i.events == base + t0.events && t0.errs == faults && t0.populated == before && RunTrace(config, order0, t0)
    requires NoRepeats(order0) && forall e :: e in order0 ==> e.0 != group
    modifies i
    ensures i.events == base + t.events && t.errs == errs && t.populated == populated && RunTrace(config, order, t)
    ensures NoRepeats(order) && forall e :: e in order <==> e in order0 || (e.0 == group && e.1 in config.groups[group])
  {
    populated, errs, t, order := before, faults, t0, order0;
    var todo := table.groups[group].entities.Keys;
    assert table.Value()[group] == table.groups[group].entities;
    while todo != {}
      invariant todo <= config.groups[group].Keys
      invariant i.events == base + t.events && t.errs == errs && t.populated == populated && RunTrace(config, order, t)
      invariant NoRepeats(order)
      invariant forall e :: e in order <==> e in order0 || (e.0 == group && e.1 in config.groups[group] && e.1 !in todo)
      decreases todo
    {
      var raw :| raw in todo;
      var pop, entityErrs;
      ghost var more;
      pop, entityErrs, more := PopulateEntity(i, table, config, group, raw);
      RunTraceMore(config, order, t, (group, raw), more);
      ThenAppends(base, t, more);
      assert (group, raw) !in order;
      t := t.Then(more);
      order := order + [(group, raw)];
      errs := errs + entityErrs;
      populated := populated || pop;
      todo := todo - {raw};
    }
  }

  /** The outer loop over the groups, in an arbitrary order. */
  method RangeOverGroups(i: Integration, table: GroupTable, config: Config)
    returns (populated: bool, errs: seq<Error>, ghost t: Trace, ghost order: seq<RawEntity>)
    requires Runnable(config) && table.Value() == config.groups
    modifies i
    ensures i.events == old(i.events) + t.events && t.errs == errs && t.populated == populated
    ensures Visits(config, order) && RunTrace(config, order, t)
  {
    populated, errs, t, order := false, [], NOTHING, [];
    assert EntityParts(config, [], []) && Flat([]) == NOTHING;
    var todo := table.groups.Keys;
    while todo != {}
      invariant todo <= table.groups.Keys
      invariant i.events == old(i.events) + t.events && t.errs == errs
      invariant t.populated == populated && RunTrace(config, order, t)
      invariant NoRepeats(order)
      invariant forall e :: e in order <==> e.0 in config.groups && e.0 !in todo && e.1 in config.groups[e.0]
      decreases todo
    {
      var group :| group in todo;
      populated, errs, t, order := PopulateGroup(i, table, config, group, populated, errs, old(i.events), t, order);
      todo := todo - {group};
    }
  }

  /** The two outer loops, then the cluster sample. */
  method PopulateAll(i: Integration, table: GroupTable, config: Config)
    returns (populated: bool, errs: seq<Error>, ghost t: Trace, ghost order: seq<RawEntity>)
    requires Runnable(config) && table.Value() == config.groups
    modifies i
    ensures i.events == old(i.events) + t.events + (if populated then [ClusterSample] else [])
    ensures t.errs == errs && t.populated == populated && Visits(config, order) && RunTrace(config, order, t)
    ensures table.groups == old(table.groups) && table.Value() == old(table.Value())
  {
    populated, errs, t, order := RangeOverGroups(i, table, config);
    if populated {
      i.events := i.events + [ClusterSample];
    }
  }

  /** IntegrationPopulator: a run over all raw entities in some order, which creates exactly
      the entities that are due, once each, sets on them only values their specs fetch and
      the SDK accepts, all of them unless one is refused, and attempts the cluster sample
      last, only if some spec of some entity was set in full. The groups stay as they were. */
  method IntegrationPopulator(i: Integration, table: GroupTable, config: Config)
    returns (populated: bool, errs: seq<Error>, ghost t: Trace, ghost order: seq<RawEntity>)
    requires Runnable(config) && table.Value() == config.groups
    modifies i
    ensures i.events == old(i.events) + t.events + (if populated then [ClusterSample] else [])
    ensures t.errs == errs && Visits(config, order) && RunTrace(config, order, t)
    ensures ExactEvents(config, t.events)
    ensures populated <==> SomePopulates(config)
    ensures populated ==> SetsSomething(t.events)
    ensures table.groups == old(table.groups) && table.Value() == old(table.Value())
  {
    populated, errs, t, order := PopulateAll(i, table, config);
    RunExact(config, order, t);
    RunPopulates(config, order, t);
  }
}
