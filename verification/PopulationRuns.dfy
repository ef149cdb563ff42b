/** What holds of every population run: the entities created, the metrics set on them, the
    order of events, and what the namespace filter guarantees (src/populator/populator.go). */
module PopulationRuns {
  import opened RawData
  import opened Population

  // ---- what should happen -------------------------------------------

  /** The entity the event creates should be created: its raw entity passes the namespace
      filter, the unit exists, and the SDK accepts it. */
  ghost predicate Due(config: Config, ev: Event) {
    && ev.Created? && Passes(config, ev.group, ev.raw)
    && exists u :: IsUnit(config, ev.group, ev.raw, u) && Accepted(config, u) &&
                   ev == Creation(config, ev.group, FilterAttributes(config, ev.group, ev.raw), u)
  }

  /** The event sets, on the unit's entity, a value the spec fetches and the SDK accepts. */
  ghost predicate SetBy(config: Config, group: string, u: Unit, spec: Spec, ev: Event) {
    var v := FetchedBy(config, group, u, spec);
    && v.Ok? && v.value != Scalar(Nil)
    && ev.MetricSet? && ev == MetricEvent(group, u, ev.name, ev.leaf)
    && ev.name in Pairs(spec, v.value) && Pairs(spec, v.value)[ev.name] == ev.leaf
    && Settable(config, spec, ev.name, ev.leaf)
  }

  /** Metrics are set on the unit at all. */
  predicate Ready(config: Config, group: string, u: Unit) {
    group in config.specs && Accepted(config, u) && SampleType(config, group).Ok?
  }

  ghost predicate SetBySome(config: Config, group: string, u: Unit, specs: seq<Spec>, ev: Event) {
    exists j :: 0 <= j < |specs| && SetBy(config, group, u, specs[j], ev)
  }

  /** ... by a spec all of whose values are accepted. */
  ghost predicate SetInFull(config: Config, group: string, u: Unit, specs: seq<Spec>, ev: Event) {
    exists j :: 0 <= j < |specs| && SpecPopulates(config, group, u, specs[j]) && SetBy(config, group, u, specs[j], ev)
  }

  ghost predicate UnitSets(config: Config, group: string, u: Unit, ev: Event) {
    Ready(config, group, u) && SetBySome(config, group, u, config.specs[group].specs, ev)
  }

  ghost predicate UnitMustSet(config: Config, group: string, u: Unit, ev: Event) {
    Ready(config, group, u) && SetInFull(config, group, u, config.specs[group].specs, ev)
  }

  /** A metric that may be set: on an entity that is due, with a name and a value that one of
      its specs fetches and the SDK accepts. */
  ghost predicate MayBeSet(config: Config, ev: Event) {
    && ev.MetricSet? && Passes(config, ev.group, ev.raw)
    && exists u :: IsUnit(config, ev.group, ev.raw, u) && UnitSets(config, ev.group, u, ev)
  }

  /** A metric that has to be set: all values of its spec are accepted. */
  ghost predicate MustBeSet(config: Config, ev: Event) {
    && ev.MetricSet? && Passes(config, ev.group, ev.raw)
    && exists u :: IsUnit(config, ev.group, ev.raw, u) && UnitMustSet(config, ev.group, u, ev)
  }

  /** Every entity that is due is created once and no other, only metrics that may be set are
      set, and all metrics that must be. */
  ghost predicate ExactEvents(config: Config, events: seq<Event>) {
    && ClusterSample !in events
    && (forall ev: Event :: ev.Created? ==> multiset(events)[ev] == if Due(config, ev) then 1 else 0)
    && (forall ev :: ev in events && ev.MetricSet? ==> MayBeSet(config, ev))
    && (forall ev :: MustBeSet(config, ev) ==> ev in events)
  }

  predicate SpecPopulates(config: Config, group: string, u: Unit, spec: Spec) {
    var v := FetchedBy(config, group, u, spec);
    v.Ok? && v.value != Scalar(Nil) && FullySet(config, spec, v.value)
  }

  ghost predicate SomeSpecPopulates(config: Config, group: string, u: Unit, specs: seq<Spec>) {
    exists j :: 0 <= j < |specs| && SpecPopulates(config, group, u, specs[j])
  }

  /** Processing the unit sets all values of some spec. */
  ghost predicate UnitPopulates(config: Config, group: string, u: Unit) {
    && group in config.specs && Accepted(config, u) && SampleType(config, group).Ok?
    && SomeSpecPopulates(config, group, u, config.specs[group].specs)
  }

  /** The raw entity has a unit that sets all values of some spec. */
  ghost predicate Populates(config: Config, e: RawEntity) {
    Passes(config, e.0, e.1) && exists u :: IsUnit(config, e.0, e.1, u) && UnitPopulates(config, e.0, u)
  }

  ghost predicate SomePopulates(config: Config) {
    exists e :: Populates(config, e)
  }

  ghost predicate SetsSomething(events: seq<Event>) {
    exists ev :: ev in events && ev.MetricSet?
  }

  // ---- traces in sequence -------------------------------------------

  lemma {:induction false} FlatMembers(parts: seq<Trace>, ev: Event)
    ensures ev in Flat(parts).events <==> exists j :: 0 <= j < |parts| && ev in parts[j].events
  {
    if parts != [] {
      var front := parts[..|parts| - 1];
      FlatMembers(front, ev);
      assert forall j :: 0 <= j < |front| ==> front[j] == parts[j];
    }
  }

  lemma {:induction false} FlatPopulated(parts: seq<Trace>)
    ensures Flat(parts).populated <==> exists j :: 0 <= j < |parts| && parts[j].populated
  {
    if parts != [] {
      var front := parts[..|parts| - 1];
      FlatPopulated(front);
      assert forall j :: 0 <= j < |front| ==> front[j] == parts[j];
    }
  }

  /** An event that only one part has occurs as often as in that part. */
  lemma {:induction false} FlatCount(parts: seq<Trace>, ev: Event, k: nat)
    requires k < |parts| && forall j :: 0 <= j < |parts| && j != k ==> ev !in parts[j].events
    ensures multiset(Flat(parts).events)[ev] == multiset(parts[k].events)[ev]
  {
    var front := parts[..|parts| - 1];
    if k < |front| {
      FlatCount(front, ev, k);
      assert ev !in parts[|parts| - 1].events;
    } else {
      FlatMembers(front, ev);
    }
  }

  // ---- specs and units ----------------------------------------------

  lemma {:induction false} SetEventsMembers(group: string, u: Unit, values: map<string, Leaf>, keys: seq<string>,
                                            ev: Event)
    requires forall k :: k in keys ==> k in values
    ensures ev in SetEvents(group, u, values, keys) <==>
            exists k :: k in keys && ev == MetricEvent(group, u, k, values[k])
  {
    if keys != [] {
      var front, last := keys[..|keys| - 1], keys[|keys| - 1];
      SetEventsMembers(group, u, values, front, ev);
      assert forall k :: k in keys <==> k in front || k == last;
      assert ev in SetEvents(group, u, values, keys) <==>
             ev in SetEvents(group, u, values, front) || ev == MetricEvent(group, u, last, values[last]);
    }
  }

  lemma SpecEvents(config: Config, group: string, u: Unit, spec: Spec, t: Trace, ev: Event)
    requires SpecTrace(config, group, u, spec, t)
    ensures ev in t.events ==> SetBy(config, group, u, spec, ev)
    ensures SpecPopulates(config, group, u, spec) && SetBy(config, group, u, spec, ev) ==> ev in t.events
    ensures t.populated <==> SpecPopulates(config, group, u, spec)
  {
    var v := FetchedBy(config, group, u, spec);
    if v.Ok? && v.value != Scalar(Nil) {
      var values := Pairs(spec, v.value);
      var keys, refused :| Attempt(config, spec, values, keys, refused) &&
                           t == Trace(SetEvents(group, u, values, keys), RefusalErrors(spec, refused),
                                      FullySet(config, spec, v.value));
      SetEventsMembers(group, u, values, keys, ev);
      if SpecPopulates(config, group, u, spec) && SetBy(config, group, u, spec, ev) {
        assert refused.None? && ev.name in keys;
      }
    }
  }

  lemma SpecsEvents(config: Config, group: string, u: Unit, specs: seq<Spec>, t: Trace, ev: Event)
    requires SpecsTrace(config, group, u, specs, t)
    ensures ev in t.events ==> SetBySome(config, group, u, specs, ev)
    ensures SetInFull(config, group, u, specs, ev) ==> ev in t.events
    ensures t.populated <==> SomeSpecPopulates(config, group, u, specs)
  {
    var parts: seq<Trace> :| SpecParts(config, group, u, specs, parts) && |parts| == |specs| && t == Flat(parts);
    FlatMembers(parts, ev);
    FlatPopulated(parts);
    forall j | 0 <= j < |parts|
      ensures ev in parts[j].events ==> SetBy(config, group, u, specs[j], ev)
      ensures SpecPopulates(config, group, u, specs[j]) && SetBy(config, group, u, specs[j], ev) ==>
                ev in parts[j].events
      ensures parts[j].populated <==> SpecPopulates(config, group, u, specs[j])
    {
      SpecEvents(config, group, u, specs[j], parts[j], ev);
    }
  }

  ghost predicate Creates(config: Config, group: string, extra: seq<Attribute>, u: Unit, ev: Event) {
    Accepted(config, u) && ev == Creation(config, group, extra, u)
  }

  lemma UnitEvents(config: Config, group: string, extra: seq<Attribute>, u: Unit, t: Trace, ev: Event)
    requires group in config.specs && UnitTrace(config, group, extra, u, t)
    ensures !ev.MetricSet? ==> multiset(t.events)[ev] == if Creates(config, group, extra, u, ev) then 1 else 0
    ensures ev in t.events && ev.MetricSet? ==> UnitSets(config, group, u, ev)
    ensures UnitMustSet(config, group, u, ev) ==> ev in t.events
    ensures t.populated <==> UnitPopulates(config, group, u)
  {
    if Ready(config, group, u) {
      var specs := config.specs[group].specs;
      var sets :| SpecsTrace(config, group, u, specs, sets) &&
                  t == Trace([Creation(config, group, extra, u)], [], false).Then(sets);
      SpecsEvents(config, group, u, specs, sets, ev);
      assert !ev.MetricSet? ==> ev !in sets.events;
    }
  }

  ghost predicate SomeCreates(config: Config, group: string, extra: seq<Attribute>, units: seq<Unit>, ev: Event) {
    exists j :: 0 <= j < |units| && Creates(config, group, extra, units[j], ev)
  }

  lemma UnitsCreations(config: Config, group: string, extra: seq<Attribute>, units: seq<Unit>, t: Trace, ev: Event)
    requires group in config.specs && UnitsTrace(config, group, extra, units, t) && DistinctIds(units)
    requires !ev.MetricSet?
    ensures multiset(t.events)[ev] == if SomeCreates(config, group, extra, units, ev) then 1 else 0
  {
    var parts: seq<Trace> :| UnitParts(config, group, extra, units, parts) && |parts| == |units| && t == Flat(parts);
    forall j | 0 <= j < |parts|
      ensures multiset(parts[j].events)[ev] == if Creates(config, group, extra, units[j], ev) then 1 else 0
    {
      UnitEvents(config, group, extra, units[j], parts[j], ev);
    }
    OneCreates(config, group, extra, units, parts, ev);
  }

  lemma {:induction false} OneCreates(config: Config, group: string, extra: seq<Attribute>, units: seq<Unit>,
                                      parts: seq<Trace>, ev: Event)
    requires |parts| == |units| && DistinctIds(units)
    requires forall j :: 0 <= j < |parts| ==>
                           multiset(parts[j].events)[ev] == if Creates(config, group, extra, units[j], ev) then 1 else 0
    ensures multiset(Flat(parts).events)[ev] == if SomeCreates(config, group, extra, units, ev) then 1 else 0
  {
    if k :| 0 <= k < |units| && Creates(config, group, extra, units[k], ev) {
      forall j | 0 <= j < |parts| && j != k ensures ev !in parts[j].events {
        assert units[j].id != units[k].id;
        assert multiset(parts[j].events)[ev] == 0;
      }
      FlatCount(parts, ev, k);
    } else {
      FlatMembers(parts, ev);
      forall j | 0 <= j < |parts| ensures ev !in parts[j].events {
        assert multiset(parts[j].events)[ev] == 0;
      }
    }
  }

  lemma UnitsSets(config: Config, group: string, extra: seq<Attribute>, units: seq<Unit>, t: Trace, ev: Event)
    requires group in config.specs && UnitsTrace(config, group, extra, units, t)
    requires ev.MetricSet?
    ensures ev in t.events ==> exists j :: 0 <= j < |units| && UnitSets(config, group, units[j], ev)
    ensures (exists j :: 0 <= j < |units| && UnitMustSet(config, group, units[j], ev)) ==> ev in t.events
  {
    var parts: seq<Trace> :| UnitParts(config, group, extra, units, parts) && |parts| == |units| && t == Flat(parts);
    FlatMembers(parts, ev);
    forall j | 0 <= j < |parts|
      ensures ev in parts[j].events ==> UnitSets(config, group, units[j], ev)
      ensures UnitMustSet(config, group, units[j], ev) ==> ev in parts[j].events
    {
      UnitEvents(config, group, extra, units[j], parts[j], ev);
    }
  }

  lemma UnitsPopulated(config: Config, group: string, extra: seq<Attribute>, units: seq<Unit>, t: Trace)
    requires group in config.specs && UnitsTrace(config, group, extra, units, t)
    ensures t.populated <==> exists j :: 0 <= j < |units| && UnitPopulates(config, group, units[j])
  {
    var parts: seq<Trace> :| UnitParts(config, group, extra, units, parts) && |parts| == |units| && t == Flat(parts);
    FlatPopulated(parts);
    forall j | 0 <= j < |parts| ensures parts[j].populated <==> UnitPopulates(config, group, units[j]) {
      UnitEvents(config, group, extra, units[j], parts[j], ClusterSample);
    }
  }

  // ---- raw entities and runs ----------------------------------------

  /** The event creates an entity that is due for the raw entity. */
  ghost predicate CreatedFor(config: Config, e: RawEntity, ev: Event) {
    ev.Created? && (ev.group, ev.raw) == e && Due(config, ev)
  }

  /** What a visited raw entity creates. */
  lemma EntityCreations(config: Config, e: RawEntity, t: Trace, ev: Event)
    requires EntityTrace(config, e, t) && !ev.MetricSet?
    ensures multiset(t.events)[ev] == if CreatedFor(config, e, ev) then 1 else 0
  {
    if Passes(config, e.0, e.1) && UnitError(config, e.0, e.1).None? {
      var extra := FilterAttributes(config, e.0, e.1);
      var units :| Lists(config, e.0, e.1, units) && UnitsTrace(config, e.0, extra, units, t);
      UnitsCreations(config, e.0, extra, units, t, ev);
      if ev.Created? {
        DueIsCreated(config, e, units, ev);
      }
    }
  }

  /** ... and which metrics it sets. */
  lemma EntitySets(config: Config, e: RawEntity, t: Trace, ev: Event)
    requires EntityTrace(config, e, t) && ev.MetricSet?
    ensures ev in t.events ==> MayBeSet(config, ev)
    ensures MustBeSet(config, ev) && (ev.group, ev.raw) == e ==> ev in t.events
  {
    if Passes(config, e.0, e.1) && UnitError(config, e.0, e.1).None? {
      var extra := FilterAttributes(config, e.0, e.1);
      var units :| Lists(config, e.0, e.1, units) && UnitsTrace(config, e.0, extra, units, t);
      UnitsSets(config, e.0, extra, units, t, ev);
      if ev in t.events {
        var j :| 0 <= j < |units| && UnitSets(config, e.0, units[j], ev);
        assert units[j] in units && IsUnit(config, e.0, e.1, units[j]);
      }
      if MustBeSet(config, ev) && (ev.group, ev.raw) == e {
        var u :| IsUnit(config, ev.group, ev.raw, u) && UnitMustSet(config, ev.group, u, ev);
        var j :| 0 <= j < |units| && units[j] == u;
      }
    }
  }

  lemma DueIsCreated(config: Config, e: RawEntity, units: seq<Unit>, ev: Event)
    requires Passes(config, e.0, e.1) && Lists(config, e.0, e.1, units) && ev.Created?
    ensures SomeCreates(config, e.0, FilterAttributes(config, e.0, e.1), units, ev) <==>
            (ev.group, ev.raw) == e && Due(config, ev)
  {
    var extra := FilterAttributes(config, e.0, e.1);
    if SomeCreates(config, e.0, extra, units, ev) {
      var j :| 0 <= j < |units| && Creates(config, e.0, extra, units[j], ev);
      assert units[j] in units && IsUnit(config, e.0, e.1, units[j]);
    }
    if (ev.group, ev.raw) == e && Due(config, ev) {
      var u :| IsUnit(config, ev.group, ev.raw, u) && Accepted(config, u) &&
               ev == Creation(config, ev.group, FilterAttributes(config, ev.group, ev.raw), u);
      var j :| 0 <= j < |units| && units[j] == u;
      assert Creates(config, e.0, extra, units[j], ev);
    }
  }

  lemma EntityPopulated(config: Config, e: RawEntity, t: Trace)
    requires EntityTrace(config, e, t)
    ensures t.populated <==> Populates(config, e)
  {
    if Passes(config, e.0, e.1) && UnitError(config, e.0, e.1).None? {
      var extra := FilterAttributes(config, e.0, e.1);
      var units :| Lists(config, e.0, e.1, units) && UnitsTrace(config, e.0, extra, units, t);
      UnitsPopulated(config, e.0, extra, units, t);
      assert forall u :: u in units <==> IsUnit(config, e.0, e.1, u);
    }
  }

  lemma RunPopulated(config: Config, order: seq<RawEntity>, t: Trace)
    requires RunTrace(config, order, t)
    ensures t.populated <==> exists j :: 0 <= j < |order| && Populates(config, order[j])
  {
    var parts: seq<Trace> :| EntityParts(config, order, parts) && t == Flat(parts);
    FlatPopulated(parts);
    forall j | 0 <= j < |parts| ensures parts[j].populated <==> Populates(config, order[j]) {
      EntityPopulated(config, order[j], parts[j]);
    }
  }

  ghost predicate Visited(order: seq<RawEntity>, ev: Event) {
    !ev.ClusterSample? && exists j :: 0 <= j < |order| && order[j] == (ev.group, ev.raw)
  }

  /** In a run, every entity that is due is created once, and nothing else is. */
  lemma RunCreations(config: Config, order: seq<RawEntity>, t: Trace, ev: Event)
    requires RunTrace(config, order, t) && NoRepeats(order) && !ev.MetricSet?
    ensures multiset(t.events)[ev] == if Visited(order, ev) && Due(config, ev) then 1 else 0
  {
    var parts: seq<Trace> :| EntityParts(config, order, parts) && t == Flat(parts);
    forall j | 0 <= j < |parts|
      ensures multiset(parts[j].events)[ev] == if CreatedFor(config, order[j], ev) then 1 else 0
    {
      EntityCreations(config, order[j], parts[j], ev);
    }
    OneEntityCreates(config, order, parts, ev);
  }

  lemma {:induction false} OneEntityCreates(config: Config, order: seq<RawEntity>, parts: seq<Trace>, ev: Event)
    requires |parts| == |order| && NoRepeats(order)
    requires forall j :: 0 <= j < |parts| ==>
               multiset(parts[j].events)[ev] == if CreatedFor(config, order[j], ev) then 1 else 0
    ensures multiset(Flat(parts).events)[ev] == if Visited(order, ev) && Due(config, ev) then 1 else 0
  {
    if Visited(order, ev) && Due(config, ev) {
      var k :| 0 <= k < |order| && order[k] == (ev.group, ev.raw);
      forall j | 0 <= j < |parts| && j != k ensures ev !in parts[j].events {
        assert order[j] != order[k];
        assert multiset(parts[j].events)[ev] == 0;
      }
      FlatCount(parts, ev, k);
    } else {
      FlatMembers(parts, ev);
      forall j | 0 <= j < |parts| ensures ev !in parts[j].events {
        assert multiset(parts[j].events)[ev] == 0;
      }
    }
  }

  /** In a run, only metrics that may be set are, and all that must be. */
  lemma RunSets(config: Config, order: seq<RawEntity>, t: Trace, ev: Event)
    requires RunTrace(config, order, t) && ev.MetricSet?
    ensures ev in t.events ==> MayBeSet(config, ev)
    ensures MustBeSet(config, ev) && Visited(order, ev) ==> ev in t.events
  {
    var parts: seq<Trace> :| EntityParts(config, order, parts) && t == Flat(parts);
    FlatMembers(parts, ev);
    forall j | 0 <= j < |parts|
      ensures ev in parts[j].events ==> MayBeSet(config, ev)
      ensures MustBeSet(config, ev) && (ev.group, ev.raw) == order[j] ==> ev in parts[j].events
    {
      EntitySets(config, order[j], parts[j], ev);
    }
  }

  /** Nothing is to be done for entities outside the groups. */
  lemma AllVisited(config: Config, order: seq<RawEntity>, ev: Event)
    requires Visits(config, order)
    ensures Due(config, ev) || MustBeSet(config, ev) ==> Visited(order, ev)
  {
    if Due(config, ev) || MustBeSet(config, ev) {
      assert (ev.group, ev.raw) in order;
    }
  }

  /** The events of a whole run. */
  lemma RunExact(config: Config, order: seq<RawEntity>, t: Trace)
    requires RunTrace(config, order, t) && Visits(config, order)
    ensures ExactEvents(config, t.events)
  {
    RunCreations(config, order, t, ClusterSample);
    assert multiset(t.events)[ClusterSample] == 0;
    forall ev: Event | ev.Created? ensures multiset(t.events)[ev] == if Due(config, ev) then 1 else 0 {
      RunCreations(config, order, t, ev);
      AllVisited(config, order, ev);
    }
    forall ev: Event | ev.MetricSet?
      ensures ev in t.events ==> MayBeSet(config, ev)
      ensures MustBeSet(config, ev) ==> ev in t.events
    {
      RunSets(config, order, t, ev);
      AllVisited(config, order, ev);
    }
  }

  lemma RunPopulates(config: Config, order: seq<RawEntity>, t: Trace)
    requires RunTrace(config, order, t) && Visits(config, order)
    ensures t.populated <==> SomePopulates(config)
    ensures t.populated ==> SetsSomething(t.events)
  {
    RunPopulated(config, order, t);
    forall e | Populates(config, e) ensures e in order {
    }
    if t.populated {
      var j :| 0 <= j < |order| && Populates(config, order[j]);
      var ev := PopulatesSets(config, order[j]);
      RunExact(config, order, t);
      assert ev in t.events && ev.MetricSet?;
    }
  }

  lemma PopulatesSets(config: Config, e: RawEntity) returns (ev: Event)
    requires Populates(config, e)
    ensures MustBeSet(config, ev)
  {
    var u :| IsUnit(config, e.0, e.1, u) && UnitPopulates(config, e.0, u);
    var specs := config.specs[e.0].specs;
    var j :| 0 <= j < |specs| && SpecPopulates(config, e.0, u, specs[j]);
    var s := specs[j];
    var values := Pairs(s, FetchedBy(config, e.0, u, s).value);
    var k :| k in values;
    ev := MetricEvent(e.0, u, k, values[k]);
    assert SetBy(config, e.0, u, s, ev);
  }

  // ---- identities --------------------------------------------------------

  /** The SDK keys entities by ID and type: no two creations share both. */
  ghost predicate OneIdentityEach(events: seq<Event>) {
    forall i, j :: 0 <= i < j < |events| && events[i].Created? && events[j].Created? ==>
                     events[i].id != events[j].id || events[i].kind != events[j].kind
  }

  /** ID and type determine which entity is due. */
  ghost predicate IdentityDetermines(config: Config) {
    forall a: Event, b: Event :: Due(config, a) && Due(config, b) && a.id == b.id && a.kind == b.kind ==>
                                   a.group == b.group && a.raw == b.raw
  }

  lemma CountedTwice(events: seq<Event>, i: nat, j: nat)
    requires i < j < |events| && events[i] == events[j]
    ensures multiset(events)[events[i]] >= 2
  {
    assert events == events[..j] + events[j..];
    assert events[i] in events[..j] && events[j] == events[j..][0];
  }

  /** Then no run creates an entity over another. */
  lemma IdentitiesStaySeparate(config: Config, order: seq<RawEntity>, t: Trace)
    requires RunTrace(config, order, t) && Visits(config, order) && IdentityDetermines(config)
    ensures OneIdentityEach(t.events)
  {
    RunExact(config, order, t);
    var events := t.events;
    forall i, j | 0 <= i < j < |events| && events[i].Created? && events[j].Created?
      ensures events[i].id != events[j].id || events[i].kind != events[j].kind
    {
      CreatedIsDue(config, events, i);
      CreatedIsDue(config, events, j);
      if events[i].id == events[j].id && events[i].kind == events[j].kind {
        SameCreation(config, events[i], events[j]);
        CountedTwice(events, i, j);
      }
    }
  }

  lemma CreatedIsDue(config: Config, events: seq<Event>, i: nat)
    requires ExactEvents(config, events) && i < |events| && events[i].Created?
    ensures Due(config, events[i]) && multiset(events)[events[i]] == 1
  {
    assert events[i] in events;
    assert multiset(events)[events[i]] > 0;
  }

  /** Creations of one raw entity under one ID and type are one and the same. */
  lemma SameCreation(config: Config, a: Event, b: Event)
    requires Due(config, a) && Due(config, b) && IdentityDetermines(config) && a.id == b.id && a.kind == b.kind
    ensures a == b
  {
  }

  // ---- order of events ----------------------------------------------

  predicate SameEntity(a: Event, b: Event) {
    a.Created? && b.MetricSet? && a.group == b.group && a.raw == b.raw && a.id == b.id && a.kind == b.kind
  }

  ghost predicate CreatedFirst(events: seq<Event>) {
    forall k :: 0 <= k < |events| && events[k].MetricSet? ==> exists j :: 0 <= j < k && SameEntity(events[j], events[k])
  }

  lemma CreatedFirstConcat(a: seq<Event>, b: seq<Event>)
    requires CreatedFirst(a) && CreatedFirst(b)
    ensures CreatedFirst(a + b)
  {
    var all := a + b;
    forall k | 0 <= k < |all| && all[k].MetricSet? ensures exists j :: 0 <= j < k && SameEntity(all[j], all[k]) {
      if k < |a| {
        var j :| 0 <= j < k && SameEntity(a[j], a[k]);
        assert SameEntity(all[j], all[k]);
      } else {
        var j :| 0 <= j < k - |a| && SameEntity(b[j], b[k - |a|]);
        assert SameEntity(all[j + |a|], all[k]);
      }
    }
  }

  lemma UnitCreatedFirst(config: Config, group: string, extra: seq<Attribute>, u: Unit, t: Trace)
    requires group in config.specs && UnitTrace(config, group, extra, u, t)
    ensures CreatedFirst(t.events)
  {
    forall k | 0 <= k < |t.events| && t.events[k].MetricSet?
      ensures exists j :: 0 <= j < k && SameEntity(t.events[j], t.events[k])
    {
      assert t.events[k] in t.events;
      UnitEvents(config, group, extra, u, t, t.events[k]);
      assert SameEntity(t.events[0], t.events[k]);
    }
  }

  lemma {:induction false} FlatCreatedFirst(parts: seq<Trace>)
    requires forall j :: 0 <= j < |parts| ==> CreatedFirst(parts[j].events)
    ensures CreatedFirst(Flat(parts).events)
  {
    if parts != [] {
      FlatCreatedFirst(parts[..|parts| - 1]);
      CreatedFirstConcat(Flat(parts[..|parts| - 1]).events, parts[|parts| - 1].events);
    }
  }

  lemma UnitsCreatedFirst(config: Config, group: string, extra: seq<Attribute>, units: seq<Unit>, t: Trace)
    requires group in config.specs && UnitsTrace(config, group, extra, units, t)
    ensures CreatedFirst(t.events)
  {
    var parts: seq<Trace> :| UnitParts(config, group, extra, units, parts) && |parts| == |units| && t == Flat(parts);
    forall j | 0 <= j < |parts| ensures CreatedFirst(parts[j].events) {
      UnitCreatedFirst(config, group, extra, units[j], parts[j]);
    }
    FlatCreatedFirst(parts);
  }

  /** In every run an entity is created before a metric is set on it. */
  lemma RunCreatesFirst(config: Config, order: seq<RawEntity>, t: Trace)
    requires RunTrace(config, order, t)
    ensures CreatedFirst(t.events)
  {
    var parts: seq<Trace> :| EntityParts(config, order, parts) && t == Flat(parts);
    forall j | 0 <= j < |parts| ensures CreatedFirst(parts[j].events) {
      EntityCreatedFirst(config, order[j], parts[j]);
    }
    FlatCreatedFirst(parts);
  }

  lemma EntityCreatedFirst(config: Config, e: RawEntity, t: Trace)
    requires EntityTrace(config, e, t)
    ensures CreatedFirst(t.events)
  {
    if Passes(config, e.0, e.1) && UnitError(config, e.0, e.1).None? {
      var extra := FilterAttributes(config, e.0, e.1);
      var units :| Lists(config, e.0, e.1, units) && UnitsTrace(config, e.0, extra, units, t);
      UnitsCreatedFirst(config, e.0, extra, units, t);
    }
  }

  // ---- which value a metric ends up with ----------------------------

  /** The value last set under a name. */
  function FinalValue(events: seq<Event>, name: string): Option<Leaf> {
    if events == [] then None
    else if events[|events| - 1].MetricSet? && events[|events| - 1].name == name then Some(events[|events| - 1].leaf)
    else FinalValue(events[..|events| - 1], name)
  }

  lemma {:induction false} FinalOfConcat(a: seq<Event>, b: seq<Event>, name: string)
    ensures FinalValue(a + b, name) == if FinalValue(b, name).Some? then FinalValue(b, name) else FinalValue(a, name)
  {
    if b == [] {
      assert a + b == a;
    } else {
      assert (a + b)[..|a + b| - 1] == a + b[..|b| - 1];
      FinalOfConcat(a, b[..|b| - 1], name);
    }
  }

  lemma {:induction false} FinalIsMember(events: seq<Event>, name: string)
    ensures FinalValue(events, name).Some? <==> exists ev :: ev in events && ev.MetricSet? && ev.name == name
    ensures FinalValue(events, name).Some? ==>
              exists ev :: ev in events && ev.MetricSet? && ev.name == name && ev.leaf == FinalValue(events, name).value
  {
    if events != [] {
      FinalIsMember(events[..|events| - 1], name);
      assert events == events[..|events| - 1] + [events[|events| - 1]];
      assert events[|events| - 1] in events;
    }
  }

  ghost predicate Fetches(config: Config, group: string, u: Unit, spec: Spec, name: string) {
    var v := FetchedBy(config, group, u, spec);
    v.Ok? && v.value != Scalar(Nil) && name in Pairs(spec, v.value)
  }

  /** The named values a spec fetched. */
  ghost function FetchedPairs(config: Config, group: string, u: Unit, spec: Spec): map<string, Leaf> {
    var v := FetchedBy(config, group, u, spec);
    if v.Ok? then Pairs(spec, v.value) else map[]
  }

  lemma {:induction false} FlatFinal(parts: seq<Trace>, name: string, j: nat)
    requires j < |parts| && FinalValue(parts[j].events, name).Some?
    requires forall k :: j < k < |parts| ==> FinalValue(parts[k].events, name).None?
    ensures FinalValue(Flat(parts).events, name) == FinalValue(parts[j].events, name)
  {
    var front, last := parts[..|parts| - 1], parts[|parts| - 1];
    FinalOfConcat(Flat(front).events, last.events, name);
    if j < |front| {
      FlatFinal(front, name, j);
    }
  }

  ghost predicate SetsName(t: Trace, name: string) {
    exists ev :: ev in t.events && ev.MetricSet? && ev.name == name
  }

  /** Part j sets the name, and no later one does. */
  ghost predicate LastToSet(parts: seq<Trace>, j: int, name: string) {
    0 <= j < |parts| && SetsName(parts[j], name) && forall k :: j < k < |parts| ==> !SetsName(parts[k], name)
  }

  /** Whatever a spec set under a name is the value it fetched for it. */
  lemma SpecFinal(config: Config, group: string, u: Unit, spec: Spec, t: Trace, name: string)
    requires SpecTrace(config, group, u, spec, t)
    ensures FinalValue(t.events, name).Some? <==> SetsName(t, name)
    ensures SetsName(t, name) ==>
              && Fetches(config, group, u, spec, name)
              && FinalValue(t.events, name) == Some(FetchedPairs(config, group, u, spec)[name])
    ensures SpecPopulates(config, group, u, spec) && Fetches(config, group, u, spec, name) ==> SetsName(t, name)
  {
    FinalIsMember(t.events, name);
    forall ev | ev in t.events ensures SetBy(config, group, u, spec, ev) {
      SpecEvents(config, group, u, spec, t, ev);
    }
    if SpecPopulates(config, group, u, spec) && Fetches(config, group, u, spec, name) {
      var ev := MetricEvent(group, u, name, FetchedPairs(config, group, u, spec)[name]);
      SpecEvents(config, group, u, spec, t, ev);
      assert ev in t.events && ev.MetricSet? && ev.name == name;
    }
  }

  lemma {:induction false} FlatUnset(parts: seq<Trace>, name: string)
    requires forall k :: 0 <= k < |parts| ==> FinalValue(parts[k].events, name).None?
    ensures FinalValue(Flat(parts).events, name).None?
  {
    if parts != [] {
      var front := parts[..|parts| - 1];
      FlatUnset(front, name);
      FinalOfConcat(Flat(front).events, parts[|parts| - 1].events, name);
    }
  }

  /** Specs are applied in order and later ones overwrite: a name ends up with the value fetched
      by the last spec that got as far as setting it, even if another of its values was
      refused, and stays unset if there is none. */
  lemma LastSpecWins(config: Config, group: string, u: Unit, specs: seq<Spec>, parts: seq<Trace>, name: string)
    requires SpecParts(config, group, u, specs, parts) && |parts| == |specs|
    ensures FinalValue(Flat(parts).events, name).None? <==> forall k :: 0 <= k < |parts| ==> !SetsName(parts[k], name)
    ensures forall j :: LastToSet(parts, j, name) ==>
              && Fetches(config, group, u, specs[j], name)
              && FinalValue(Flat(parts).events, name) == Some(FetchedPairs(config, group, u, specs[j])[name])
  {
    forall k | 0 <= k < |parts|
      ensures FinalValue(parts[k].events, name).Some? <==> SetsName(parts[k], name)
      ensures SetsName(parts[k], name) ==>
                && Fetches(config, group, u, specs[k], name)
                && FinalValue(parts[k].events, name) == Some(FetchedPairs(config, group, u, specs[k])[name])
    {
      SpecFinal(config, group, u, specs[k], parts[k], name);
    }
    if forall k :: 0 <= k < |parts| ==> !SetsName(parts[k], name) {
      FlatUnset(parts, name);
    } else {
      var j := LastSetting(parts, name, |parts|);
      FlatFinal(parts, name, j);
    }
    forall j | LastToSet(parts, j, name)
      ensures FinalValue(Flat(parts).events, name) == FinalValue(parts[j].events, name)
    {
      FlatFinal(parts, name, j);
    }
  }

  /** The last of the first n parts that sets the name. */
  lemma {:induction false} LastSetting(parts: seq<Trace>, name: string, n: nat) returns (j: nat)
    requires n <= |parts| && exists k :: 0 <= k < n && SetsName(parts[k], name)
    ensures j < n && SetsName(parts[j], name) && forall k :: j < k < n ==> !SetsName(parts[k], name)
  {
    if SetsName(parts[n - 1], name) {
      j := n - 1;
    } else {
      j := LastSetting(parts, name, n - 1);
    }
  }

  // ---- what the filter guarantees -----------------------------------

  /** With a filter, an entity of a namespaced group exists only if its namespace is
      allowed, and a namespace entity says whether it is filtered. */
  lemma FilterGuarantees(config: Config, ev: Event, allowed: string -> bool, getter: RawMetrics -> string)
    requires Due(config, ev)
    requires config.filter == Some(allowed) && config.specs[ev.group].namespaceGetter == Some(getter)
    ensures var ns := getter(config.groups[ev.group][ev.raw]);
            && (ev.group != "namespace" ==> allowed(ns))
            && (ev.group == "namespace" ==>
                  Attribute("nrFiltered", if allowed(ns) then "false" else "true") in ev.attributes)
  {
    var extra := FilterAttributes(config, ev.group, ev.raw);
    var u :| IsUnit(config, ev.group, ev.raw, u) && Accepted(config, u) && ev == Creation(config, ev.group, extra, u);
    if ev.group == "namespace" {
      assert extra[0] in extra;
      assert extra[0] in ev.attributes;
    }
  }

  /** Every created entity carries the cluster name and its own ID as display name, and the
      cloud resource ID exactly when one is configured. */
  lemma EntityAttributes(config: Config, ev: Event)
    requires Due(config, ev)
    ensures Attribute("clusterName", config.clusterName) in ev.attributes
    ensures Attribute("displayName", ev.id) in ev.attributes
    ensures forall v :: Attribute("cloud.resource_id", v) in ev.attributes <==>
                config.cloudClusterID != "" && v == config.cloudClusterID
  {
    var extra := FilterAttributes(config, ev.group, ev.raw);
    var u :| IsUnit(config, ev.group, ev.raw, u) && Accepted(config, u) && ev == Creation(config, ev.group, extra, u);
    var n := |extra|;
    assert ev.attributes[n] == Attribute("clusterName", config.clusterName);
    assert ev.attributes[n + 1] == Attribute("displayName", ev.id);
    assert config.cloudClusterID != "" ==>
             ev.attributes[n + 2] == Attribute("cloud.resource_id", config.cloudClusterID);
    assert forall i :: 0 <= i < n ==> ev.attributes[i].name == "nrFiltered";
  }
}
