/** What a population run does, written out over the configuration: which entities exist and
    under which identity, which metrics they get, and which errors are reported
    (src/populator/populator.go). */
module PopulationOutcomes {
  import opened RawData
  import opened Text
  import opened Narrowing
  import opened SplitGroup
  import opened Population
  import opened PopulationRuns

  // ---- which entities exist -----------------------------------------

  /** The raw entity is not filtered out: its namespace, where there is a getter for it, is
      allowed; namespaces themselves always pass. */
  predicate Admitted(config: Config, group: string, raw: string) {
    && group in config.specs && group in config.groups && raw in config.groups[group]
    && var getter := config.specs[group].namespaceGetter;
       config.filter.Some? && getter.Some? && group != "namespace" ==>
         config.filter.value(getter.value(config.groups[group][raw]))
  }

  /** The list a group is split by has a series with the label value. */
  predicate Occurs(sg: SpecGroup, group: string, ms: RawMetrics, value: string) {
    var slice := if sg.sliceMetricName == "" then group else sg.sliceMetricName;
    && slice in ms && ms[slice].Series?
    && exists i :: 0 <= i < |ms[slice].metrics| && sg.splitByLabel in ms[slice].metrics[i].labels &&
                   ms[slice].metrics[i].labels[sg.splitByLabel] == value
  }

  lemma PassesIff(config: Config, group: string, raw: string)
    ensures Passes(config, group, raw) <==> Admitted(config, group, raw)
  {
  }

  lemma PartIff(sg: SpecGroup, group: string, ms: RawMetrics, r: string)
    requires sg.splitByLabel != "" && SliceName(sg, group) in ms && ms[SliceName(sg, group)].Series?
    ensures Part(ms, SliceName(sg, group), sg.splitByLabel, r, ms[SliceName(sg, group)].metrics).Some? <==>
            Occurs(sg, group, ms, r)
  {
    var slice := if sg.sliceMetricName == "" then group else sg.sliceMetricName;
    assert slice == SliceName(sg, group);
    var series := ms[slice].metrics;
    SeriesWithNonempty(sg.splitByLabel, r, series);
    if i :| 0 <= i < |series| && Carries(series[i], sg.splitByLabel, r) {
      assert 0 <= i < |ms[slice].metrics| && sg.splitByLabel in ms[slice].metrics[i].labels;
      assert ms[slice].metrics[i].labels[sg.splitByLabel] == r;
      assert Occurs(sg, group, ms, r);
    } else {
      assert forall i :: 0 <= i < |series| ==> !Carries(series[i], sg.splitByLabel, r);
    }
  }

  /** The identity of a unit: the type the generator gives for the raw entity, empty without one;
      the ID the generator gives, the raw ID without one, and for a part the raw ID with the
      label value. */
  ghost predicate HasIdentity(config: Config, group: string, raw: string, id: string, kind: string)
    requires group in config.specs && group in config.groups && raw in config.groups[group]
  {
    var sg := config.specs[group];
    && (if sg.typeGenerator.Some?
        then sg.typeGenerator.value(group, raw, config.groups, config.clusterName) == Ok(kind)
        else kind == "")
    && (if sg.splitByLabel != "" then exists r :: id == raw + "_" + r && Occurs(sg, group, config.groups[group][raw], r)
        else if sg.idGenerator.Some? then sg.idGenerator.value(group, raw, config.groups) == Ok(id)
        else id == raw)
  }

  lemma UnitIff(config: Config, group: string, raw: string, id: string, kind: string)
    requires Present(config, group, raw)
    ensures (exists u :: IsUnit(config, group, raw, u) && u.id == id && u.kind == kind) <==>
            HasIdentity(config, group, raw, id, kind)
  {
    var sg, ms := config.specs[group], config.groups[group][raw];
    var slice := SliceName(sg, group);
    if u :| IsUnit(config, group, raw, u) && u.id == id && u.kind == kind {
      if sg.splitByLabel != "" {
        var r :| u.id == Joined(raw, r) && Part(ms, slice, sg.splitByLabel, r, ms[slice].metrics) == Some(u.metrics);
        PartIff(sg, group, ms, r);
        assert id == raw + "_" + r;
      }
    }
    if HasIdentity(config, group, raw, id, kind) {
      if sg.splitByLabel != "" {
        var r :| id == raw + "_" + r && Occurs(sg, group, ms, r);
        PartIff(sg, group, ms, r);
        var part := Part(ms, slice, sg.splitByLabel, r, ms[slice].metrics).value;
        assert id == Joined(raw, r);
        assert IsUnit(config, group, raw, Unit(raw, id, kind, part));
      } else {
        assert IsUnit(config, group, raw, Unit(raw, id, kind, ms));
      }
    }
  }

  ghost predicate CreatedAs(events: seq<Event>, group: string, raw: string, id: string, kind: string) {
    exists ev :: ev in events && ev.Created? && ev.group == group && ev.raw == raw && ev.id == id && ev.kind == kind
  }

  lemma CreatedHasIdentity(config: Config, events: seq<Event>, ev: Event)
    requires ExactEvents(config, events) && ev in events && ev.Created?
    ensures Admitted(config, ev.group, ev.raw) && HasIdentity(config, ev.group, ev.raw, ev.id, ev.kind)
    ensures config.sdk.accepts(ev.id, ev.kind)
  {
    PassesIff(config, ev.group, ev.raw);
    assert ev in multiset(events);
    assert Due(config, ev);
    var u :| IsUnit(config, ev.group, ev.raw, u) && Accepted(config, u) &&
             ev == Creation(config, ev.group, FilterAttributes(config, ev.group, ev.raw), u);
    UnitIff(config, ev.group, ev.raw, ev.id, ev.kind);
  }

  lemma IdentityIsCreated(config: Config, events: seq<Event>, group: string, raw: string, id: string, kind: string)
    requires ExactEvents(config, events) && Admitted(config, group, raw)
    requires HasIdentity(config, group, raw, id, kind) && config.sdk.accepts(id, kind)
    ensures CreatedAs(events, group, raw, id, kind)
  {
    PassesIff(config, group, raw);
    UnitIff(config, group, raw, id, kind);
    var u :| IsUnit(config, group, raw, u) && u.id == id && u.kind == kind;
    var ev := Creation(config, group, FilterAttributes(config, group, raw), u);
    assert Due(config, ev);
    assert multiset(events)[ev] == 1;
    assert ev in events;
  }

  /** In every run, an entity is created under an ID and a type exactly if its raw entity is
      admitted, the configured generators give that identity, and the SDK accepts it. */
  lemma CreatedIff(config: Config, order: seq<RawEntity>, t: Trace, group: string, raw: string, id: string,
                   kind: string)
    requires RunTrace(config, order, t) && Visits(config, order)
    ensures CreatedAs(t.events, group, raw, id, kind) <==>
            && Admitted(config, group, raw)
            && HasIdentity(config, group, raw, id, kind)
            && config.sdk.accepts(id, kind)
  {
    RunExact(config, order, t);
    if ev :| ev in t.events && ev.Created? && ev.group == group && ev.raw == raw && ev.id == id && ev.kind == kind {
      CreatedHasIdentity(config, t.events, ev);
    }
    if Admitted(config, group, raw) && HasIdentity(config, group, raw, id, kind) && config.sdk.accepts(id, kind) {
      IdentityIsCreated(config, t.events, group, raw, id, kind);
    }
  }

  /** Groups that are not split: every created entity has the ID and the type its generators give,
      the raw ID and no type where there is none. */
  lemma CreatedIdentity(config: Config, order: seq<RawEntity>, t: Trace, ev: Event)
    requires RunTrace(config, order, t) && Visits(config, order) && ev in t.events && ev.Created?
    ensures Admitted(config, ev.group, ev.raw)
    ensures var sg := config.specs[ev.group];
            && (sg.splitByLabel == "" && sg.idGenerator.Some? ==>
                  sg.idGenerator.value(ev.group, ev.raw, config.groups) == Ok(ev.id))
            && (sg.splitByLabel == "" && sg.idGenerator.None? ==> ev.id == ev.raw)
            && (sg.typeGenerator.Some? ==>
                  sg.typeGenerator.value(ev.group, ev.raw, config.groups, config.clusterName) == Ok(ev.kind))
            && (sg.typeGenerator.None? ==> ev.kind == "")
  {
    assert CreatedAs(t.events, ev.group, ev.raw, ev.id, ev.kind);
    CreatedIff(config, order, t, ev.group, ev.raw, ev.id, ev.kind);
  }

  // ---- which metrics are set ----------------------------------------

  /** What a spec fetches for a unit: its value function sees the unit alone in its group, and
      the other groups whole. */
  function FetchOf(config: Config, group: string, u: Unit, spec: Spec): Result<Fetched> {
    spec.valueFunc(group, u.originalId, config.groups[group := map[u.originalId := u.metrics]])
  }

  /** The value the spec offers to the SDK under a name: a scalar under its own name, each value
      of a bundle under its key, nothing for nil or an error. */
  ghost predicate Offers(config: Config, group: string, u: Unit, spec: Spec, name: string, leaf: Leaf) {
    match FetchOf(config, group, u, spec)
    case Ok(Scalar(x)) => x != Nil && name == spec.name && leaf == x
    case Ok(Bundle(values)) => name in values && values[name] == leaf
    case Err(_) => false
  }

  ghost predicate Refuses(config: Config, group: string, u: Unit, spec: Spec, name: string) {
    exists leaf :: Offers(config, group, u, spec, name, leaf) && !config.sdk.settable(name, leaf, spec.kind)
  }

  /** The unit belongs to an admitted raw entity, its entity is created and gets a metric set. */
  ghost predicate Processed(config: Config, group: string, raw: string, u: Unit) {
    && Admitted(config, group, raw) && IsUnit(config, group, raw, u) && config.sdk.accepts(u.id, u.kind)
    && (var custom := config.specs[group].guesser;
        if custom.Some? then custom.value(group).Ok? else config.guesser(group).Ok?)
  }

  lemma FetchIs(config: Config, group: string, u: Unit, spec: Spec)
    ensures FetchedBy(config, group, u, spec) == FetchOf(config, group, u, spec)
  {
  }

  lemma OffersIff(config: Config, group: string, u: Unit, spec: Spec, name: string, leaf: Leaf)
    ensures Offers(config, group, u, spec, name, leaf) <==>
            var v := FetchedBy(config, group, u, spec);
            v.Ok? && v.value != Scalar(Nil) && name in Pairs(spec, v.value) && Pairs(spec, v.value)[name] == leaf
  {
    FetchIs(config, group, u, spec);
  }

  ghost predicate SetOn(events: seq<Event>, group: string, u: Unit, name: string, leaf: Leaf) {
    MetricSet(group, u.originalId, u.id, u.kind, name, leaf) in events
  }

  /** In every run, a metric is set on an entity only if a spec of one of its units offers that
      very value under that name and the SDK accepts it; and it is set if the SDK refuses none of
      the values of the spec. */
  lemma MetricsExact(config: Config, order: seq<RawEntity>, t: Trace, group: string, raw: string, id: string,
                     kind: string, name: string, leaf: Leaf)
    requires RunTrace(config, order, t) && Visits(config, order)
    ensures MetricSet(group, raw, id, kind, name, leaf) in t.events ==>
              exists u, spec :: Processed(config, group, raw, u) && u.id == id && u.kind == kind &&
                                spec in config.specs[group].specs && Offers(config, group, u, spec, name, leaf) &&
                                config.sdk.settable(name, leaf, spec.kind)
    ensures (exists u, spec :: Processed(config, group, raw, u) && u.id == id && u.kind == kind &&
                               spec in config.specs[group].specs && Offers(config, group, u, spec, name, leaf) &&
                               (forall n :: !Refuses(config, group, u, spec, n))) ==>
              MetricSet(group, raw, id, kind, name, leaf) in t.events
  {
    RunExact(config, order, t);
    PassesIff(config, group, raw);
    var ev := MetricSet(group, raw, id, kind, name, leaf);
    if ev in t.events {
      var u :| IsUnit(config, group, raw, u) && UnitSets(config, group, u, ev);
      var specs := config.specs[group].specs;
      var j :| 0 <= j < |specs| && SetBy(config, group, u, specs[j], ev);
      OffersIff(config, group, u, specs[j], name, leaf);
      assert Processed(config, group, raw, u) && specs[j] in specs;
    }
    if u, spec :| Processed(config, group, raw, u) && u.id == id && u.kind == kind &&
                  spec in config.specs[group].specs && Offers(config, group, u, spec, name, leaf) &&
                  (forall n :: !Refuses(config, group, u, spec, n)) {
      MustSet(config, group, raw, u, spec, name, leaf);
    }
  }

  lemma MustSet(config: Config, group: string, raw: string, u: Unit, spec: Spec, name: string, leaf: Leaf)
    requires Processed(config, group, raw, u) && spec in config.specs[group].specs
    requires Offers(config, group, u, spec, name, leaf) && forall n :: !Refuses(config, group, u, spec, n)
    ensures MustBeSet(config, MetricSet(group, raw, u.id, u.kind, name, leaf))
  {
    var specs := config.specs[group].specs;
    var j :| 0 <= j < |specs| && specs[j] == spec;
    var ev := MetricSet(group, raw, u.id, u.kind, name, leaf);
    OffersIff(config, group, u, spec, name, leaf);
    AllAccepted(config, group, u, spec);
    PassesIff(config, group, raw);
    assert !Refuses(config, group, u, spec, name);
    assert SetBy(config, group, u, specs[j], ev);
    assert SpecPopulates(config, group, u, specs[j]);
    assert UnitMustSet(config, group, u, ev);
  }

  lemma AllAccepted(config: Config, group: string, u: Unit, spec: Spec)
    ensures SpecPopulates(config, group, u, spec) <==>
            && (exists n, leaf :: Offers(config, group, u, spec, n, leaf))
            && forall n :: !Refuses(config, group, u, spec, n)
  {
    var v := FetchedBy(config, group, u, spec);
    FetchIs(config, group, u, spec);
    if v.Ok? && v.value != Scalar(Nil) {
      var values := Pairs(spec, v.value);
      forall n, leaf ensures Offers(config, group, u, spec, n, leaf) <==> n in values && values[n] == leaf {
        OffersIff(config, group, u, spec, n, leaf);
      }
      if values != map[] {
        var k :| k in values;
        assert Offers(config, group, u, spec, k, values[k]);
      }
      if forall n :: !Refuses(config, group, u, spec, n) {
        forall k | k in values ensures Settable(config, spec, k, values[k]) {
          assert Offers(config, group, u, spec, k, values[k]) && !Refuses(config, group, u, spec, k);
        }
      }
      if FullySet(config, spec, v.value) {
        forall n ensures !Refuses(config, group, u, spec, n) {
        }
      }
    }
  }

  /** The spec offers something for the unit, and none of it is refused. */
  ghost predicate SetsAll(config: Config, group: string, u: Unit, spec: Spec) {
    (exists n, leaf :: Offers(config, group, u, spec, n, leaf)) && forall n :: !Refuses(config, group, u, spec, n)
  }

  ghost predicate UnitSetsAll(config: Config, group: string, raw: string, u: Unit) {
    && Processed(config, group, raw, u)
    && exists spec :: spec in config.specs[group].specs && SetsAll(config, group, u, spec)
  }

  lemma UnitPopulatesIff(config: Config, group: string, raw: string, u: Unit)
    requires Admitted(config, group, raw) && IsUnit(config, group, raw, u)
    ensures UnitPopulates(config, group, u) <==> UnitSetsAll(config, group, raw, u)
  {
    var specs := config.specs[group].specs;
    forall spec ensures SpecPopulates(config, group, u, spec) <==> SetsAll(config, group, u, spec) {
      AllAccepted(config, group, u, spec);
    }
    if UnitPopulates(config, group, u) {
      var j :| 0 <= j < |specs| && SpecPopulates(config, group, u, specs[j]);
      assert specs[j] in specs && SetsAll(config, group, u, specs[j]);
    }
  }

  /** The cluster sample is attempted, and the run reports success, exactly if some spec of some
      unit offered something and none of it was refused. */
  lemma PopulatedIff(config: Config, order: seq<RawEntity>, t: Trace)
    requires RunTrace(config, order, t) && Visits(config, order)
    ensures t.populated <==> exists group, raw, u :: UnitSetsAll(config, group, raw, u)
  {
    RunPopulates(config, order, t);
    if t.populated {
      var e :| Populates(config, e);
      var u :| IsUnit(config, e.0, e.1, u) && UnitPopulates(config, e.0, u);
      PassesIff(config, e.0, e.1);
      UnitPopulatesIff(config, e.0, e.1, u);
    }
    if group, raw, u :| UnitSetsAll(config, group, raw, u) {
      PassesIff(config, group, raw);
      UnitPopulatesIff(config, group, raw, u);
      assert Populates(config, (group, raw));
    }
  }

  // ---- which errors are reported ------------------------------------

  lemma {:induction false} FlatErrors(parts: seq<Trace>, e: Error)
    ensures e in Flat(parts).errs <==> exists j :: 0 <= j < |parts| && e in parts[j].errs
  {
    if parts != [] {
      var front := parts[..|parts| - 1];
      FlatErrors(front, e);
      assert forall j :: 0 <= j < |front| ==> front[j] == parts[j];
    }
  }

  /** A spec that is not optional may report a failed fetch, or a value that is refused. */
  ghost predicate SpecMayReport(config: Config, group: string, u: Unit, spec: Spec, e: Error) {
    && !spec.optional
    && (|| (FetchOf(config, group, u, spec).Err? && e == FetchFailed(spec.name))
        || exists n :: Refuses(config, group, u, spec, n) && e == SetMetricFailed(n))
  }

  /** ... and it has to report a failed fetch, and a refused value that is the only one. */
  ghost predicate SpecMustReport(config: Config, group: string, u: Unit, spec: Spec, e: Error) {
    && !spec.optional
    && (|| (FetchOf(config, group, u, spec).Err? && e == FetchFailed(spec.name))
        || exists n :: Refuses(config, group, u, spec, n) && e == SetMetricFailed(n) &&
                       forall m :: Refuses(config, group, u, spec, m) ==> m == n)
  }

  lemma SpecErrors(config: Config, group: string, u: Unit, spec: Spec, t: Trace, e: Error)
    requires SpecTrace(config, group, u, spec, t)
    ensures e in t.errs ==> SpecMayReport(config, group, u, spec, e)
    ensures SpecMustReport(config, group, u, spec, e) ==> e in t.errs
    ensures (exists n :: Refuses(config, group, u, spec, n)) && !spec.optional ==> t.errs != []
  {
    FetchIs(config, group, u, spec);
    var v := FetchedBy(config, group, u, spec);
    if v.Ok? && v.value != Scalar(Nil) {
      var values := Pairs(spec, v.value);
      var keys, refused :| Attempt(config, spec, values, keys, refused) &&
                           t == Trace(SetEvents(group, u, values, keys), RefusalErrors(spec, refused),
                                      FullySet(config, spec, v.value));
      RefusedIsRefuses(config, group, u, spec, keys, refused);
    }
  }

  /** What stops an attempt is a refused value, and nothing does only if there is none. */
  lemma RefusedIsRefuses(config: Config, group: string, u: Unit, spec: Spec, keys: seq<string>, refused: Option<string>)
    requires var v := FetchedBy(config, group, u, spec);
             v.Ok? && v.value != Scalar(Nil) && Attempt(config, spec, Pairs(spec, v.value), keys, refused)
    ensures refused.Some? ==> Refuses(config, group, u, spec, refused.value)
    ensures refused.None? ==> forall n :: !Refuses(config, group, u, spec, n)
  {
    var values := Pairs(spec, FetchedBy(config, group, u, spec).value);
    if refused.Some? {
      OffersIff(config, group, u, spec, refused.value, values[refused.value]);
    } else {
      forall n, leaf | Offers(config, group, u, spec, n, leaf) ensures config.sdk.settable(n, leaf, spec.kind) {
        OffersIff(config, group, u, spec, n, leaf);
      }
    }
  }

  lemma SpecsErrors(config: Config, group: string, u: Unit, specs: seq<Spec>, t: Trace, e: Error)
    requires SpecsTrace(config, group, u, specs, t)
    ensures e in t.errs ==> exists spec :: spec in specs && SpecMayReport(config, group, u, spec, e)
    ensures (exists spec :: spec in specs && SpecMustReport(config, group, u, spec, e)) ==> e in t.errs
  {
    var parts: seq<Trace> :| SpecParts(config, group, u, specs, parts) && |parts| == |specs| && t == Flat(parts);
    FlatErrors(parts, e);
    forall j | 0 <= j < |parts|
      ensures e in parts[j].errs ==> SpecMayReport(config, group, u, specs[j], e)
      ensures SpecMustReport(config, group, u, specs[j], e) ==> e in parts[j].errs
    {
      SpecErrors(config, group, u, specs[j], parts[j], e);
    }
    if e in t.errs {
      var j :| 0 <= j < |parts| && e in parts[j].errs;
      assert specs[j] in specs;
    }
  }

  /** The error of the guesser for the group, its own before the general one. */
  function GuessError(config: Config, group: string): Option<Error>
    requires group in config.specs
  {
    var custom := config.specs[group].guesser;
    var guess := if custom.Some? then custom.value(group) else config.guesser(group);
    if guess.Err? then Some(guess.error) else None
  }

  /** A unit reports that the SDK refused it, that there is no sample type, or what its specs do. */
  ghost predicate UnitMayReport(config: Config, group: string, u: Unit, e: Error)
    requires group in config.specs
  {
    if !config.sdk.accepts(u.id, u.kind) then e == SdkRefused("entity")
    else if GuessError(config, group).Some? then e == GuessError(config, group).value
    else exists spec :: spec in config.specs[group].specs && SpecMayReport(config, group, u, spec, e)
  }

  ghost predicate UnitMustReport(config: Config, group: string, u: Unit, e: Error)
    requires group in config.specs
  {
    if !config.sdk.accepts(u.id, u.kind) then e == SdkRefused("entity")
    else if GuessError(config, group).Some? then e == GuessError(config, group).value
    else exists spec :: spec in config.specs[group].specs && SpecMustReport(config, group, u, spec, e)
  }

  lemma UnitErrors(config: Config, group: string, extra: seq<Attribute>, u: Unit, t: Trace, e: Error)
    requires group in config.specs && UnitTrace(config, group, extra, u, t)
    ensures e in t.errs ==> UnitMayReport(config, group, u, e)
    ensures UnitMustReport(config, group, u, e) ==> e in t.errs
  {
    if Ready(config, group, u) {
      var specs := config.specs[group].specs;
      var sets :| SpecsTrace(config, group, u, specs, sets) &&
                  t == Trace([Creation(config, group, extra, u)], [], false).Then(sets);
      SpecsErrors(config, group, u, specs, sets, e);
      assert t.errs == sets.errs;
    }
  }

  lemma UnitsErrors(config: Config, group: string, extra: seq<Attribute>, units: seq<Unit>, t: Trace, e: Error)
    requires group in config.specs && UnitsTrace(config, group, extra, units, t)
    ensures e in t.errs ==> exists u :: u in units && UnitMayReport(config, group, u, e)
    ensures (exists u :: u in units && UnitMustReport(config, group, u, e)) ==> e in t.errs
  {
    var parts: seq<Trace> :| UnitParts(config, group, extra, units, parts) && |parts| == |units| && t == Flat(parts);
    FlatErrors(parts, e);
    forall j | 0 <= j < |parts|
      ensures e in parts[j].errs ==> UnitMayReport(config, group, units[j], e)
      ensures UnitMustReport(config, group, units[j], e) ==> e in parts[j].errs
    {
      UnitErrors(config, group, extra, units[j], parts[j], e);
    }
    if e in t.errs {
      var j :| 0 <= j < |parts| && e in parts[j].errs;
      assert units[j] in units;
    }
  }

  /** Why an admitted raw entity has no units: there is no list to split, or a generator fails. */
  function Unprepared(config: Config, group: string, raw: string): Option<Error>
    requires group in config.specs && group in config.groups && raw in config.groups[group]
  {
    var sg, ms := config.specs[group], config.groups[group][raw];
    var slice := if sg.sliceMetricName == "" then group else sg.sliceMetricName;
    if sg.splitByLabel != "" && (slice !in ms || !ms[slice].Series?) then Some(NotASlice(group))
    else if sg.splitByLabel == "" && sg.idGenerator.Some? && sg.idGenerator.value(group, raw, config.groups).Err?
    then Some(GenerateId(raw))
    else if sg.typeGenerator.Some? && sg.typeGenerator.value(group, raw, config.groups, config.clusterName).Err?
    then Some(GenerateType(raw))
    else None
  }

  lemma UnitErrorIs(config: Config, group: string, raw: string)
    requires Present(config, group, raw)
    ensures UnitError(config, group, raw) == Unprepared(config, group, raw)
  {
  }

  ghost predicate EntityMayReport(config: Config, group: string, raw: string, e: Error) {
    && Admitted(config, group, raw)
    && if Unprepared(config, group, raw).Some? then e == Unprepared(config, group, raw).value
       else exists u :: IsUnit(config, group, raw, u) && UnitMayReport(config, group, u, e)
  }

  ghost predicate EntityMustReport(config: Config, group: string, raw: string, e: Error) {
    && Admitted(config, group, raw)
    && if Unprepared(config, group, raw).Some? then e == Unprepared(config, group, raw).value
       else exists u :: IsUnit(config, group, raw, u) && UnitMustReport(config, group, u, e)
  }

  lemma EntityErrors(config: Config, r: RawEntity, t: Trace, e: Error)
    requires EntityTrace(config, r, t)
    ensures e in t.errs ==> EntityMayReport(config, r.0, r.1, e)
    ensures EntityMustReport(config, r.0, r.1, e) ==> e in t.errs
  {
    PassesIff(config, r.0, r.1);
    if Passes(config, r.0, r.1) {
      UnitErrorIs(config, r.0, r.1);
      if UnitError(config, r.0, r.1).None? {
        var extra := FilterAttributes(config, r.0, r.1);
        var units :| Lists(config, r.0, r.1, units) && UnitsTrace(config, r.0, extra, units, t);
        UnitsErrors(config, r.0, extra, units, t, e);
        assert forall u :: u in units <==> IsUnit(config, r.0, r.1, u);
      }
    }
  }

  /** In every run, an error is reported only for a reason, and every reason that does not depend
      on the order in which the values of a bundle are offered is reported. */
  lemma ErrorsExact(config: Config, order: seq<RawEntity>, t: Trace, e: Error)
    requires RunTrace(config, order, t) && Visits(config, order)
    ensures e in t.errs ==> exists group, raw :: EntityMayReport(config, group, raw, e)
    ensures (exists group, raw :: EntityMustReport(config, group, raw, e)) ==> e in t.errs
  {
    var parts: seq<Trace> :| EntityParts(config, order, parts) && t == Flat(parts);
    FlatErrors(parts, e);
    forall j | 0 <= j < |parts|
      ensures e in parts[j].errs ==> EntityMayReport(config, order[j].0, order[j].1, e)
      ensures EntityMustReport(config, order[j].0, order[j].1, e) ==> e in parts[j].errs
    {
      EntityErrors(config, order[j], parts[j], e);
    }
    if group, raw :| EntityMustReport(config, group, raw, e) {
      assert (group, raw) in order;
      var j :| 0 <= j < |order| && order[j] == (group, raw);
    }
  }

  /** A failing generator, or a list that is missing, keeps the entity from being created under
      any identity, and its error is reported. */
  lemma UnpreparedIsReported(config: Config, order: seq<RawEntity>, t: Trace, group: string, raw: string)
    requires RunTrace(config, order, t) && Visits(config, order)
    requires Admitted(config, group, raw) && Unprepared(config, group, raw).Some?
    ensures Unprepared(config, group, raw).value in t.errs
    ensures forall id, kind :: !CreatedAs(t.events, group, raw, id, kind)
  {
    var e := Unprepared(config, group, raw).value;
    assert EntityMustReport(config, group, raw, e);
    ErrorsExact(config, order, t, e);
    forall id, kind ensures !CreatedAs(t.events, group, raw, id, kind) {
      CreatedIff(config, order, t, group, raw, id, kind);
    }
  }

  /** A spec of a processed unit that is not optional fails to fetch. */
  ghost predicate FailsToFetch(config: Config, name: string) {
    exists group, raw, u, spec :: Processed(config, group, raw, u) && spec in config.specs[group].specs &&
                                  spec.name == name && !spec.optional && FetchOf(config, group, u, spec).Err?
  }

  /** A failed fetch is reported exactly if it is one of a spec that is not optional, of an entity
      that was created; unless a guesser itself returns such an error. */
  lemma FetchFailuresIff(config: Config, order: seq<RawEntity>, t: Trace, name: string)
    requires RunTrace(config, order, t) && Visits(config, order)
    ensures FetchFailed(name) in t.errs ==>
              FailsToFetch(config, name) ||
              exists l :: l in config.specs && GuessError(config, l) == Some(FetchFailed(name))
    ensures FailsToFetch(config, name) ==> FetchFailed(name) in t.errs
  {
    var e := FetchFailed(name);
    ErrorsExact(config, order, t, e);
    if e in t.errs {
      var group, raw :| EntityMayReport(config, group, raw, e);
      ReportedFetch(config, group, raw, name);
    }
    if FailsToFetch(config, name) {
      var group, raw, u, spec :| Processed(config, group, raw, u) && spec in config.specs[group].specs &&
                                 spec.name == name && !spec.optional && FetchOf(config, group, u, spec).Err?;
      FetchMustBeReported(config, group, raw, u, spec);
    }
  }

  lemma ReportedFetch(config: Config, group: string, raw: string, name: string)
    requires EntityMayReport(config, group, raw, FetchFailed(name))
    ensures FailsToFetch(config, name) || GuessError(config, group) == Some(FetchFailed(name))
  {
    var e := FetchFailed(name);
    var u :| IsUnit(config, group, raw, u) && UnitMayReport(config, group, u, e);
    if GuessError(config, group).None? {
      var spec :| spec in config.specs[group].specs && SpecMayReport(config, group, u, spec, e);
      assert Processed(config, group, raw, u);
    }
  }

  lemma FetchMustBeReported(config: Config, group: string, raw: string, u: Unit, spec: Spec)
    requires Processed(config, group, raw, u) && spec in config.specs[group].specs
    requires !spec.optional && FetchOf(config, group, u, spec).Err?
    ensures EntityMustReport(config, group, raw, FetchFailed(spec.name))
  {
    var e := FetchFailed(spec.name);
    assert SpecMustReport(config, group, u, spec, e);
    assert UnitMustReport(config, group, u, e);
    HasUnits(config, group, raw, u);
  }

  lemma HasUnits(config: Config, group: string, raw: string, u: Unit)
    requires IsUnit(config, group, raw, u)
    ensures Unprepared(config, group, raw).None?
  {
  }
}
