/** What IntegrationPopulator may do with the groups: which entities pass the filter, which
    units they have, and the events and errors that processing them leaves behind, up to the
    order in which maps are ranged over (src/populator/populator.go). The SDK is an event log
    plus the answers it gives. */
module Population {
  import opened RawData
  import opened Text
  import opened Narrowing
  import opened SplitGroup

  datatype Spec = Spec(
    name: string,
    valueFunc: (string, string, RawGroups) -> Result<Fetched>,
    kind: int,
    optional: bool)

  datatype SpecGroup = SpecGroup(
    idGenerator: Option<(string, string, RawGroups) -> Result<string>>,
    typeGenerator: Option<(string, string, RawGroups, string) -> Result<string>>,
    namespaceGetter: Option<RawMetrics -> string>,
    guesser: Option<string -> Result<string>>,
    specs: seq<Spec>,
    splitByLabel: string,
    sliceMetricName: string)

  /** Whether the SDK accepts an entity, and a metric value. */
  datatype Sdk = Sdk(accepts: (string, string) -> bool, settable: (string, Leaf, int) -> bool)

  datatype Config = Config(
    clusterName: string,
    cloudClusterID: string,
    guesser: string -> Result<string>,
    groups: RawGroups,
    specs: map<string, SpecGroup>,
    filter: Option<string -> bool>,
    sdk: Sdk)

  datatype Attribute = Attribute(name: string, value: string)

  datatype Unit = Unit(originalId: string, id: string, kind: string, metrics: RawMetrics)

  /** What is done to the integration. */
  datatype Event =
    | Created(group: string, raw: string, id: string, kind: string, attributes: seq<Attribute>)
    | MetricSet(group: string, raw: string, id: string, kind: string, name: string, leaf: Leaf)
    | ClusterSample

  // ---- filtering by namespace ---------------------------------------

  /** An entity is considered if its group has a spec and it is in the groups. */
  predicate Present(config: Config, group: string, raw: string) {
    group in config.specs && raw in EntitiesOf(config.groups, group)
  }

  /** The verdict on the entity's namespace; None when nothing is filtered. */
  function Verdict(config: Config, group: string, raw: string): Option<bool>
    requires Present(config, group, raw)
  {
    var getter := config.specs[group].namespaceGetter;
    if config.filter.None? || getter.None? then None
    else Some(config.filter.value(getter.value(config.groups[group][raw])))
  }

  /** filterGroup lets the entity through. */
  predicate Passes(config: Config, group: string, raw: string) {
    Present(config, group, raw) && (group == "namespace" || Verdict(config, group, raw) != Some(false))
  }

  function FilterAttributes(config: Config, group: string, raw: string): seq<Attribute>
    requires Present(config, group, raw)
  {
    var v := Verdict(config, group, raw);
    if group == "namespace" && v.Some? then [Attribute("nrFiltered", if v.value then "false" else "true")] else []
  }

  // ---- processing units ---------------------------------------------

  function SliceName(sg: SpecGroup, group: string): string {
    if sg.sliceMetricName == "" then group else sg.sliceMetricName
  }

  /** The entity type; without a generator it is empty. */
  function TypeOf(config: Config, group: string, raw: string): Result<string>
    requires group in config.specs
  {
    var generator := config.specs[group].typeGenerator;
    if generator.None? then Ok("") else generator.value(group, raw, config.groups, config.clusterName)
  }

  function IdOf(config: Config, group: string, raw: string): Result<string>
    requires group in config.specs
  {
    var generator := config.specs[group].idGenerator;
    if generator.None? then Ok(raw) else generator.value(group, raw, config.groups)
  }

  /** u is one of the entities to create for the raw entity. */
  ghost predicate IsUnit(config: Config, group: string, raw: string, u: Unit) {
    && Present(config, group, raw) && u.originalId == raw
    && TypeOf(config, group, raw) == Ok(u.kind)
    && var sg, ms := config.specs[group], config.groups[group][raw];
       if sg.splitByLabel == "" then IdOf(config, group, raw) == Ok(u.id) && u.metrics == ms
       else
         var slice := SliceName(sg, group);
         && slice in ms && ms[slice].Series?
         && exists r :: u.id == Joined(raw, r) &&
                        Part(ms, slice, sg.splitByLabel, r, ms[slice].metrics) == Some(u.metrics)
  }

  ghost predicate DistinctIds(units: seq<Unit>) {
    forall i, j :: 0 <= i < j < |units| ==> units[i].id != units[j].id
  }

  /** The units of a raw entity, each once, under different IDs. */
  ghost predicate Lists(config: Config, group: string, raw: string, units: seq<Unit>) {
    (forall u :: u in units <==> IsUnit(config, group, raw, u)) && DistinctIds(units)
  }

  /** Why a raw entity has no units. */
  function UnitError(config: Config, group: string, raw: string): Option<Error>
    requires Present(config, group, raw)
  {
    var sg, ms := config.specs[group], config.groups[group][raw];
    var slice := SliceName(sg, group);
    if sg.splitByLabel != "" && !(slice in ms && ms[slice].Series?) then Some(NotASlice(group))
    else if sg.splitByLabel == "" && IdOf(config, group, raw).Err? then Some(GenerateId(raw))
    else if TypeOf(config, group, raw).Err? then Some(GenerateType(raw))
    else None
  }

  /** A split group needs a type generator; the program calls it unchecked. */
  predicate Runnable(config: Config) {
    forall l :: l in config.specs && config.specs[l].splitByLabel != "" ==> config.specs[l].typeGenerator.Some?
  }

  // ---- one spec -----------------------------------------------------

  /** What was done to the integration, the errors reported, and whether some value was set
      in full. */
  datatype Trace = Trace(events: seq<Event>, errs: seq<Error>, populated: bool) {
    function Then(t: Trace): Trace { Trace(events + t.events, errs + t.errs, populated || t.populated) }
  }

  const NOTHING := Trace([], [], false)

  /** Traces one after the other. */
  function Flat(parts: seq<Trace>): Trace {
    if parts == [] then NOTHING else Flat(parts[..|parts| - 1]).Then(parts[|parts| - 1])
  }

  predicate Settable(config: Config, spec: Spec, name: string, leaf: Leaf) {
    config.sdk.settable(name, leaf, spec.kind)
  }

  /** The named values of a fetched value; a scalar has the spec's name. */
  function Pairs(spec: Spec, value: Fetched): map<string, Leaf> {
    match value
    case Scalar(leaf) => map[spec.name := leaf]
    case Bundle(values) => values
  }

  /** populateValue succeeds: there are values, and the SDK accepts them all. */
  predicate FullySet(config: Config, spec: Spec, value: Fetched) {
    var values := Pairs(spec, value);
    values != map[] && forall k :: k in values ==> Settable(config, spec, k, values[k])
  }

  ghost predicate Distinct(keys: seq<string>) {
    forall i, j :: 0 <= i < j < |keys| ==> keys[i] != keys[j]
  }

  /** Values are offered to the SDK in the order of keys, until one is refused. */
  ghost predicate Attempt(config: Config, spec: Spec, values: map<string, Leaf>, keys: seq<string>,
                          refused: Option<string>) {
    && (forall k :: k in keys ==> k in values && Settable(config, spec, k, values[k]))
    && Distinct(keys)
    && (refused.None? ==> forall k :: k in values ==> k in keys)
    && (refused.Some? ==> refused.value in values && !Settable(config, spec, refused.value, values[refused.value]))
  }

  function MetricEvent(group: string, u: Unit, name: string, leaf: Leaf): Event {
    MetricSet(group, u.originalId, u.id, u.kind, name, leaf)
  }

  function SetEvents(group: string, u: Unit, values: map<string, Leaf>, keys: seq<string>): seq<Event>
    requires forall k :: k in keys ==> k in values
  {
    if keys == [] then [] else
      var last := keys[|keys| - 1];
      SetEvents(group, u, values, keys[..|keys| - 1]) + [MetricEvent(group, u, last, values[last])]
  }

  function RefusalErrors(spec: Spec, refused: Option<string>): seq<Error> {
    if refused.Some? && !spec.optional then [SetMetricFailed(refused.value)] else []
  }

  /** The fetched value of one spec, on the groups narrowed to the unit. */
  function FetchedBy(config: Config, group: string, u: Unit, spec: Spec): Result<Fetched> {
    spec.valueFunc(group, u.originalId, Narrow(config.groups, group, u.originalId, u.metrics))
  }

  /** One spec: a failed fetch is an error unless optional, nil is nothing, and the values of
      anything else are offered to the SDK. */
  ghost predicate SpecTrace(config: Config, group: string, u: Unit, spec: Spec, t: Trace) {
    var v := FetchedBy(config, group, u, spec);
    if v.Err? then t == Trace([], if spec.optional then [] else [FetchFailed(spec.name)], false)
    else if v.value == Scalar(Nil) then t == NOTHING
    else exists keys, refused ::
           Attempt(config, spec, Pairs(spec, v.value), keys, refused) &&
           t == Trace(SetEvents(group, u, Pairs(spec, v.value), keys), RefusalErrors(spec, refused),
                      FullySet(config, spec, v.value))
  }

  ghost predicate SpecParts(config: Config, group: string, u: Unit, specs: seq<Spec>, parts: seq<Trace>) {
    |parts| <= |specs| && forall j :: 0 <= j < |parts| ==> SpecTrace(config, group, u, specs[j], parts[j])
  }

  /** All specs, in order. */
  ghost predicate SpecsTrace(config: Config, group: string, u: Unit, specs: seq<Spec>, t: Trace) {
    exists parts :: SpecParts(config, group, u, specs, parts) && |parts| == |specs| && t == Flat(parts)
  }

  // ---- one unit -----------------------------------------------------

  function AttributesOf(config: Config, extra: seq<Attribute>, id: string): seq<Attribute> {
    extra + [Attribute("clusterName", config.clusterName), Attribute("displayName", id)] +
    (if config.cloudClusterID != "" then [Attribute("cloud.resource_id", config.cloudClusterID)] else [])
  }

  function SampleType(config: Config, group: string): Result<string>
    requires group in config.specs
  {
    var custom := config.specs[group].guesser;
    if custom.Some? then custom.value(group) else config.guesser(group)
  }

  /** The creation of a unit's entity. */
  function Creation(config: Config, group: string, extra: seq<Attribute>, u: Unit): Event {
    Created(group, u.originalId, u.id, u.kind, AttributesOf(config, extra, u.id))
  }

  predicate Accepted(config: Config, u: Unit) {
    config.sdk.accepts(u.id, u.kind)
  }

  /** One unit: its entity is created, then its metrics are set. */
  ghost predicate UnitTrace(config: Config, group: string, extra: seq<Attribute>, u: Unit, t: Trace)
    requires group in config.specs
  {
    if !Accepted(config, u) then t == Trace([], [SdkRefused("entity")], false)
    else if SampleType(config, group).Err? then
      t == Trace([Creation(config, group, extra, u)], [SampleType(config, group).error], false)
    else exists sets :: SpecsTrace(config, group, u, config.specs[group].specs, sets) &&
                        t == Trace([Creation(config, group, extra, u)], [], false).Then(sets)
  }

  ghost predicate UnitParts(config: Config, group: string, extra: seq<Attribute>, units: seq<Unit>, parts: seq<Trace>)
    requires group in config.specs
  {
    |parts| <= |units| && forall j :: 0 <= j < |parts| ==> UnitTrace(config, group, extra, units[j], parts[j])
  }

  ghost predicate UnitsTrace(config: Config, group: string, extra: seq<Attribute>, units: seq<Unit>, t: Trace)
    requires group in config.specs
  {
    exists parts :: UnitParts(config, group, extra, units, parts) && |parts| == |units| && t == Flat(parts)
  }

  // ---- a run --------------------------------------------------------

  type RawEntity = (string, string)

  /** One raw entity: nothing if it does not pass the filter, an error if it has no units,
      otherwise its units in some order. */
  ghost predicate EntityTrace(config: Config, e: RawEntity, t: Trace) {
    if !Passes(config, e.0, e.1) then t == NOTHING
    else if UnitError(config, e.0, e.1).Some? then t == Trace([], [UnitError(config, e.0, e.1).value], false)
    else exists units :: Lists(config, e.0, e.1, units) &&
                         UnitsTrace(config, e.0, FilterAttributes(config, e.0, e.1), units, t)
  }

  ghost predicate EntityParts(config: Config, order: seq<RawEntity>, parts: seq<Trace>) {
    |parts| == |order| && forall j :: 0 <= j < |parts| ==> EntityTrace(config, order[j], parts[j])
  }

  ghost predicate RunTrace(config: Config, order: seq<RawEntity>, t: Trace) {
    exists parts :: EntityParts(config, order, parts) && t == Flat(parts)
  }

  ghost predicate NoRepeats(order: seq<RawEntity>) {
    forall i, j :: 0 <= i < j < |order| ==> order[i] != order[j]
  }

  /** The order visits every raw entity of the groups once. */
  ghost predicate Visits(config: Config, order: seq<RawEntity>) {
    NoRepeats(order) && forall e :: e in order <==> e.0 in config.groups && e.1 in config.groups[e.0]
  }
}
