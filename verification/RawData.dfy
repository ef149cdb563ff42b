/** The data that flows between scraping and populating: Prometheus series,
    raw values and the nested RawGroups map, with the plain FromRaw lookup. */
module RawData {

  datatype Option<+T> = None | Some(value: T)

  datatype Result<+T> = Ok(value: T) | Err(error: Error)

  /** The errors the modelled functions return, one constructor per cause. */
  datatype Error =
    | GroupNotFound(group: string)
    | EntityNotFound(entity: string)
    | MetricNotFound(metric: string)
    | LabelNotFound(name: string)
    | RelatedMetricNotFound(metric: string)
    | IncompatibleType(metric: string)
    | EmptySlice(metric: string)
    | NoData(group: string)
    | NotASlice(group: string)
    | EmptyIdentifier(what: string)
    | GenerateId(entity: string)
    | GenerateType(entity: string)
    | SetMetricFailed(name: string)
    | FetchFailed(name: string)
    | SdkRefused(what: string)
    | Interfaces(what: string)

  type Labels = map<string, string>

  /** The value kinds of src/prometheus/metric.go; floats are reals here. */
  datatype Value =
    | Counter(amount: real)
    | Gauge(amount: real)
    | Summary(id: int)
    | NoValue
  {
    predicate Numeric() { Counter? || Gauge? }
  }

  datatype Metric = Metric(labels: Labels, value: Value)

  datatype MetricFamily = MetricFamily(name: string, kind: string, metrics: seq<Metric>)

  /** Go's interface{} raw value: a bare Metric, a []Metric, or kubelet data. */
  datatype RawValue =
    | Single(metric: Metric)
    | Series(metrics: seq<Metric>)
    | Text(text: string)
    | Number(number: int)
    | InterfaceTable(interfaces: map<string, map<string, RawValue>>)
    | ConditionTable(conditions: map<string, int>)
    | Measured(value: Value)
    | Other(id: int)

  type RawMetrics = map<string, RawValue>
  type Entities = map<string, RawMetrics>
  type RawGroups = map<string, Entities>

  /** One value handed to the SDK. */
  datatype Leaf = Nil | Sample(value: Value) | Str(text: string) | Raw(raw: RawValue)

  /** FetchedValue: a scalar, or FetchedValues for a prototyped set of metrics. */
  datatype Fetched = Scalar(leaf: Leaf) | Bundle(values: map<string, Leaf>)

  /** definition.FromRaw */
  function FromRaw(metric: string, group: string, entity: string, groups: RawGroups): Result<RawValue> {
    if group !in groups then Err(GroupNotFound(group))
    else if entity !in groups[group] then Err(EntityNotFound(entity))
    else if metric !in groups[group][entity] then Err(MetricNotFound(metric))
    else Ok(groups[group][entity][metric])
  }

  /** The entities of a group, empty when the group is missing. */
  function EntitiesOf(groups: RawGroups, group: string): Entities {
    if group in groups then groups[group] else map[]
  }

  function Lookup(table: Entities, entity: string): Option<RawMetrics> {
    if entity in table then Some(table[entity]) else None
  }

  /** A single cell of a table of entities. */
  function Cell(table: Entities, entity: string, metric: string): Option<RawValue> {
    if entity in table && metric in table[entity] then Some(table[entity][metric]) else None
  }

  /** Two tables without empty records are equal when all their cells are. */
  lemma TableExtensional(a: Entities, b: Entities)
    requires forall e :: e in a ==> a[e] != map[]
    requires forall e :: e in b ==> b[e] != map[]
    requires forall e, n :: Cell(a, e, n) == Cell(b, e, n)
    ensures a == b
  {
    forall e ensures (e in a ==> e in b && a[e] == b[e]) && (e in b ==> e in a) {
      if e in a { RecordExtensional(a, b, e); }
      if e in b { RecordExtensional(b, a, e); }
    }
  }

  lemma RecordExtensional(a: Entities, b: Entities, e: string)
    requires e in a && a[e] != map[]
    requires forall n :: Cell(a, e, n) == Cell(b, e, n)
    ensures e in b && a[e] == b[e]
  {
    var n :| n in a[e];
    assert Cell(a, e, n) == Some(a[e][n]);
    assert e in b;
    forall k ensures (k in a[e] ==> k in b[e] && a[e][k] == b[e][k]) && (k in b[e] ==> k in a[e]) {
      assert Cell(a, e, k) == Cell(b, e, k);
    }
  }
}
