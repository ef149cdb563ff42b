/** The grouping loop of CadvisorFetchFunc: container records keyed by the container a
    series' labels name (src/kubelet/metric/cadvisor.go). */
module Cadvisor {
  import opened RawData
  import opened EntityKeys
  import opened Grouping

  datatype Verdict = Skip | Fault(error: Error) | Accept(key: string, containerID: string)

  /** What the loop decides about one series. The pattern match on the id label is a parameter. */
  function Classify(m: Metric, extract: string -> string): Verdict {
    if FirstLabel(m.labels, CONTAINER_LABELS) == Some("POD") then Skip
    else match CadvisorId(m.labels)
      case Err(e) => Fault(e)
      case Ok(key) =>
        if key == "" then Skip
        else
          var id := extract(if "id" in m.labels then m.labels["id"] else "");
          if id == "" then Fault(LabelNotFound("id")) else Accept(key, id)
  }

  method ClassifySeries(m: Metric, extract: string -> string) returns (v: Verdict)
    ensures v == Classify(m, extract)
  {
    var container := GetLabel(m.labels, CONTAINER_LABELS);
    if container == Some("POD") {
      return Skip;
    }
    var key := CreateRawEntityID(m.labels);
    if key.Err? {
      return Fault(key.error);
    }
    if key.value == "" {
      return Skip;
    }
    var id := extract(if "id" in m.labels then m.labels["id"] else "");
    v := if id == "" then Fault(LabelNotFound("id")) else Accept(key.value, id);
  }

  predicate LacksImage(it: Item) {
    it.0 == "container_memory_usage_bytes" && ("image" !in it.1.labels || it.1.labels["image"] == "")
  }

  /** The record of a container after one more accepted series. */
  function Updated(record: Option<RawMetrics>, containerID: string, it: Item): RawMetrics {
    var base := if record.Some? then record.value else map["containerID" := Text(containerID)];
    if LacksImage(it) then base
    else if it.0 == "container_memory_usage_bytes" then base["containerImageID" := Text(it.1.labels["image"])]
    else base[it.0 := Measured(it.1.value)]
  }

  /** The record built from one container's own series alone. */
  function RecordOf(key: string, items: seq<Item>, extract: string -> string): Option<RawMetrics> {
    if items == [] then None else
      var before, last := RecordOf(key, items[..|items| - 1], extract), items[|items| - 1];
      var v := Classify(last.1, extract);
      if v.Accept? && v.key == key then Some(Updated(before, v.containerID, last)) else before
  }

  function FaultsOf(v: Verdict, it: Item): seq<Error> {
    match v
    case Skip => []
    case Fault(e) => [e]
    case Accept(_, _) => if LacksImage(it) then [LabelNotFound("image")] else []
  }

  function Faults(items: seq<Item>, extract: string -> string): seq<Error> {
    if items == [] then [] else
      Faults(items[..|items| - 1], extract) + FaultsOf(Classify(items[|items| - 1].1, extract), items[|items| - 1])
  }

  /** Every record is built from its own container's series, and no container is left out. */
  ghost predicate IsCadvisorTable(table: Entities, items: seq<Item>, extract: string -> string) {
    forall key :: Lookup(table, key) == RecordOf(key, items, extract)
  }

  /** The map update for one series. */
  function Stored(table: Entities, v: Verdict, it: Item): Entities {
    if v.Accept? then table[v.key := Updated(Lookup(table, v.key), v.containerID, it)] else table
  }

  /** The loop as a fold. */
  function TableOf(items: seq<Item>, extract: string -> string): Entities {
    if items == [] then map[] else
      var last := items[|items| - 1];
      Stored(TableOf(items[..|items| - 1], extract), Classify(last.1, extract), last)
  }

  lemma {:induction false} TableExact(items: seq<Item>, extract: string -> string)
    ensures IsCadvisorTable(TableOf(items, extract), items, extract)
  {
    if items != [] {
      var front := items[..|items| - 1];
      TableExact(front, extract);
      forall key ensures Lookup(TableOf(items, extract), key) == RecordOf(key, items, extract) {
        assert Lookup(TableOf(front, extract), key) == RecordOf(key, front, extract);
      }
    }
  }

  /** The loop body for one series. */
  method GroupSeries(known: Entities, faults: seq<Error>, it: Item, extract: string -> string, ghost seen: seq<Item>)
    returns (table: Entities, errs: seq<Error>)
    requires known == TableOf(seen, extract) && faults == Faults(seen, extract)
    ensures table == TableOf(seen + [it], extract) && errs == Faults(seen + [it], extract)
  {
    assert (seen + [it])[..|seen|] == seen;
    var v := ClassifySeries(it.1, extract);
    table := Stored(known, v, it);
    errs := faults + FaultsOf(v, it);
  }

  /** The inner loop, over the series of one family. */
  method GroupFamily(known: Entities, faults: seq<Error>, f: MetricFamily, extract: string -> string,
                     ghost seen: seq<Item>)
    returns (table: Entities, errs: seq<Error>)
    requires known == TableOf(seen, extract) && faults == Faults(seen, extract)
    ensures table == TableOf(seen + ItemsOf(f), extract) && errs == Faults(seen + ItemsOf(f), extract)
  {
    table, errs := known, faults;
    ghost var items := seen;
    for j := 0 to |f.metrics|
      invariant items == seen + ItemsUpTo(f, j)
      invariant table == TableOf(items, extract) && errs == Faults(items, extract)
    {
      table, errs := GroupSeries(table, errs, (f.name, f.metrics[j]), extract, items);
      items := items + [(f.name, f.metrics[j])];
    }
  }

  /** The loop over all series builds every record from its own container's series only. */
  method GroupContainers(families: seq<MetricFamily>, extract: string -> string)
    returns (table: Entities, errs: seq<Error>)
    ensures IsCadvisorTable(table, Items(families), extract)
    ensures errs == Faults(Items(families), extract)
  {
    table, errs := map[], [];
    for i := 0 to |families|
      invariant table == TableOf(Items(families[..i]), extract) && errs == Faults(Items(families[..i]), extract)
    {
      table, errs := GroupFamily(table, errs, families[i], extract, Items(families[..i]));
      assert families[..i + 1][..i] == families[..i];
    }
    assert families[..|families|] == families;
    TableExact(Items(families), extract);
  }

  /** The queried families do not shadow the identifying fields. */
  predicate PlainFamily(name: string) {
    name != "namespace" && name != "podName" && name != "containerName"
  }

  ghost predicate PlainItem(it: Item) {
    && PlainFamily(it.0)
    && forall c: ContainerRef :: LabelsDescribe(it.1.labels, c) && c.Named() ==> c.Plain()
  }

  /** The record does not name its container itself. */
  predicate Anonymous(record: RawMetrics) {
    "namespace" !in record && "podName" !in record && "containerName" !in record
  }

  lemma UpdatedAnonymous(record: Option<RawMetrics>, containerID: string, it: Item)
    requires PlainFamily(it.0) && (record.Some? ==> Anonymous(record.value))
    ensures Anonymous(Updated(record, containerID, it))
  {
  }

  lemma {:induction false} RecordFaithful(key: string, items: seq<Item>, extract: string -> string)
    requires forall it :: it in items ==> PlainItem(it)
    requires RecordOf(key, items, extract).Some?
    ensures exists c: ContainerRef :: c.Plain() && c.Key() == key
    ensures Anonymous(RecordOf(key, items, extract).value)
  {
    var front, last := items[..|items| - 1], items[|items| - 1];
    assert last in items && PlainItem(last);
    assert forall it :: it in front ==> it in items;
    if RecordOf(key, front, extract).Some? {
      RecordFaithful(key, front, extract);
    } else {
      var c := CadvisorDescribes(last.1.labels);
      assert LabelsDescribe(last.1.labels, c);
    }
    var v := Classify(last.1, extract);
    if v.Accept? {
      UpdatedAnonymous(RecordOf(key, front, extract), v.containerID, last);
    }
  }

  /** cAdvisor is a faithful source. */
  lemma CadvisorFaithful(table: Entities, items: seq<Item>, extract: string -> string)
    requires forall it :: it in items ==> PlainItem(it)
    requires IsCadvisorTable(table, items, extract)
    ensures Faithful(table)
  {
    forall e | e in table ensures FaithfulRecord(e, table[e]) {
      assert Lookup(table, e) == Some(table[e]);
      RecordFaithful(e, items, extract);
      var c: ContainerRef :| c.Plain() && c.Key() == e;
      assert Describes(table[e], c);
    }
  }

  // ---- what the series say about one container ---------------------------

  /** The series is accepted and its labels name c. */
  predicate Names(it: Item, c: ContainerRef, extract: string -> string) {
    Classify(it.1, extract).Accept? && LabelsDescribe(it.1.labels, c)
  }

  /** The record built from the accepted series whose labels name c, and from no others. */
  function Said(items: seq<Item>, c: ContainerRef, extract: string -> string): Option<RawMetrics> {
    if items == [] then None else
      var before, last := Said(items[..|items| - 1], c, extract), items[|items| - 1];
      if Names(last, c, extract) then Some(Updated(before, Classify(last.1, extract).containerID, last)) else before
  }

  /** An accepted series has the key of c exactly when its labels name c. */
  lemma AcceptedNames(it: Item, c: ContainerRef, extract: string -> string)
    requires PlainItem(it) && c.Plain() && Classify(it.1, extract).Accept?
    ensures Classify(it.1, extract).key == c.Key() <==> LabelsDescribe(it.1.labels, c)
  {
    var d := CadvisorDescribes(it.1.labels);
    assert LabelsDescribe(it.1.labels, d) && d.Plain();
    if d.Key() == c.Key() {
      KeyInjective(d, c);
    }
  }

  /** The record stored under the key of c is what the series naming c say, nothing else. */
  lemma {:induction false} SeriesSay(items: seq<Item>, c: ContainerRef, extract: string -> string)
    requires c.Plain() && forall it :: it in items ==> PlainItem(it)
    ensures RecordOf(c.Key(), items, extract) == Said(items, c, extract)
  {
    if items != [] {
      var last := items[|items| - 1];
      assert last in items;
      SeriesSay(items[..|items| - 1], c, extract);
      if Classify(last.1, extract).Accept? {
        AcceptedNames(last, c, extract);
      }
    }
  }

  /** The value of one metric comes from this series. */
  predicate Reports(it: Item, extract: string -> string, k: string, v: RawValue) {
    && Classify(it.1, extract).Accept?
    && (|| (k == "containerID" && v == Text(Classify(it.1, extract).containerID))
        || (k == "containerImageID" && "image" in it.1.labels && v == Text(it.1.labels["image"]))
        || (k == it.0 && v == Measured(it.1.value)))
  }

  lemma {:induction false} SaidComesFrom(items: seq<Item>, c: ContainerRef, extract: string -> string, k: string)
    returns (it: Item)
    requires Said(items, c, extract).Some? && k in Said(items, c, extract).value
    ensures it in items && Names(it, c, extract) && Reports(it, extract, k, Said(items, c, extract).value[k])
  {
    var front, last := items[..|items| - 1], items[|items| - 1];
    var before := Said(front, c, extract);
    if before.Some? && k in before.value && Said(items, c, extract).value[k] == before.value[k] {
      it := SaidComesFrom(front, c, extract, k);
    } else {
      it := last;
    }
  }

  // ---- the record, metric by metric --------------------------------------

  /** Which series are accepted, under which key and container ID, by their labels alone. */
  lemma AcceptedIff(m: Metric, extract: string -> string)
    ensures var l := m.labels;
            var container := if "container_name" in l then l["container_name"]
                             else if "container" in l then l["container"] else "";
            var pod := if "pod_name" in l then l["pod_name"] else if "pod" in l then l["pod"] else "";
            var ns := if "namespace" in l then l["namespace"] else "";
            var id := extract(if "id" in l then l["id"] else "");
            && (Classify(m, extract).Accept? <==>
                container != "" && container != "POD" && ns != "" && pod != "" && id != "")
            && (Classify(m, extract).Accept? ==>
                  Classify(m, extract) == Accept(ns + "_" + pod + "_" + container, id))
  {
    FirstOfTwo(m.labels, "container_name", "container");
    FirstOfTwo(m.labels, "pod_name", "pod");
  }

  lemma FirstOfTwo(labels: Labels, a: string, b: string)
    ensures FirstLabel(labels, [a, b]) ==
            if a in labels then Some(labels[a]) else if b in labels then Some(labels[b]) else None
  {
    var names := [a, b];
    assert names[1..] == [b] && [b][1..] == [];
    assert FirstLabel(labels, [b]) == if b in labels then Some(labels[b]) else FirstLabel(labels, []);
  }

  /** Which faults one series of a family adds, by its labels alone. */
  lemma FaultsByLabels(it: Item, extract: string -> string)
    ensures var l := it.1.labels;
            var named := "container_name" in l || "container" in l;
            var container := if "container_name" in l then l["container_name"]
                             else if "container" in l then l["container"] else "";
            var pod := if "pod_name" in l then l["pod_name"] else if "pod" in l then l["pod"] else "";
            FaultsOf(Classify(it.1, extract), it) ==
            if !named then [LabelNotFound("container")]
            else if container == "" || container == "POD" then []
            else if "namespace" !in l || l["namespace"] == "" then [LabelNotFound("namespace")]
            else if pod == "" then [LabelNotFound("pod")]
            else if extract(if "id" in l then l["id"] else "") == "" then [LabelNotFound("id")]
            else if it.0 == "container_memory_usage_bytes" && ("image" !in l || l["image"] == "")
            then [LabelNotFound("image")]
            else []
  {
    FirstOfTwo(it.1.labels, "container_name", "container");
    FirstOfTwo(it.1.labels, "pod_name", "pod");
  }

  /** The faults reported are those of the series, in order. */
  lemma {:induction false} FaultsConcat(a: seq<Item>, b: seq<Item>, extract: string -> string)
    ensures Faults(a + b, extract) == Faults(a, extract) + Faults(b, extract)
  {
    if b == [] {
      assert a + b == a;
    } else {
      var front := b[..|b| - 1];
      assert (a + b)[..|a + b| - 1] == a + front;
      FaultsConcat(a, front, extract);
    }
  }

  lemma FaultsOfOne(it: Item, extract: string -> string)
    ensures Faults([it], extract) == FaultsOf(Classify(it.1, extract), it)
  {
    assert [it][..0] == [];
  }

  /** The last accepted series of a family that names c. */
  function LastOf(items: seq<Item>, c: ContainerRef, n: string, extract: string -> string): Option<Metric> {
    if items == [] then None else
      var last := items[|items| - 1];
      if last.0 == n && Names(last, c, extract) then Some(last.1) else LastOf(items[..|items| - 1], c, n, extract)
  }

  /** The first accepted series that names c. */
  function FirstOf(items: seq<Item>, c: ContainerRef, extract: string -> string): Option<Metric> {
    if items == [] then None
    else if Names(items[0], c, extract) then Some(items[0].1)
    else FirstOf(items[1..], c, extract)
  }

  /** The last image named on a memory series of c; a family of that very name would count too. */
  function LastImage(items: seq<Item>, c: ContainerRef, extract: string -> string): Option<RawValue> {
    if items == [] then None else
      var last := items[|items| - 1];
      if !Names(last, c, extract) then LastImage(items[..|items| - 1], c, extract)
      else if last.0 == "containerImageID" then Some(Measured(last.1.value))
      else if last.0 == "container_memory_usage_bytes" && "image" in last.1.labels && last.1.labels["image"] != ""
      then Some(Text(last.1.labels["image"]))
      else LastImage(items[..|items| - 1], c, extract)
  }

  /** The container ID of the first series of c, unless there is a family of that very name. */
  function IdSeen(items: seq<Item>, c: ContainerRef, extract: string -> string): Option<RawValue> {
    var first, shadow := FirstOf(items, c, extract), LastOf(items, c, "containerID", extract);
    if shadow.Some? then Some(Measured(shadow.value.value))
    else if first.None? then None
    else Some(Text(extract(if "id" in first.value.labels then first.value.labels["id"] else "")))
  }

  function Read(record: Option<RawMetrics>, k: string): Option<RawValue> {
    if record.Some? && k in record.value then Some(record.value[k]) else None
  }

  lemma {:induction false} SaidMeasured(items: seq<Item>, c: ContainerRef, n: string, extract: string -> string)
    requires n != "container_memory_usage_bytes" && n != "containerID" && n != "containerImageID"
    ensures var last := LastOf(items, c, n, extract);
            Read(Said(items, c, extract), n) == if last.None? then None else Some(Measured(last.value.value))
  {
    if items != [] {
      SaidMeasured(items[..|items| - 1], c, n, extract);
    }
  }

  lemma {:induction false} FirstSnoc(items: seq<Item>, it: Item, c: ContainerRef, extract: string -> string)
    ensures FirstOf(items + [it], c, extract) ==
            if FirstOf(items, c, extract).Some? then FirstOf(items, c, extract)
            else if Names(it, c, extract) then Some(it.1) else None
  {
    if items == [] {
      assert [] + [it] == [it] && [it][1..] == [];
    } else {
      assert (items + [it])[1..] == items[1..] + [it];
      FirstSnoc(items[1..], it, c, extract);
    }
  }

  lemma {:induction false} SaidContainerID(items: seq<Item>, c: ContainerRef, extract: string -> string)
    ensures Said(items, c, extract).Some? <==> FirstOf(items, c, extract).Some?
    ensures Read(Said(items, c, extract), "containerID") == IdSeen(items, c, extract)
  {
    if items != [] {
      var front, last := items[..|items| - 1], items[|items| - 1];
      assert items == front + [last];
      SaidContainerID(front, c, extract);
      FirstSnoc(front, last, c, extract);
      AcceptedIff(last.1, extract);
    }
  }

  lemma {:induction false} SaidImage(items: seq<Item>, c: ContainerRef, extract: string -> string)
    ensures Read(Said(items, c, extract), "containerImageID") == LastImage(items, c, extract)
  {
    if items != [] {
      SaidImage(items[..|items| - 1], c, extract);
    }
  }

  /** Where a family has the name of an ID, the ID is what is seen. */
  lemma {:induction false} IdsAreLast(items: seq<Item>, c: ContainerRef, extract: string -> string)
    ensures LastOf(items, c, "containerID", extract).Some? ==> IdSeen(items, c, extract).Some?
    ensures LastOf(items, c, "containerImageID", extract).Some? ==> LastImage(items, c, extract).Some?
  {
    if items != [] {
      IdsAreLast(items[..|items| - 1], c, extract);
    }
  }

  lemma {:induction false} SaidNoMemory(items: seq<Item>, c: ContainerRef, extract: string -> string)
    ensures Read(Said(items, c, extract), "container_memory_usage_bytes") == None
  {
    if items != [] {
      SaidNoMemory(items[..|items| - 1], c, extract);
    }
  }

  /** What cAdvisor reports about a container arrives in its record: for every family but the
      memory one the value of its last accepted series that names the container, nothing if
      there is none; the container ID of the first such series of any family; the image of the
      last memory series that has one, and no memory value. */
  lemma MeasurementsArrive(table: Entities, items: seq<Item>, c: ContainerRef, k: string, extract: string -> string)
    requires IsCadvisorTable(table, items, extract) && c.Plain() && forall it :: it in items ==> PlainItem(it)
    ensures var last := LastOf(items, c, k, extract);
            Cell(table, c.Key(), k) ==
            if k == "container_memory_usage_bytes" then None
            else if k == "containerID" then IdSeen(items, c, extract)
            else if k == "containerImageID" then LastImage(items, c, extract)
            else if last.None? then None
            else Some(Measured(last.value.value))
  {
    SeriesSay(items, c, extract);
    assert Lookup(table, c.Key()) == Said(items, c, extract);
    if k == "container_memory_usage_bytes" {
      SaidNoMemory(items, c, extract);
    } else if k == "containerID" {
      SaidContainerID(items, c, extract);
    } else if k == "containerImageID" {
      SaidImage(items, c, extract);
    } else {
      SaidMeasured(items, c, k, extract);
    }
  }
}
