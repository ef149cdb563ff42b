/** GroupStatsSummary: the stats source, grouped by the keys it formats itself
    (src/kubelet/metric/metric.go). */
module StatsSummary {
  import opened RawData
  import opened EntityKeys

  /** metrics holds the numeric data of each object. */
  datatype ItemStats = ItemStats(name: string, metrics: RawMetrics)

  datatype PodStats = PodStats(namespace: string, name: string, metrics: RawMetrics,
                               volumes: seq<ItemStats>, containers: seq<ItemStats>)

  /** pods is None for a response without pod data. */
  datatype Summary = Summary(node: ItemStats, pods: Option<seq<PodStats>>)

  const RESERVED := {"namespace", "podName", "containerName", "volumeName"}

  function PodFields(p: PodStats): RawMetrics {
    map["podName" := Text(p.name), "namespace" := Text(p.namespace)]
  }

  function PodRecord(p: PodStats): RawMetrics {
    (p.metrics - RESERVED) + PodFields(p)
  }

  /** The record of a container or volume; field is the key its name is stored under. */
  function ItemRecord(p: PodStats, it: ItemStats, field: string): RawMetrics {
    (it.metrics - RESERVED) + map[field := Text(it.name)] + PodFields(p)
  }

  function NodeRecord(node: ItemStats): RawMetrics {
    (node.metrics - RESERVED)["nodeName" := Text(node.name)]
  }

  predicate Identified(p: PodStats) {
    p.name != "" && p.namespace != ""
  }

  /** The records of one pod's containers or volumes; unnamed ones are errors. */
  function ItemTable(known: Entities, p: PodStats, items: seq<ItemStats>, field: string): Entities {
    if items == [] then known else
      var before, last := ItemTable(known, p, items[..|items| - 1], field), items[|items| - 1];
      if last.name == "" then before
      else before[StatsId(p.namespace, p.name, last.name) := ItemRecord(p, last, field)]
  }

  function ItemErrors(items: seq<ItemStats>, field: string): seq<Error> {
    if items == [] then [] else
      ItemErrors(items[..|items| - 1], field) + (if items[|items| - 1].name == "" then [EmptyIdentifier(field)] else [])
  }

  method GroupItems(known: Entities, p: PodStats, items: seq<ItemStats>, field: string, faults: seq<Error>)
    returns (table: Entities, errs: seq<Error>)
    ensures table == ItemTable(known, p, items, field)
    ensures errs == faults + ItemErrors(items, field)
  {
    table, errs := known, faults;
    for i := 0 to |items|
      invariant table == ItemTable(known, p, items[..i], field)
      invariant errs == faults + ItemErrors(items[..i], field)
    {
      assert items[..i + 1][..i] == items[..i];
      if items[i].name == "" {
        errs := errs + [EmptyIdentifier(field)];
      } else {
        table := table[StatsId(p.namespace, p.name, items[i].name) := ItemRecord(p, items[i], field)];
      }
    }
    assert items[..|items|] == items;
  }

  datatype Tables = Tables(pods: Entities, volumes: Entities, containers: Entities, errs: seq<Error>)

  function AfterPod(t: Tables, p: PodStats): Tables {
    if !Identified(p) then t.(errs := t.errs + [EmptyIdentifier("pod")])
    else Tables(t.pods[PodId(p.namespace, p.name) := PodRecord(p)],
                ItemTable(t.volumes, p, p.volumes, "volumeName"),
                ItemTable(t.containers, p, p.containers, "containerName"),
                t.errs + ItemErrors(p.volumes, "volumeName") + ItemErrors(p.containers, "containerName"))
  }

  function AfterPods(t: Tables, pods: seq<PodStats>): Tables {
    if pods == [] then t else AfterPod(AfterPods(t, pods[..|pods| - 1]), pods[|pods| - 1])
  }

  /** The tables before any pod. */
  function StartOf(node: ItemStats): Tables {
    Tables(map[], map[], map[], if node.name == "" then [EmptyIdentifier("node")] else [])
  }

  function TablesOf(summary: Summary): Tables {
    var start := StartOf(summary.node);
    if summary.pods.Some? then AfterPods(start, summary.pods.value)
    else start.(errs := start.errs + [EmptyIdentifier("pods")])
  }

  /** No summary at all yields no groups; every fault is reported and skipped over. */
  method GroupStatsSummary(summary: Option<Summary>) returns (g: Option<RawGroups>, errs: seq<Error>)
    ensures summary.None? ==> g.None? && errs == [EmptyIdentifier("summary")]
    ensures summary.Some? ==>
              var node, t := summary.value.node, TablesOf(summary.value);
              && errs == t.errs
              && g == Some(map["pod" := t.pods, "container" := t.containers, "volume" := t.volumes,
                               "node" := if node.name == "" then map[] else map[node.name := NodeRecord(node)]])
  {
    if summary.None? {
      return None, [EmptyIdentifier("summary")];
    }
    var node := summary.value.node;
    var nodes: Entities := map[];
    var t := Tables(map[], map[], map[], []);
    if node.name == "" {
      t := t.(errs := [EmptyIdentifier("node")]);
    } else {
      nodes := map[node.name := NodeRecord(node)];
    }
    if summary.value.pods.None? {
      t := t.(errs := t.errs + [EmptyIdentifier("pods")]);
    } else {
      t := GroupPods(t, summary.value.pods.value);
    }
    g := Some(map["pod" := t.pods, "container" := t.containers, "volume" := t.volumes, "node" := nodes]);
    errs := t.errs;
  }

  method GroupPods(start: Tables, pods: seq<PodStats>) returns (t: Tables)
    ensures t == AfterPods(start, pods)
  {
    t := start;
    for i := 0 to |pods|
      invariant t == AfterPods(start, pods[..i])
    {
      var p := pods[i];
      assert pods[..i + 1][..i] == pods[..i];
      if !Identified(p) {
        t := t.(errs := t.errs + [EmptyIdentifier("pod")]);
        continue;
      }
      var volumes, volumeErrs := GroupItems(t.volumes, p, p.volumes, "volumeName", t.errs);
      var containers, errs := GroupItems(t.containers, p, p.containers, "containerName", volumeErrs);
      t := Tables(t.pods[PodId(p.namespace, p.name) := PodRecord(p)], volumes, containers, errs);
    }
    assert pods[..|pods|] == pods;
  }

  // ---- stats are a faithful source ---------------------------------------

  predicate PlainPod(p: PodStats) {
    '_' !in p.namespace && '_' !in p.name && ':' !in p.namespace
  }

  lemma ItemFaithful(p: PodStats, it: ItemStats)
    requires PlainPod(p) && Identified(p) && it.name != ""
    ensures FaithfulRecord(StatsId(p.namespace, p.name, it.name), ItemRecord(p, it, "containerName"))
  {
    var c := ContainerRef(p.namespace, p.name, it.name);
    assert c.Plain() && c.Key() == StatsId(p.namespace, p.name, it.name);
    assert Describes(ItemRecord(p, it, "containerName"), c);
  }

  lemma {:induction false} ItemsFaithful(known: Entities, p: PodStats, items: seq<ItemStats>)
    requires Faithful(known) && PlainPod(p) && Identified(p)
    ensures Faithful(ItemTable(known, p, items, "containerName"))
  {
    if items != [] {
      var last := items[|items| - 1];
      ItemsFaithful(known, p, items[..|items| - 1]);
      if last.name != "" {
        ItemFaithful(p, last);
      }
    }
  }

  ghost predicate FaithfulTables(t: Tables) {
    Faithful(t.containers) && FaithfulPods(t.pods)
  }

  lemma {:induction false} StatsFaithful(t: Tables, pods: seq<PodStats>)
    requires FaithfulTables(t) && forall p :: p in pods ==> PlainPod(p)
    ensures FaithfulTables(AfterPods(t, pods))
  {
    if pods != [] {
      var p, before := pods[|pods| - 1], AfterPods(t, pods[..|pods| - 1]);
      StatsFaithful(t, pods[..|pods| - 1]);
      assert p in pods;
      if Identified(p) {
        ItemsFaithful(before.containers, p, p.containers);
        assert PodDescribes(PodRecord(p), PodId(p.namespace, p.name), p.namespace, p.name);
      }
    }
  }

  // ---- what the stats say about one container or volume ------------------

  /** An item where a pod's stats list it. */
  datatype Sighting = Sighting(pod: PodStats, item: ItemStats)

  /** The two kinds of items of a pod, and the table of each. */
  datatype Kind = Containers | Volumes {
    function Items(p: PodStats): seq<ItemStats> { if Containers? then p.containers else p.volumes }
    function Table(t: Tables): Entities { if Containers? then t.containers else t.volumes }
    function Field(): string { if Containers? then "containerName" else "volumeName" }
  }

  function LastNamed(p: PodStats, items: seq<ItemStats>, name: string): Option<Sighting> {
    if items == [] then None
    else if items[|items| - 1].name == name then Some(Sighting(p, items[|items| - 1]))
    else LastNamed(p, items[..|items| - 1], name)
  }

  /** The last item of the kind listed under the three names of c. */
  function LastItem(pods: seq<PodStats>, c: ContainerRef, kind: Kind): Option<Sighting> {
    if pods == [] then None else
      var p := pods[|pods| - 1];
      if p.namespace == c.namespace && p.name == c.pod && LastNamed(p, kind.Items(p), c.name).Some?
      then LastNamed(p, kind.Items(p), c.name)
      else LastItem(pods[..|pods| - 1], c, kind)
  }

  function SightingRecord(s: Option<Sighting>, field: string): Option<RawMetrics> {
    if s.None? then None else Some(ItemRecord(s.value.pod, s.value.item, field))
  }

  /** The record of the last container listed under the three names of c. */
  function Said(pods: seq<PodStats>, c: ContainerRef): Option<RawMetrics> {
    SightingRecord(LastItem(pods, c, Containers), "containerName")
  }

  lemma {:induction false} PodSays(known: Entities, p: PodStats, items: seq<ItemStats>, c: ContainerRef, field: string)
    requires PlainPod(p) && c.Plain()
    ensures Lookup(ItemTable(known, p, items, field), c.Key()) ==
            if p.namespace == c.namespace && p.name == c.pod && LastNamed(p, items, c.name).Some?
            then SightingRecord(LastNamed(p, items, c.name), field)
            else Lookup(known, c.Key())
  {
    if items != [] {
      PodSays(known, p, items[..|items| - 1], c, field);
      var last := ContainerRef(p.namespace, p.name, items[|items| - 1].name);
      assert last.Key() == StatsId(p.namespace, p.name, last.name);
      if last.Key() == c.Key() {
        KeyInjective(last, c);
      }
    }
  }

  /** The record stored under the key of c is what the stats say about c and nothing else. */
  lemma {:induction false} StatsSay(pods: seq<PodStats>, c: ContainerRef, kind: Kind, errs: seq<Error>)
    requires c.Plain() && forall p :: p in pods ==> PlainPod(p)
    ensures Lookup(kind.Table(AfterPods(Tables(map[], map[], map[], errs), pods)), c.Key()) ==
            SightingRecord(LastItem(pods, c, kind), kind.Field())
  {
    if pods != [] {
      var p, front := pods[|pods| - 1], pods[..|pods| - 1];
      assert p in pods;
      StatsSay(front, c, kind, errs);
      if Identified(p) {
        PodSays(kind.Table(AfterPods(Tables(map[], map[], map[], errs), front)), p, kind.Items(p), c, kind.Field());
      }
    }
  }

  lemma {:induction false} LastNamedIs(p: PodStats, items: seq<ItemStats>, name: string)
    requires LastNamed(p, items, name).Some?
    ensures var s := LastNamed(p, items, name).value;
            s.pod == p && s.item in items && s.item.name == name
  {
    if items[|items| - 1].name != name {
      LastNamedIs(p, items[..|items| - 1], name);
    }
  }

  lemma {:induction false} LastItemIs(pods: seq<PodStats>, c: ContainerRef, kind: Kind)
    requires LastItem(pods, c, kind).Some?
    ensures var s := LastItem(pods, c, kind).value;
            && s.pod in pods && s.pod.namespace == c.namespace && s.pod.name == c.pod
            && s.item in kind.Items(s.pod) && s.item.name == c.name
  {
    var p := pods[|pods| - 1];
    if p.namespace == c.namespace && p.name == c.pod && LastNamed(p, kind.Items(p), c.name).Some? {
      LastNamedIs(p, kind.Items(p), c.name);
    } else {
      LastItemIs(pods[..|pods| - 1], c, kind);
    }
  }

  ghost predicate SaysOf(p: PodStats, x: ItemStats, c: ContainerRef, record: RawMetrics) {
    && p.namespace == c.namespace && p.name == c.pod && x in p.containers && x.name == c.name
    && record == ItemRecord(p, x, "containerName")
  }

  lemma SaidComesFrom(pods: seq<PodStats>, c: ContainerRef) returns (p: PodStats, x: ItemStats)
    requires Said(pods, c).Some?
    ensures p in pods && SaysOf(p, x, c, Said(pods, c).value)
  {
    LastItemIs(pods, c, Containers);
    p, x := LastItem(pods, c, Containers).value.pod, LastItem(pods, c, Containers).value.item;
  }

  // ---- the records, metric by metric -------------------------------------

  /** Every number reported for a container or volume arrives in its record, beside its name and
      those of its pod: from the last item listed under the three names. */
  lemma ItemCells(pods: seq<PodStats>, c: ContainerRef, kind: Kind, errs: seq<Error>, k: string)
    requires c.Plain() && forall p :: p in pods ==> PlainPod(p)
    ensures var table := kind.Table(AfterPods(Tables(map[], map[], map[], errs), pods));
            var last := LastItem(pods, c, kind);
            Cell(table, c.Key(), k) ==
            if last.None? then None
            else if k == "namespace" then Some(Text(c.namespace))
            else if k == "podName" then Some(Text(c.pod))
            else if k == "containerName" then if kind.Containers? then Some(Text(c.name)) else None
            else if k == "volumeName" then if kind.Volumes? then Some(Text(c.name)) else None
            else if k in last.value.item.metrics then Some(last.value.item.metrics[k])
            else None
  {
    StatsSay(pods, c, kind, errs);
    if LastItem(pods, c, kind).Some? {
      LastItemIs(pods, c, kind);
    }
  }

  /** The last pod with the two names. */
  function LastPod(pods: seq<PodStats>, namespace: string, name: string): Option<PodStats> {
    if pods == [] then None
    else if pods[|pods| - 1].namespace == namespace && pods[|pods| - 1].name == name then Some(pods[|pods| - 1])
    else LastPod(pods[..|pods| - 1], namespace, name)
  }

  lemma {:induction false} PodsAreLast(pods: seq<PodStats>, namespace: string, name: string, errs: seq<Error>)
    requires namespace != "" && name != "" && '_' !in namespace && forall p :: p in pods ==> '_' !in p.namespace
    ensures Lookup(AfterPods(Tables(map[], map[], map[], errs), pods).pods, PodId(namespace, name)) ==
            var last := LastPod(pods, namespace, name);
            if last.None? then None else Some(PodRecord(last.value))
    ensures var last := LastPod(pods, namespace, name);
            last.Some? ==> last.value.namespace == namespace && last.value.name == name
  {
    if pods != [] {
      var p := pods[|pods| - 1];
      assert p in pods;
      PodsAreLast(pods[..|pods| - 1], namespace, name, errs);
      PodIdInjective(p.namespace, p.name, namespace, name);
    }
  }

  /** ... and so does every number reported for a pod. */
  lemma PodCells(pods: seq<PodStats>, namespace: string, name: string, errs: seq<Error>, k: string)
    requires namespace != "" && name != "" && '_' !in namespace && forall p :: p in pods ==> '_' !in p.namespace
    ensures var last := LastPod(pods, namespace, name);
            Cell(AfterPods(Tables(map[], map[], map[], errs), pods).pods, PodId(namespace, name), k) ==
            if last.None? then None
            else if k == "namespace" then Some(Text(namespace))
            else if k == "podName" then Some(Text(name))
            else if k == "containerName" || k == "volumeName" then None
            else if k in last.value.metrics then Some(last.value.metrics[k])
            else None
  {
    PodsAreLast(pods, namespace, name, errs);
  }

  // ---- what is reported as an error --------------------------------------

  lemma {:induction false} ItemErrorsIff(items: seq<ItemStats>, field: string, e: Error)
    ensures e in ItemErrors(items, field) <==>
            e == EmptyIdentifier(field) && exists i :: 0 <= i < |items| && items[i].name == ""
  {
    if items != [] {
      var front := items[..|items| - 1];
      ItemErrorsIff(front, field, e);
      assert forall i :: 0 <= i < |front| ==> front[i] == items[i];
    }
  }

  /** What a pod adds to the errors. */
  predicate PodFault(p: PodStats, e: Error) {
    if p.name == "" || p.namespace == "" then e == EmptyIdentifier("pod")
    else
      || (e == EmptyIdentifier("volumeName") && exists i :: 0 <= i < |p.volumes| && p.volumes[i].name == "")
      || (e == EmptyIdentifier("containerName") && exists i :: 0 <= i < |p.containers| && p.containers[i].name == "")
  }

  lemma PodErrors(t: Tables, p: PodStats, e: Error)
    ensures e in AfterPod(t, p).errs <==> e in t.errs || PodFault(p, e)
  {
    ItemErrorsIff(p.volumes, "volumeName", e);
    ItemErrorsIff(p.containers, "containerName", e);
  }

  lemma {:induction false} PodsErrors(t: Tables, pods: seq<PodStats>, e: Error)
    ensures e in AfterPods(t, pods).errs <==> e in t.errs || exists p :: p in pods && PodFault(p, e)
  {
    if pods != [] {
      var front, p := pods[..|pods| - 1], pods[|pods| - 1];
      PodsErrors(t, front, e);
      PodErrors(AfterPods(t, front), p, e);
      assert forall q :: q in pods <==> q in front || q == p;
    }
  }

  /** The errors are that of a node without a name, of missing pod data, of pods without a name
      or namespace, and of unnamed volumes and containers of the others. */
  lemma ErrorsIff(summary: Summary, e: Error)
    ensures e in TablesOf(summary).errs <==>
            || (e == EmptyIdentifier("node") && summary.node.name == "")
            || (e == EmptyIdentifier("pods") && summary.pods.None?)
            || (summary.pods.Some? && exists p :: p in summary.pods.value && PodFault(p, e))
  {
    if summary.pods.Some? {
      PodsErrors(StartOf(summary.node), summary.pods.value, e);
    }
  }

  /** Without errors, the node has a name and there are pods. */
  lemma NoErrors(summary: Summary)
    requires TablesOf(summary).errs == []
    ensures summary.node.name != "" && summary.pods.Some?
  {
    ErrorsIff(summary, EmptyIdentifier("node"));
    ErrorsIff(summary, EmptyIdentifier("pods"));
  }
}
