/** The kubelet sources end to end: pods, cAdvisor and stats summary, merged in the order
    the scraper lists them (src/kubelet/scraper.go, src/kubelet/grouper/group.go). */
module KubeletPipeline {
  import opened RawData
  import opened EntityKeys
  import opened KubeletMerge
  import opened Grouping
  import opened KubeletGrouper
  import opened NodeData
  import Pods
  import Cadvisor
  import StatsSummary

  lemma MergeKeepsFaithfulPods(known: Entities, from: Entities)
    requires FaithfulPods(known)
    ensures FaithfulPods(MergedEntities(known, from))
  {
    var m := MergedEntities(known, from);
    forall e | e in m ensures exists ns, pod :: PodDescribes(m[e], e, ns, pod) {
      var ns, pod :| PodDescribes(known[e], e, ns, pod);
      assert PodDescribes(m[e], e, ns, pod);
    }
  }

  lemma {:induction false} FoldKeepsFaithfulPods(d: RawGroups, sources: seq<RawGroups>)
    requires FaithfulPods(EntitiesOf(d, "pod"))
    requires forall i :: 0 <= i < |sources| ==> FaithfulPods(EntitiesOf(sources[i], "pod"))
    ensures FaithfulPods(EntitiesOf(MergeAll(d, sources), "pod"))
    decreases |sources|
  {
    if sources != [] {
      var s := sources[0];
      if "pod" in d && "pod" in s {
        MergeKeepsFaithfulPods(d["pod"], s["pod"]);
      }
      FoldKeepsFaithfulPods(Merged(d, s), sources[1..]);
    }
  }

  lemma {:induction false} PodTableFaithful(pods: seq<Pods.Pod>)
    ensures FaithfulPods(Pods.PodTable(pods))
  {
    if pods != [] {
      var p := pods[|pods| - 1];
      PodTableFaithful(pods[..|pods| - 1]);
      assert PodDescribes(Pods.PodRecord(p), PodId(p.namespace, p.name), p.namespace, p.name);
    }
  }

  /** What each source delivers, as its own loop is shown to build it. */
  ghost predicate FromPods(g: RawGroups, pods: seq<Pods.Pod>) {
    && g.Keys == {"pod", "container"}
    && Pods.Filled(g["pod"], map[], Pods.PodTable(pods), Pods.FirstIP(pods))
    && Pods.Filled(g["container"], map[], Pods.ContainerTable(pods), Pods.FirstIP(pods))
  }

  ghost predicate FromCadvisor(g: RawGroups, families: seq<MetricFamily>, extract: string -> string) {
    g.Keys == {"container"} && Cadvisor.IsCadvisorTable(g["container"], Items(families), extract)
  }

  ghost predicate FromStats(g: RawGroups, pods: seq<StatsSummary.PodStats>, node: StatsSummary.ItemStats) {
    var t := StatsSummary.AfterPods(StatsSummary.Tables(map[], map[], map[], []), pods);
    && g.Keys == {"pod", "container", "volume", "node"}
    && g["pod"] == t.pods && g["container"] == t.containers && g["volume"] == t.volumes
    && g["node"] == map[node.name := StatsSummary.NodeRecord(node)]
  }

  lemma PodsSourceFaithful(g: RawGroups, pods: seq<Pods.Pod>)
    requires FromPods(g, pods) && forall p :: p in pods ==> Pods.PlainPod(p)
    ensures Faithful(EntitiesOf(g, "container")) && FaithfulPods(EntitiesOf(g, "pod"))
  {
    Pods.PodsFaithful(pods);
    Pods.FilledFaithful(g["container"], Pods.ContainerTable(pods), Pods.FirstIP(pods));
    PodTableFaithful(pods);
    var table, wanted := g["pod"], Pods.PodTable(pods);
    forall e | e in table ensures exists ns, pod :: PodDescribes(table[e], e, ns, pod) {
      assert Pods.FilledSlot(table, map[], wanted, Pods.FirstIP(pods), e);
      var ns, pod :| PodDescribes(wanted[e], e, ns, pod);
      assert PodDescribes(table[e], e, ns, pod);
    }
  }

  /** The data behind a scrape: what the API and the kubelet answered. */
  datatype Observed = Observed(pods: seq<Pods.Pod>, families: seq<MetricFamily>, extract: string -> string,
                               stats: seq<StatsSummary.PodStats>, node: StatsSummary.ItemStats)
  {
    /** All names are Kubernetes names. */
    ghost predicate Plain() {
      && (forall p :: p in pods ==> Pods.PlainPod(p))
      && (forall it :: it in Items(families) ==> Cadvisor.PlainItem(it))
      && (forall p :: p in stats ==> StatsSummary.PlainPod(p))
    }
  }

  /** The groups that are merged, in the order in which they are. */
  datatype Sources = Sources(network: RawGroups, fromPods: RawGroups, fromCadvisor: RawGroups, fromStats: RawGroups,
                             nodeRecord: RawGroups)
  {
    function Groups(): RawGroups {
      MergeAll(network, [fromPods, fromCadvisor, fromStats, nodeRecord])
    }
  }

  /** The sources are what the loops make of the observed data. */
  ghost predicate MadeFrom(s: Sources, o: Observed) {
    && s.network.Keys == {"network"} && s.nodeRecord.Keys == {"node"}
    && FromPods(s.fromPods, o.pods)
    && FromCadvisor(s.fromCadvisor, o.families, o.extract)
    && FromStats(s.fromStats, o.stats, o.node)
  }

  /** The merged groups are faithful to the pods and containers their keys name. */
  lemma MergedFaithful(s: Sources, o: Observed)
    requires MadeFrom(s, o) && o.Plain()
    ensures Faithful(EntitiesOf(s.Groups(), "container")) && FaithfulPods(EntitiesOf(s.Groups(), "pod"))
  {
    PodsSourceFaithful(s.fromPods, o.pods);
    Cadvisor.CadvisorFaithful(s.fromCadvisor["container"], Items(o.families), o.extract);
    StatsSummary.StatsFaithful(StatsSummary.Tables(map[], map[], map[], []), o.stats);
    FourFaithful(s.network, [s.fromPods, s.fromCadvisor, s.fromStats, s.nodeRecord]);
  }

  lemma FourFaithful(network: RawGroups, sources: seq<RawGroups>)
    requires |sources| == 4 && "container" !in network && "pod" !in network
    requires Faithful(EntitiesOf(sources[0], "container")) && FaithfulPods(EntitiesOf(sources[0], "pod"))
    requires Faithful(EntitiesOf(sources[1], "container")) && FaithfulPods(EntitiesOf(sources[1], "pod"))
    requires Faithful(EntitiesOf(sources[2], "container")) && FaithfulPods(EntitiesOf(sources[2], "pod"))
    requires Faithful(EntitiesOf(sources[3], "container")) && FaithfulPods(EntitiesOf(sources[3], "pod"))
    ensures Faithful(EntitiesOf(MergeAll(network, sources), "container"))
    ensures FaithfulPods(EntitiesOf(MergeAll(network, sources), "pod"))
  {
    FoldKeepsFaithful(network, sources, "container");
    FoldKeepsFaithfulPods(network, sources);
  }

  /** Both raw entities exist and get one and the same entity ID and type. */
  ghost predicate Collapse(g: RawGroups, group: string, raw: string, group': string, raw': string, cluster: string) {
    && raw in EntitiesOf(g, group) && raw' in EntitiesOf(g, group')
    && EntityId(g, group, raw).Ok? && EntityType(g, group, raw, cluster).Ok?
    && EntityId(g, group, raw) == EntityId(g, group', raw')
    && EntityType(g, group, raw, cluster) == EntityType(g, group', raw', cluster)
  }

  /** Merging the three sources with the node record, no two raw entities of the kubelet
      groups ever get the same entity ID and type. */
  lemma EntitiesStaySeparate(s: Sources, o: Observed, group: string, raw: string, group': string, raw': string,
                             cluster: string)
    requires MadeFrom(s, o) && o.Plain()
    requires group in {"node", "pod", "container", "volume"} && group' in {"node", "pod", "container", "volume"}
    requires Collapse(s.Groups(), group, raw, group', raw', cluster)
    ensures group == group' && raw == raw'
  {
    MergedFaithful(s, o);
    IdentityInjective(s.Groups(), group, raw, group', raw', cluster);
  }

  // ---- every record is about one container -------------------------------

  function OrNone(record: Option<RawMetrics>): RawMetrics {
    if record.Some? then record.value else map[]
  }

  /** The record of c, from what each source says under the names of c: the pods' with the
      node IP, then the series', then the stats'. A container no pod lists has none. */
  function Said(c: ContainerRef, o: Observed): Option<RawMetrics> {
    var own := Pods.Said(o.pods, c);
    if own.None? then None
    else
      var withSeries := MergedRecord(Pods.WithIP(own.value, Pods.FirstIP(o.pods)),
                                     OrNone(Cadvisor.Said(Items(o.families), c, o.extract)));
      Some(MergedRecord(withSeries, OrNone(StatsSummary.Said(o.stats, c))))
  }

  lemma MergeAllStep(d: RawGroups, s: RawGroups, rest: seq<RawGroups>)
    ensures MergeAll(d, [s] + rest) == MergeAll(Merged(d, s), rest)
  {
    assert ([s] + rest)[1..] == rest;
  }

  /** One merge, seen from one group. */
  lemma MergedOneGroup(d: RawGroups, s: RawGroups, l: string)
    ensures EntitiesOf(Merged(d, s), l) ==
            if l !in d then EntitiesOf(s, l) else MergedEntities(d[l], EntitiesOf(s, l))
    ensures l in Merged(d, s) <==> l in d || l in s
  {
    if l in d && l !in s {
      assert MergedEntities(d[l], map[]) == d[l];
    }
  }

  /** Merging the sources, seen from the container group. */
  lemma MergedContainers(network: RawGroups, a: RawGroups, b: RawGroups, s: RawGroups, n: RawGroups)
    requires "container" !in network && "container" in a && "container" in b && "container" in s && "container" !in n
    ensures EntitiesOf(MergeAll(network, [a, b, s, n]), "container") ==
            MergedEntities(MergedEntities(a["container"], b["container"]), s["container"])
  {
    var g1 := Merged(network, a);
    var g2 := Merged(g1, b);
    var g3 := Merged(g2, s);
    MergedOneGroup(network, a, "container");
    MergedOneGroup(g1, b, "container");
    MergedOneGroup(g2, s, "container");
    MergedOneGroup(g3, n, "container");
    assert MergedEntities(g3["container"], map[]) == g3["container"];
    FourSteps(network, a, b, s, n);
  }

  lemma FourSteps(d: RawGroups, a: RawGroups, b: RawGroups, s: RawGroups, n: RawGroups)
    ensures MergeAll(d, [a, b, s, n]) == Merged(Merged(Merged(Merged(d, a), b), s), n)
  {
    var g1 := Merged(d, a);
    MergeAllStep(d, a, [b, s, n]);
    MergeAllStep(g1, b, [s, n]);
    MergeAllStep(Merged(g1, b), s, [n]);
    MergeAllStep(Merged(Merged(g1, b), s), n, []);
    assert [a] + [b, s, n] == [a, b, s, n] && [b] + [s, n] == [b, s, n] && [s] + [n] == [s, n] && [n] + [] == [n];
  }

  lemma MergedLookup(a: Entities, b: Entities, e: string)
    ensures Lookup(MergedEntities(a, b), e) ==
            if e in a then Some(MergedRecord(a[e], OrNone(Lookup(b, e)))) else None
  {
    if e in a && e !in b {
      assert MergedRecord(a[e], map[]) == a[e];
    }
  }

  /** After the merge, the record of every container is exactly what the sources say under
      its own three names. */
  lemma ContainerRecordExact(s: Sources, o: Observed, c: ContainerRef)
    requires MadeFrom(s, o) && o.Plain() && c.Plain()
    ensures Lookup(EntitiesOf(s.Groups(), "container"), c.Key()) == Said(c, o)
  {
    var p, a, t := s.fromPods["container"], s.fromCadvisor["container"], s.fromStats["container"];
    MergedContainers(s.network, s.fromPods, s.fromCadvisor, s.fromStats, s.nodeRecord);
    MergedLookup(p, a, c.Key());
    MergedLookup(MergedEntities(p, a), t, c.Key());
    SourcesSay(p, a, t, o, c);
  }

  lemma SourcesSay(p: Entities, a: Entities, t: Entities, o: Observed, c: ContainerRef)
    requires c.Plain() && o.Plain() && Pods.Filled(p, map[], Pods.ContainerTable(o.pods), Pods.FirstIP(o.pods))
    requires Cadvisor.IsCadvisorTable(a, Items(o.families), o.extract)
    requires t == StatsSummary.AfterPods(StatsSummary.Tables(map[], map[], map[], []), o.stats).containers
    ensures var own := Pods.Said(o.pods, c);
            Lookup(p, c.Key()) == if own.None? then None else Some(Pods.WithIP(own.value, Pods.FirstIP(o.pods)))
    ensures Lookup(a, c.Key()) == Cadvisor.Said(Items(o.families), c, o.extract)
    ensures Lookup(t, c.Key()) == StatsSummary.Said(o.stats, c)
  {
    Pods.PodsSay(o.pods, c);
    assert Pods.FilledSlot(p, map[], Pods.ContainerTable(o.pods), Pods.FirstIP(o.pods), c.Key());
    Cadvisor.SeriesSay(Items(o.families), c, o.extract);
    StatsSummary.StatsSay(o.stats, c, StatsSummary.Containers, []);
  }

  predicate Holds(record: RawMetrics, k: string, v: RawValue) {
    k in record && record[k] == v
  }

  /** Where the value of one metric of c may come from: a container of a pod, an accepted
      series or a stats item, each bearing the three names of c. */
  ghost predicate ComesFrom(c: ContainerRef, k: string, v: RawValue, o: Observed) {
    || (exists p, x, record :: p in o.pods && Pods.SaysOf(p, x, c, record) &&
                               Holds(Pods.WithIP(record, Pods.FirstIP(o.pods)), k, v))
    || (exists it :: it in Items(o.families) && Cadvisor.Names(it, c, o.extract) &&
                     Cadvisor.Reports(it, o.extract, k, v))
    || (exists p, x, record :: p in o.stats && StatsSummary.SaysOf(p, x, c, record) && Holds(record, k, v))
  }

  lemma SaidComesFrom(c: ContainerRef, k: string, o: Observed)
    requires Said(c, o).Some? && k in Said(c, o).value
    ensures ComesFrom(c, k, Said(c, o).value[k], o)
  {
    var own := Pods.WithIP(Pods.Said(o.pods, c).value, Pods.FirstIP(o.pods));
    var series := Cadvisor.Said(Items(o.families), c, o.extract);
    if k in own {
      var p, x := Pods.SaidComesFrom(o.pods, c);
      assert Pods.SaysOf(p, x, c, Pods.Said(o.pods, c).value) && Holds(own, k, own[k]);
    } else if series.Some? && k in series.value {
      var it := Cadvisor.SaidComesFrom(Items(o.families), c, o.extract, k);
    } else {
      var p, x := StatsSummary.SaidComesFrom(o.stats, c);
      var record := StatsSummary.Said(o.stats, c).value;
      assert StatsSummary.SaysOf(p, x, c, record) && Holds(record, k, record[k]);
    }
  }

  /** Every container record is about exactly one container: its key is that of one plain
      container, and each of its values comes from data that names that container. */
  lemma OneContainerPerRecord(s: Sources, o: Observed, e: string) returns (c: ContainerRef)
    requires MadeFrom(s, o) && o.Plain() && e in EntitiesOf(s.Groups(), "container")
    ensures c.Plain() && c.Key() == e && forall d: ContainerRef :: d.Plain() && d.Key() == e ==> d == c
    ensures forall k :: k in s.Groups()["container"][e] ==> ComesFrom(c, k, s.Groups()["container"][e][k], o)
  {
    var record := s.Groups()["container"][e];
    MergedFaithful(s, o);
    assert FaithfulRecord(e, record);
    c :| c.Plain() && c.Key() == e;
    ContainerRecordExact(s, o, c);
    forall d: ContainerRef | d.Plain() && d.Key() == e ensures d == c {
      KeyInjective(d, c);
    }
    forall k | k in record ensures ComesFrom(c, k, record[k], o) {
      SaidComesFrom(c, k, o);
    }
  }

  // ---- the merged groups, metric by metric -------------------------------

  lemma MergedCell(a: Entities, b: Entities, e: string, k: string)
    ensures Cell(MergedEntities(a, b), e, k) ==
            if e !in a then None else if k in a[e] then Some(a[e][k]) else Cell(b, e, k)
    ensures e in MergedEntities(a, b) <==> e in a
  {
  }

  /** Merging the sources, seen from a group that only pods and stats have. */
  lemma MergedTwo(network: RawGroups, a: RawGroups, b: RawGroups, s: RawGroups, n: RawGroups, l: string)
    requires l !in network && l in a && l !in b && l in s && l !in n
    ensures EntitiesOf(MergeAll(network, [a, b, s, n]), l) == MergedEntities(a[l], s[l])
  {
    var g1 := Merged(network, a);
    var g2 := Merged(g1, b);
    var g3 := Merged(g2, s);
    MergedOneGroup(network, a, l);
    MergedOneGroup(g1, b, l);
    MergedOneGroup(g2, s, l);
    MergedOneGroup(g3, n, l);
    assert MergedEntities(a[l], map[]) == a[l];
    assert MergedEntities(g3[l], map[]) == g3[l];
    FourSteps(network, a, b, s, n);
  }

  /** Merging the sources, seen from a group that only the stats have. */
  lemma MergedOne(network: RawGroups, a: RawGroups, b: RawGroups, s: RawGroups, n: RawGroups, l: string)
    requires l !in network && l !in a && l !in b && l in s && l !in n
    ensures EntitiesOf(MergeAll(network, [a, b, s, n]), l) == s[l]
  {
    var g1 := Merged(network, a);
    var g2 := Merged(g1, b);
    var g3 := Merged(g2, s);
    MergedOneGroup(network, a, l);
    MergedOneGroup(g1, b, l);
    MergedOneGroup(g2, s, l);
    MergedOneGroup(g3, n, l);
    assert MergedEntities(g3[l], map[]) == g3[l];
    FourSteps(network, a, b, s, n);
  }

  /** Merging the sources, seen from a group that none of them has. */
  lemma MergedNone(network: RawGroups, a: RawGroups, b: RawGroups, s: RawGroups, n: RawGroups, l: string)
    requires l in network && l !in a && l !in b && l !in s && l !in n
    ensures EntitiesOf(MergeAll(network, [a, b, s, n]), l) == network[l]
  {
    var g1 := Merged(network, a);
    var g2 := Merged(g1, b);
    var g3 := Merged(g2, s);
    MergedOneGroup(network, a, l);
    MergedOneGroup(g1, b, l);
    MergedOneGroup(g2, s, l);
    MergedOneGroup(g3, n, l);
    assert MergedEntities(network[l], map[]) == network[l];
    FourSteps(network, a, b, s, n);
  }

  /** The container table is what was observed: a container is there exactly if a pod lists it,
      and each of its metrics has the value of the pods, else of its last series, else of its
      last stats. Memory series only contribute an image ID. */
  ghost predicate ContainerAsObserved(groups: RawGroups, o: Observed, c: ContainerRef, k: string) {
    var table, listed := EntitiesOf(groups, "container"), Pods.LastListed(o.pods, c);
    var stats := StatsSummary.LastItem(o.stats, c, StatsSummary.Containers);
    var items := Items(o.families);
    var id, image := Cadvisor.IdSeen(items, c, o.extract), Cadvisor.LastImage(items, c, o.extract);
    var series := Cadvisor.LastOf(items, c, k, o.extract);
    && (c.Key() in table <==> listed.Some?)
    && (listed.Some? ==>
          Cell(table, c.Key(), k) ==
          if k == "namespace" then Some(Text(c.namespace))
          else if k == "podName" then Some(Text(c.pod))
          else if k == "nodeName" then Some(Text(listed.value.pod.nodeName))
          else if k == "containerName" then Some(Text(c.name))
          else if k == "nodeIP" then Some(Text(Pods.FirstIP(o.pods)))
          else if k in listed.value.container.extra then Some(listed.value.container.extra[k])
          else if k == "containerID" && id.Some? then id
          else if k == "containerImageID" && image.Some? then image
          else if k != "container_memory_usage_bytes" && series.Some? then Some(Measured(series.value.value))
          else if k == "volumeName" then None
          else if stats.Some? && k in stats.value.item.metrics then Some(stats.value.item.metrics[k])
          else None)
  }

  lemma ContainerCells(s: Sources, o: Observed, c: ContainerRef, k: string)
    requires MadeFrom(s, o) && o.Plain() && c.Plain()
    ensures ContainerAsObserved(s.Groups(), o, c, k)
  {
    var p, a, t := s.fromPods["container"], s.fromCadvisor["container"], s.fromStats["container"];
    var items := Items(o.families);
    MergedContainers(s.network, s.fromPods, s.fromCadvisor, s.fromStats, s.nodeRecord);
    MergedCell(p, a, c.Key(), k);
    MergedCell(MergedEntities(p, a), t, c.Key(), k);
    Pods.ContainerCells(p, o.pods, c, k);
    Cadvisor.MeasurementsArrive(a, items, c, k, o.extract);
    Cadvisor.IdsAreLast(items, c, o.extract);
    StatsSummary.ItemCells(o.stats, c, StatsSummary.Containers, [], k);
  }

  /** The pod table is what was observed. */
  ghost predicate PodAsObserved(groups: RawGroups, o: Observed, namespace: string, name: string, k: string) {
    var table, listed := EntitiesOf(groups, "pod"), Pods.LastPod(o.pods, namespace, name);
    var stats := StatsSummary.LastPod(o.stats, namespace, name);
    && (PodId(namespace, name) in table <==> listed.Some?)
    && (listed.Some? ==>
          Cell(table, PodId(namespace, name), k) ==
          if k == "namespace" then Some(Text(namespace))
          else if k == "podName" then Some(Text(name))
          else if k == "nodeName" then Some(Text(listed.value.nodeName))
          else if k == "nodeIP" then Some(Text(Pods.FirstIP(o.pods)))
          else if k == "containerName" || (k == "volumeName" && k !in listed.value.extra) then None
          else if k in listed.value.extra then Some(listed.value.extra[k])
          else if stats.Some? && k in stats.value.metrics then Some(stats.value.metrics[k])
          else None)
  }

  lemma PodCells(s: Sources, o: Observed, namespace: string, name: string, k: string)
    requires MadeFrom(s, o) && o.Plain() && namespace != "" && name != "" && '_' !in namespace
    ensures PodAsObserved(s.Groups(), o, namespace, name, k)
  {
    var p, t := s.fromPods["pod"], s.fromStats["pod"];
    MergedTwo(s.network, s.fromPods, s.fromCadvisor, s.fromStats, s.nodeRecord, "pod");
    MergedCell(p, t, PodId(namespace, name), k);
    Pods.PodCells(p, o.pods, namespace, name, k);
    StatsSummary.PodCells(o.stats, namespace, name, [], k);
  }

  /** The volume table is that of the stats. */
  ghost predicate VolumeAsObserved(groups: RawGroups, o: Observed, v: ContainerRef, k: string) {
    var last := StatsSummary.LastItem(o.stats, v, StatsSummary.Volumes);
    Cell(EntitiesOf(groups, "volume"), v.Key(), k) ==
    if last.None? then None
    else if k == "namespace" then Some(Text(v.namespace))
    else if k == "podName" then Some(Text(v.pod))
    else if k == "volumeName" then Some(Text(v.name))
    else if k != "containerName" && k in last.value.item.metrics then Some(last.value.item.metrics[k])
    else None
  }

  lemma VolumeCells(s: Sources, o: Observed, v: ContainerRef, k: string)
    requires MadeFrom(s, o) && o.Plain() && v.Plain()
    ensures VolumeAsObserved(s.Groups(), o, v, k)
  {
    MergedOne(s.network, s.fromPods, s.fromCadvisor, s.fromStats, s.nodeRecord, "volume");
    StatsSummary.ItemCells(o.stats, v, StatsSummary.Volumes, [], k);
  }

  /** The node is what was observed: its stats, else what the API and the merged groups give. */
  ghost predicate NodeAsObserved(groups: RawGroups, o: Observed, node: Node, k: string) {
    var containers, pods := EntitiesOf(groups, "container"), EntitiesOf(groups, "pod");
    Cell(EntitiesOf(groups, "node"), o.node.name, k) ==
    if k == "nodeName" then Some(Text(o.node.name))
    else if k in o.node.metrics && k !in {"namespace", "podName", "containerName", "volumeName"}
    then Some(o.node.metrics[k])
    else if k == "labels" then Some(Other(node.labels))
    else if k == "allocatable" then Some(Other(node.allocatable))
    else if k == "capacity" then Some(Other(node.capacity))
    else if k == "unschedulable" then Some(Other(node.unschedulable))
    else if k == "kubeletVersion" then Some(Text(node.kubeletVersion))
    else if k == "conditions" then Some(ConditionTable(Conditions(node.conditions)))
    else if k == "memoryRequestedBytes" || k == "cpuRequestedCores" then
      Some(Number(Wrap64(TotalRequested(containers, containers.Keys, k))))
    else if k == "runningPods" then
      Some(Number(|set p | p in pods && "status" in pods[p] && pods[p]["status"] == Text("Running")|))
    else None
  }

  lemma ThreeSources(d: RawGroups, a: RawGroups, b: RawGroups, s: RawGroups, l: string)
    requires l !in d && l !in a && l !in b && l in s
    ensures l in MergeAll(d, [a, b, s]) && MergeAll(d, [a, b, s])[l] == s[l]
  {
    var g1 := Merged(d, a);
    MergeAllStep(d, a, [b, s]);
    MergeAllStep(g1, b, [s]);
    MergeAllStep(Merged(g1, b), s, []);
    assert [a] + [b, s] == [a, b, s] && [b] + [s] == [b, s] && [s] + [] == [s];
    MergedOneGroup(d, a, l);
    MergedOneGroup(g1, b, l);
    MergedOneGroup(Merged(g1, b), s, l);
  }

  lemma NodeCells(network: RawGroups, a: RawGroups, b: RawGroups, t: RawGroups, node: Node, o: Observed, k: string)
    requires "node" !in network && "node" !in a && "node" !in b && FromStats(t, o.stats, o.node)
    ensures NodeAsObserved(MergeAll(network, [a, b, t] + [NodeGroups(o.node.name, node, MergeAll(network, [a, b, t]))]),
                           o, node, k)
  {
    ThreeSources(network, a, b, t, "node");
    var merged := MergeAll(network, [a, b, t]);
    var record := StatsSummary.NodeRecord(o.node);
    assert t["node"][o.node.name] == record;
    assert merged["node"][o.node.name] == record;
    NodeExact(network, [a, b, t], o.node.name, node, k);
    StatsNode(o.node, k);
  }

  lemma StatsNode(node: StatsSummary.ItemStats, k: string)
    ensures var record := StatsSummary.NodeRecord(node);
            (if k in record then Some(record[k]) else None) ==
            if k == "nodeName" then Some(Text(node.name))
            else if k in node.metrics && k !in {"namespace", "podName", "containerName", "volumeName"}
            then Some(node.metrics[k])
            else None
  {
  }

  // ---- the grouper's result ----------------------------------------------

  /** The groups are what was observed, for every container, pod and volume, the node, and every
      metric of each. */
  ghost predicate AsObserved(groups: RawGroups, o: Observed, node: Node) {
    && (forall c: ContainerRef, k :: c.Plain() ==> ContainerAsObserved(groups, o, c, k))
    && (forall namespace, name, k :: namespace != "" && name != "" && '_' !in namespace ==>
                                       PodAsObserved(groups, o, namespace, name, k))
    && (forall v: ContainerRef, k :: v.Plain() ==> VolumeAsObserved(groups, o, v, k))
    && (forall k :: NodeAsObserved(groups, o, node, k))
  }

  lemma AllContainers(s: Sources, o: Observed)
    requires MadeFrom(s, o) && o.Plain()
    ensures forall c: ContainerRef, k :: c.Plain() ==> ContainerAsObserved(s.Groups(), o, c, k)
  {
    forall c: ContainerRef, k | c.Plain() ensures ContainerAsObserved(s.Groups(), o, c, k) {
      ContainerCells(s, o, c, k);
    }
  }

  lemma AllPods(s: Sources, o: Observed)
    requires MadeFrom(s, o) && o.Plain()
    ensures forall namespace, name, k :: namespace != "" && name != "" && '_' !in namespace ==>
                                           PodAsObserved(s.Groups(), o, namespace, name, k)
  {
    forall namespace, name, k | namespace != "" && name != "" && '_' !in namespace
      ensures PodAsObserved(s.Groups(), o, namespace, name, k)
    {
      PodCells(s, o, namespace, name, k);
    }
  }

  lemma AllVolumes(s: Sources, o: Observed)
    requires MadeFrom(s, o) && o.Plain()
    ensures forall v: ContainerRef, k :: v.Plain() ==> VolumeAsObserved(s.Groups(), o, v, k)
  {
    forall v: ContainerRef, k | v.Plain() ensures VolumeAsObserved(s.Groups(), o, v, k) {
      VolumeCells(s, o, v, k);
    }
  }

  lemma WholeNode(s: Sources, o: Observed, node: Node)
    requires MadeFrom(s, o)
    requires s.nodeRecord == NodeGroups(o.node.name, node,
                                        MergeAll(s.network, [s.fromPods, s.fromCadvisor, s.fromStats]))
    ensures forall k :: NodeAsObserved(s.Groups(), o, node, k)
  {
    assert [s.fromPods, s.fromCadvisor, s.fromStats] + [s.nodeRecord] ==
           [s.fromPods, s.fromCadvisor, s.fromStats, s.nodeRecord];
    forall k ensures NodeAsObserved(s.Groups(), o, node, k) {
      NodeCells(s.network, s.fromPods, s.fromCadvisor, s.fromStats, node, o, k);
    }
  }

  lemma SourcesAsObserved(s: Sources, o: Observed, node: Node)
    requires MadeFrom(s, o) && o.Plain()
    requires s.nodeRecord == NodeGroups(o.node.name, node,
                                        MergeAll(s.network, [s.fromPods, s.fromCadvisor, s.fromStats]))
    ensures AsObserved(s.Groups(), o, node)
  {
    AllContainers(s, o);
    AllPods(s, o);
    AllVolumes(s, o);
    WholeNode(s, o, node);
  }

  /** The fetchers deliver what was observed, if they deliver at all. */
  ghost predicate Fetch(pods: FetchOutcome, cadvisor: FetchOutcome, stats: StatsOutcome, o: Observed) {
    && (!pods.Failed? ==> FromPods(pods.groups, o.pods))
    && (!cadvisor.Failed? ==> FromCadvisor(cadvisor.groups, o.families, o.extract))
    && (stats.Stats? ==> FromStats(stats.groups, o.stats, o.node) && stats.nodeName == o.node.name)
  }

  /** The scraper's grouping of pods, cAdvisor and stats: on success, the groups are exactly what
      was observed, and the record of every container what was observed under its own names. */
  method GroupKubelet(defaultInterface: string, pods: FetchOutcome, cadvisor: FetchOutcome, stats: StatsOutcome,
                      node: Option<Node>, ghost o: Observed)
    returns (r: GroupResult, ghost s: Sources)
    requires Fetch(pods, cadvisor, stats, o) && o.Plain()
    ensures !r.Aborted? <==> !pods.Failed? && !cadvisor.Failed? && stats.Stats? && node.Some?
    ensures r.Grouped? ==> MadeFrom(s, o) && r.groups == s.Groups()
    ensures r.Grouped? ==> forall c: ContainerRef :: c.Plain() ==>
              Lookup(EntitiesOf(r.groups, "container"), c.Key()) == Said(c, o)
    ensures r.Grouped? ==> AsObserved(r.groups, o, node.value)
    ensures r.Grouped? ==>
              EntitiesOf(r.groups, "network") == map["interfaces" := map["default" := Text(defaultInterface)]]
  {
    r := Group(defaultInterface, [pods, cadvisor], stats, node);
    s := Sources(map[], map[], map[], map[], map[]);
    BothFetched(pods, cadvisor);
    if r.Grouped? {
      ghost var merged := MergedSources(defaultInterface, [pods, cadvisor], stats);
      NodeGroupsKeys(stats.nodeName, node.value, merged);
      s := SourcesOf(NetworkGroups(defaultInterface), pods, cadvisor, stats,
                     NodeGroups(stats.nodeName, node.value, merged), o);
      AllRecordsExact(s, o);
      SourcesAsObserved(s, o, node.value);
      NetworkStays(s, o, defaultInterface);
    }
  }

  lemma NetworkStays(s: Sources, o: Observed, defaultInterface: string)
    requires MadeFrom(s, o) && s.network == NetworkGroups(defaultInterface)
    ensures EntitiesOf(s.Groups(), "network") == map["interfaces" := map["default" := Text(defaultInterface)]]
  {
    MergedNone(s.network, s.fromPods, s.fromCadvisor, s.fromStats, s.nodeRecord, "network");
  }

  lemma AllRecordsExact(s: Sources, o: Observed)
    requires MadeFrom(s, o) && o.Plain()
    ensures forall c: ContainerRef :: c.Plain() ==> Lookup(EntitiesOf(s.Groups(), "container"), c.Key()) == Said(c, o)
  {
    forall c: ContainerRef | c.Plain() ensures Lookup(EntitiesOf(s.Groups(), "container"), c.Key()) == Said(c, o) {
      ContainerRecordExact(s, o, c);
    }
  }

  lemma SourcesOf(network: RawGroups, pods: FetchOutcome, cadvisor: FetchOutcome, stats: StatsOutcome,
                  record: RawGroups, o: Observed)
    returns (s: Sources)
    requires network.Keys == {"network"} && record.Keys == {"node"}
    requires AllFetched([pods, cadvisor]) && stats.Stats? && Fetch(pods, cadvisor, stats, o)
    ensures MadeFrom(s, o) && s.Groups() == MergeAll(network, Delivered([pods, cadvisor]) + [stats.groups] + [record])
    ensures s.network == network && s.nodeRecord == record
    ensures Delivered([pods, cadvisor]) + [stats.groups] == [s.fromPods, s.fromCadvisor, s.fromStats]
  {
    BothFetched(pods, cadvisor);
    s := Sources(network, pods.groups, cadvisor.groups, stats.groups, record);
    assert Delivered([pods, cadvisor]) == [pods.groups, cadvisor.groups];
    assert [pods.groups, cadvisor.groups] + [stats.groups] + [record] ==
           [pods.groups, cadvisor.groups, stats.groups, record];
  }

  lemma BothFetched(pods: FetchOutcome, cadvisor: FetchOutcome)
    ensures AllFetched([pods, cadvisor]) <==> !pods.Failed? && !cadvisor.Failed?
  {
    var fetched := [pods, cadvisor];
    assert fetched[0] == pods && fetched[1] == cadvisor;
  }

  lemma NodeGroupsKeys(nodeName: string, node: Node, merged: RawGroups)
    ensures NodeGroups(nodeName, node, merged).Keys == {"node"}
  {
  }

  // ---- from the answers to the groups ------------------------------------

  /** DoPodsFetch: the gaps of the listed pods are filled in empty tables. */
  method FetchPods(pods: seq<Pods.Pod>) returns (g: RawGroups)
    ensures FromPods(g, pods)
  {
    g := Pods.FillGaps(map["pod" := map[], "container" := map[]], pods);
  }

  /** CadvisorFetchFunc: faults do not keep the groups from being delivered. */
  method FetchCadvisor(families: seq<MetricFamily>, extract: string -> string) returns (r: FetchOutcome)
    ensures !r.Failed? && FromCadvisor(r.groups, families, extract)
  {
    var table, errs := Cadvisor.GroupContainers(families, extract);
    var g: RawGroups := map["container" := table];
    r := if errs == [] then Fetched(g) else Partial(g);
  }

  /** Any fault in the stats means no stats at all. */
  method FetchStats(summary: StatsSummary.Summary) returns (r: StatsOutcome)
    ensures r.Stats? <==> StatsSummary.TablesOf(summary).errs == []
    ensures r.Stats? ==> r.nodeName == summary.node.name && summary.pods.Some? &&
                         FromStats(r.groups, summary.pods.value, summary.node)
  {
    var g, errs := StatsSummary.GroupStatsSummary(Some(summary));
    if errs != [] {
      return StatsErrors;
    }
    StatsSummary.NoErrors(summary);
    r := Stats(summary.node.name, g.value);
  }

  /** The whole grouping: the three sources built by their own loops from the answers and
      merged. Whatever is grouped is what was observed. */
  method ScrapeKubelet(defaultInterface: string, o: Observed, node: Option<Node>) returns (r: GroupResult)
    requires o.Plain()
    ensures r.Aborted? <==>
            node.None? || StatsSummary.TablesOf(StatsSummary.Summary(o.node, Some(o.stats))).errs != []
    ensures r.Grouped? ==> AsObserved(r.groups, o, node.value)
    ensures r.Grouped? ==>
              EntitiesOf(r.groups, "network") == map["interfaces" := map["default" := Text(defaultInterface)]]
  {
    var pods := FetchPods(o.pods);
    var cadvisor := FetchCadvisor(o.families, o.extract);
    var stats := FetchStats(StatsSummary.Summary(o.node, Some(o.stats)));
    ghost var s;
    r, s := GroupKubelet(defaultInterface, Fetched(pods), cadvisor, stats, node, o);
  }
}
