/** grouper.Group: fetch, merge in a fixed order, derive the node record, merge it last
    (src/kubelet/grouper/group.go). Fetched data and API answers are inputs. */
module KubeletGrouper {
  import opened RawData
  import opened KubeletMerge
  import opened NodeData

  /** What a fetcher returned: an ErrorGroup still delivers its groups. */
  datatype FetchOutcome = Fetched(groups: RawGroups) | Partial(groups: RawGroups) | Failed

  datatype StatsOutcome = Stats(nodeName: string, groups: RawGroups) | StatsErrors | NoStats

  datatype Node = Node(labels: int, allocatable: int, capacity: int, conditions: seq<Condition>,
                       unschedulable: int, kubeletVersion: string)

  /** Panicked stands for the type assertion on a request that is not a number. */
  datatype GroupResult = Grouped(groups: RawGroups) | Aborted(recoverable: bool) | Panicked

  function NetworkGroups(defaultInterface: string): RawGroups {
    map["network" := map["interfaces" := map["default" := Text(defaultInterface)]]]
  }

  /** The node's fields derived from the API object and the merged groups. */
  ghost function NodeFields(node: Node, merged: RawGroups): RawMetrics {
    var containers, pods := EntitiesOf(merged, "container"), EntitiesOf(merged, "pod");
    map[
      "labels" := Other(node.labels),
      "allocatable" := Other(node.allocatable),
      "capacity" := Other(node.capacity),
      "memoryRequestedBytes" := Number(Wrap64(TotalRequested(containers, containers.Keys, "memoryRequestedBytes"))),
      "cpuRequestedCores" := Number(Wrap64(TotalRequested(containers, containers.Keys, "cpuRequestedCores"))),
      "conditions" := ConditionTable(Conditions(node.conditions)),
      "unschedulable" := Other(node.unschedulable),
      "kubeletVersion" := Text(node.kubeletVersion),
      "runningPods" := Number(|set p | p in pods && IsRunning(pods[p])|)]
  }

  ghost function NodeGroups(nodeName: string, node: Node, merged: RawGroups): RawGroups {
    map["node" := map[nodeName := NodeFields(node, merged)]]
  }

  function Delivered(fetched: seq<FetchOutcome>): seq<RawGroups>
    requires AllFetched(fetched)
  {
    seq(|fetched|, i requires 0 <= i < |fetched| => fetched[i].groups)
  }

  lemma {:induction false} MergeAllSnoc(d: RawGroups, sources: seq<RawGroups>, s: RawGroups)
    ensures MergeAll(d, sources + [s]) == Merged(MergeAll(d, sources), s)
    decreases |sources|
  {
    if sources == [] {
      assert [s][1..] == [] && sources + [s] == [s];
    } else {
      assert (sources + [s])[1..] == sources[1..] + [s];
      MergeAllSnoc(Merged(d, sources[0]), sources[1..], s);
    }
  }

  ghost predicate RequestsAreNumbers(groups: RawGroups) {
    && Summable(EntitiesOf(groups, "container"), "memoryRequestedBytes")
    && Summable(EntitiesOf(groups, "container"), "cpuRequestedCores")
  }

  predicate AllFetched(fetched: seq<FetchOutcome>) {
    forall i :: 0 <= i < |fetched| ==> !fetched[i].Failed?
  }

  /** The groups after the fetched sources and the stats. */
  function MergedSources(defaultInterface: string, fetched: seq<FetchOutcome>, stats: StatsOutcome): RawGroups
    requires AllFetched(fetched) && stats.Stats?
  {
    MergeAll(NetworkGroups(defaultInterface), Delivered(fetched) + [stats.groups])
  }

  /** On success the groups are the fold of all sources in order, the node record last;
      a failed fetch, failed stats or a failed node lookup aborts. */
  method Group(defaultInterface: string, fetched: seq<FetchOutcome>, stats: StatsOutcome, node: Option<Node>)
    returns (r: GroupResult)
    ensures !r.Aborted? <==> AllFetched(fetched) && stats.Stats? && node.Some?
    ensures !r.Aborted? ==> (r.Grouped? <==> RequestsAreNumbers(MergedSources(defaultInterface, fetched, stats)))
    ensures r.Grouped? ==>
              r.groups == MergeAll(NetworkGroups(defaultInterface),
                                   Delivered(fetched) + [stats.groups] +
                                   [NodeGroups(stats.nodeName, node.value,
                                               MergedSources(defaultInterface, fetched, stats))])
    ensures r == Aborted(true) <==> AllFetched(fetched) && stats.StatsErrors?
  {
    ghost var base := NetworkGroups(defaultInterface);
    var store := new GroupStore(NetworkGroups(defaultInterface));
    for i := 0 to |fetched|
      invariant AllFetched(fetched[..i])
      invariant store.groups == MergeAll(base, Delivered(fetched[..i]))
    {
      if fetched[i].Failed? {
        return Aborted(false);
      }
      store.FillGroupsAndMergeNonExistent(fetched[i].groups);
      MergeAllSnoc(base, Delivered(fetched[..i]), fetched[i].groups);
      assert Delivered(fetched[..i + 1]) == Delivered(fetched[..i]) + [fetched[i].groups];
    }
    assert fetched[..|fetched|] == fetched;
    if !stats.Stats? {
      return Aborted(stats.StatsErrors?);
    }
    store.FillGroupsAndMergeNonExistent(stats.groups);
    MergeAllSnoc(base, Delivered(fetched), stats.groups);
    if node.None? {
      return Aborted(false);
    }
    ghost var merged := store.groups;
    var record := NodeRecord(stats.nodeName, node.value, store.groups);
    if record.None? {
      return Panicked;
    }
    store.FillGroupsAndMergeNonExistent(record.value);
    MergeAllSnoc(base, Delivered(fetched) + [stats.groups], record.value);
    return Grouped(store.groups);
  }

  method NodeRecord(nodeName: string, node: Node, merged: RawGroups) returns (g: Option<RawGroups>)
    ensures g == if RequestsAreNumbers(merged) then Some(NodeGroups(nodeName, node, merged)) else None
  {
    var memory := SumRequested(EntitiesOf(merged, "container"), "memoryRequestedBytes");
    var cpu := SumRequested(EntitiesOf(merged, "container"), "cpuRequestedCores");
    if memory.None? || cpu.None? {
      return None;
    }
    var conditions := NodeConditions(node.conditions);
    var running := CountRunningPods(EntitiesOf(merged, "pod"));
    g := Some(map["node" := map[nodeName := map[
      "labels" := Other(node.labels),
      "allocatable" := Other(node.allocatable),
      "capacity" := Other(node.capacity),
      "memoryRequestedBytes" := Number(memory.value),
      "cpuRequestedCores" := Number(cpu.value),
      "conditions" := ConditionTable(conditions),
      "unschedulable" := Other(node.unschedulable),
      "kubeletVersion" := Text(node.kubeletVersion),
      "runningPods" := Number(running)]]]);
  }

  /** A field of the record merged last reaches the node iff no earlier source has it. */
  lemma LastFills(d: RawGroups, nodeName: string, fields: RawMetrics, key: string)
    requires nodeName in EntitiesOf(d, "node")
    ensures var filled: RawGroups := Merged(d, map["node" := map[nodeName := fields]]);
            Cell(EntitiesOf(filled, "node"), nodeName, key) ==
            if key in d["node"][nodeName] then Some(d["node"][nodeName][key])
            else if key in fields then Some(fields[key])
            else None
    ensures var filled: RawGroups := Merged(d, map["node" := map[nodeName := fields]]);
            forall l :: l != "node" ==> EntitiesOf(filled, l) == EntitiesOf(d, l)
  {
  }

  /** The final node, metric by metric: what some source delivered for it, else what is derived
      from the API object and the merged containers and pods. Each request total is the one of
      its own resource. */
  lemma NodeExact(base: RawGroups, sources: seq<RawGroups>, nodeName: string, node: Node, key: string)
    requires nodeName in EntitiesOf(MergeAll(base, sources), "node")
    ensures var merged := MergeAll(base, sources);
            var final := MergeAll(base, sources + [NodeGroups(nodeName, node, merged)]);
            var containers, pods := EntitiesOf(merged, "container"), EntitiesOf(merged, "pod");
            && (forall l :: l != "node" ==> EntitiesOf(final, l) == EntitiesOf(merged, l))
            && Cell(EntitiesOf(final, "node"), nodeName, key) ==
               if key in merged["node"][nodeName] then Some(merged["node"][nodeName][key])
               else if key == "labels" then Some(Other(node.labels))
               else if key == "allocatable" then Some(Other(node.allocatable))
               else if key == "capacity" then Some(Other(node.capacity))
               else if key == "unschedulable" then Some(Other(node.unschedulable))
               else if key == "kubeletVersion" then Some(Text(node.kubeletVersion))
               else if key == "conditions" then Some(ConditionTable(Conditions(node.conditions)))
               else if key == "memoryRequestedBytes" || key == "cpuRequestedCores" then
                 Some(Number(Wrap64(TotalRequested(containers, containers.Keys, key))))
               else if key == "runningPods" then
                 Some(Number(|set p | p in pods && "status" in pods[p] && pods[p]["status"] == Text("Running")|))
               else None
  {
    var merged := MergeAll(base, sources);
    MergeAllSnoc(base, sources, NodeGroups(nodeName, node, merged));
    FieldsExact(node, merged, key);
    LastFills(merged, nodeName, NodeFields(node, merged), key);
  }

  /** The fields taken from the API object. */
  lemma ApiFields(node: Node, merged: RawGroups)
    ensures var f := NodeFields(node, merged);
            && f.Keys == {"labels", "allocatable", "capacity", "unschedulable", "kubeletVersion", "conditions",
                          "memoryRequestedBytes", "cpuRequestedCores", "runningPods"}
            && f["labels"] == Other(node.labels) && f["allocatable"] == Other(node.allocatable)
            && f["capacity"] == Other(node.capacity) && f["unschedulable"] == Other(node.unschedulable)
            && f["kubeletVersion"] == Text(node.kubeletVersion)
            && f["conditions"] == ConditionTable(Conditions(node.conditions))
  {
  }

  /** The fields derived from the merged groups. */
  lemma DerivedFields(node: Node, merged: RawGroups)
    ensures var f := NodeFields(node, merged);
            var containers, pods := EntitiesOf(merged, "container"), EntitiesOf(merged, "pod");
            && "memoryRequestedBytes" in f && "cpuRequestedCores" in f && "runningPods" in f
            && f["memoryRequestedBytes"] ==
               Number(Wrap64(TotalRequested(containers, containers.Keys, "memoryRequestedBytes")))
            && f["cpuRequestedCores"] ==
               Number(Wrap64(TotalRequested(containers, containers.Keys, "cpuRequestedCores")))
            && f["runningPods"] ==
               Number(|set p | p in pods && "status" in pods[p] && pods[p]["status"] == Text("Running")|)
  {
    var pods := EntitiesOf(merged, "pod");
    assert (set p | p in pods && IsRunning(pods[p])) ==
           set p | p in pods && "status" in pods[p] && pods[p]["status"] == Text("Running");
  }

  lemma FieldsExact(node: Node, merged: RawGroups, key: string)
    ensures var f := NodeFields(node, merged);
            var containers, pods := EntitiesOf(merged, "container"), EntitiesOf(merged, "pod");
            (if key in f then Some(f[key]) else None) ==
            if key == "labels" then Some(Other(node.labels))
            else if key == "allocatable" then Some(Other(node.allocatable))
            else if key == "capacity" then Some(Other(node.capacity))
            else if key == "unschedulable" then Some(Other(node.unschedulable))
            else if key == "kubeletVersion" then Some(Text(node.kubeletVersion))
            else if key == "conditions" then Some(ConditionTable(Conditions(node.conditions)))
            else if key == "memoryRequestedBytes" || key == "cpuRequestedCores" then
              Some(Number(Wrap64(TotalRequested(containers, containers.Keys, key))))
            else if key == "runningPods" then
              Some(Number(|set p | p in pods && "status" in pods[p] && pods[p]["status"] == Text("Running")|))
            else None
  {
    ApiFields(node, merged);
    DerivedFields(node, merged);
  }
}
