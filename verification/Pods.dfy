/** The pods source: records of pods and containers, and fillGaps, which gives every
    record a node IP (src/kubelet/metric/pods.go). */
module Pods {
  import opened RawData
  import opened EntityKeys

  /** A container spec; extra holds image, resources, status and labels. */
  datatype Container = Container(name: string, extra: RawMetrics)

  /** A pod; containers lists its containers and sidecars, extra its remaining metrics. */
  datatype Pod = Pod(namespace: string, name: string, nodeName: string, hostIP: string,
                     extra: RawMetrics, containers: seq<Container>)

  const RESERVED := {"namespace", "podName", "nodeName", "nodeIP", "containerName"}

  function HostFields(p: Pod): RawMetrics {
    map["namespace" := Text(p.namespace), "podName" := Text(p.name), "nodeName" := Text(p.nodeName)] +
    (if p.hostIP != "" then map["nodeIP" := Text(p.hostIP)] else map[])
  }

  /** fetchPodData */
  function PodRecord(p: Pod): RawMetrics {
    (p.extra - RESERVED) + HostFields(p)
  }

  function ContainerRecord(p: Pod, c: Container): RawMetrics {
    (c.extra - RESERVED) + HostFields(p) + map["containerName" := Text(c.name)]
  }

  /** fetchContainersData: a repeated name keeps the last record. */
  function ContainersUpTo(p: Pod, n: nat): Entities
    requires n <= |p.containers|
  {
    if n == 0 then map[] else
      var c := p.containers[n - 1];
      ContainersUpTo(p, n - 1)[ContainerId(p.namespace, p.name, c.name) := ContainerRecord(p, c)]
  }

  function ContainersOf(p: Pod): Entities {
    ContainersUpTo(p, |p.containers|)
  }

  method FetchContainersData(p: Pod) returns (metrics: Entities)
    ensures metrics == ContainersOf(p)
  {
    metrics := map[];
    for i := 0 to |p.containers|
      invariant metrics == ContainersUpTo(p, i)
    {
      var id := ContainerId(p.namespace, p.name, p.containers[i].name);
      metrics := metrics[id := ContainerRecord(p, p.containers[i])];
    }
  }

  /** The records before gaps are filled; a repeated ID keeps the last record. */
  function PodTable(pods: seq<Pod>): Entities {
    if pods == [] then map[] else
      var p := pods[|pods| - 1];
      PodTable(pods[..|pods| - 1])[PodId(p.namespace, p.name) := PodRecord(p)]
  }

  function ContainerTable(pods: seq<Pod>): Entities {
    if pods == [] then map[] else ContainerTable(pods[..|pods| - 1]) + ContainersOf(pods[|pods| - 1])
  }

  /** The first non-empty host IP in list order. */
  function FirstIP(pods: seq<Pod>): string {
    if pods == [] then ""
    else if FirstIP(pods[..|pods| - 1]) != "" then FirstIP(pods[..|pods| - 1])
    else pods[|pods| - 1].hostIP
  }

  function WithIP(record: RawMetrics, ip: string): RawMetrics {
    record["nodeIP" := Text(ip)]
  }

  // ---- filling gaps ------------------------------------------------------

  /** One entity while gaps are filled: a wanted record, except perhaps for the node IP,
      either complete or waiting in the pending list; anything else as it was before. */
  ghost predicate Slot(table: Entities, before: Entities, wanted: Entities, pending: seq<string>, ip: string,
                       e: string) {
    if e in wanted then
      && e in table && WithIP(table[e], ip) == WithIP(wanted[e], ip)
      && (e in pending || (ip != "" && table[e] == WithIP(wanted[e], ip)))
    else
      && e !in pending && (e in table <==> e in before) && (e in before ==> table[e] == before[e])
  }

  ghost predicate Filling(table: Entities, before: Entities, wanted: Entities, pending: seq<string>, ip: string) {
    forall e :: Slot(table, before, wanted, pending, ip, e)
  }

  lemma LearnIP(table: Entities, before: Entities, wanted: Entities, pending: seq<string>, ip: string)
    requires Filling(table, before, wanted, pending, "")
    ensures Filling(table, before, wanted, pending, ip)
  {
    forall e ensures Slot(table, before, wanted, pending, ip, e) {
      assert Slot(table, before, wanted, pending, "", e);
      if e in wanted {
        assert WithIP(table[e], ip) == WithIP(WithIP(table[e], ""), ip);
        assert WithIP(wanted[e], ip) == WithIP(WithIP(wanted[e], ""), ip);
      }
    }
  }

  /** Storing a record that has to wait for an IP. */
  lemma StorePending(table: Entities, before: Entities, wanted: Entities, pending: seq<string>, e: string,
                     record: RawMetrics)
    requires Filling(table, before, wanted, pending, "")
    ensures Filling(table[e := record], before, wanted[e := record], pending + [e], "")
  {
    var t, w, p := table[e := record], wanted[e := record], pending + [e];
    forall x ensures Slot(t, before, w, p, "", x) {
      assert Slot(table, before, wanted, pending, "", x);
    }
  }

  /** Storing a record complete with the IP. */
  lemma StoreComplete(table: Entities, before: Entities, wanted: Entities, pending: seq<string>, ip: string,
                      e: string, record: RawMetrics)
    requires Filling(table, before, wanted, pending, ip) && ip != ""
    ensures Filling(table[e := WithIP(record, ip)], before, wanted[e := record], pending, ip)
  {
    assert WithIP(WithIP(record, ip), ip) == WithIP(record, ip);
    var t, w := table[e := WithIP(record, ip)], wanted[e := record];
    forall x ensures Slot(t, before, w, pending, ip, x) {
      assert Slot(table, before, wanted, pending, ip, x);
    }
  }

  /** Stores one record; an IP it brings is used if none is known yet. */
  method Store(table: Entities, pending: seq<string>, ip: string, e: string, record: RawMetrics,
               ghost before: Entities, ghost wanted: Entities)
    returns (r: Entities, waiting: seq<string>, found: string)
    requires Filling(table, before, wanted, pending, ip)
    requires "nodeIP" in record ==> record["nodeIP"].Text?
    ensures found == if ip == "" && "nodeIP" in record then record["nodeIP"].text else ip
    ensures Filling(r, before, wanted[e := record], waiting, found)
  {
    found := ip;
    if "nodeIP" in record && found == "" {
      found := record["nodeIP"].text;
      LearnIP(table, before, wanted, pending, found);
    }
    if found == "" {
      StorePending(table, before, wanted, pending, e, record);
      r, waiting := table[e := record], pending + [e];
    } else {
      StoreComplete(table, before, wanted, pending, found, e, record);
      r, waiting := table[e := WithIP(record, found)], pending;
    }
  }

  /** The closing loops over the pending IDs. */
  method FillPending(table: Entities, pending: seq<string>, ip: string, ghost before: Entities, ghost wanted: Entities)
    returns (r: Entities)
    requires Filling(table, before, wanted, pending, ip)
    ensures Filled(r, before, wanted, ip)
  {
    r := table;
    forall e | e in pending ensures e in wanted && e in table {
      assert Slot(table, before, wanted, pending, ip, e);
    }
    for i := 0 to |pending|
      invariant forall e :: e in r <==> e in table
      invariant forall e :: e in table ==> r[e] == if e in pending[..i] then WithIP(wanted[e], ip) else table[e]
    {
      var id := pending[i];
      assert id in pending && Slot(table, before, wanted, pending, ip, id);
      assert pending[..i + 1] == pending[..i] + [id];
      assert WithIP(WithIP(wanted[id], ip), ip) == WithIP(wanted[id], ip);
      r := r[id := WithIP(r[id], ip)];
    }
    assert pending[..|pending|] == pending;
    forall e ensures FilledSlot(r, before, wanted, ip, e) {
      assert Slot(table, before, wanted, pending, ip, e);
    }
  }

  /** The inner loop over one pod's containers, in an arbitrary order. */
  method StoreContainers(table: Entities, pending: seq<string>, containers: Entities, ip: string,
                         ghost before: Entities, ghost wanted: Entities)
    returns (r: Entities, waiting: seq<string>, found: string)
    requires Filling(table, before, wanted, pending, ip)
    requires forall e :: e in containers && "nodeIP" in containers[e] ==> containers[e]["nodeIP"].Text?
    ensures Filling(r, before, wanted + containers, waiting, found)
    ensures ip != "" || (forall e :: e in containers ==> "nodeIP" !in containers[e]) ==> found == ip
  {
    r, waiting, found := table, pending, ip;
    ghost var got := wanted;
    var todo := containers.Keys;
    while todo != {}
      invariant todo <= containers.Keys
      invariant forall e :: e in got <==> e in wanted || (e in containers && e !in todo)
      invariant forall e :: e in got ==> got[e] == if e in containers && e !in todo then containers[e] else wanted[e]
      invariant Filling(r, before, got, waiting, found)
      invariant ip != "" || (forall e :: e in containers ==> "nodeIP" !in containers[e]) ==> found == ip
      decreases todo
    {
      var id :| id in todo;
      r, waiting, found := Store(r, waiting, found, id, containers[id], before, got);
      got := got[id := containers[id]];
      todo := todo - {id};
    }
    assert got == wanted + containers;
  }

  lemma {:induction false} ContainersIP(p: Pod, n: nat)
    requires n <= |p.containers|
    ensures forall e :: e in ContainersUpTo(p, n) ==>
                          var record := ContainersUpTo(p, n)[e];
                          if p.hostIP == "" then "nodeIP" !in record
                          else "nodeIP" in record && record["nodeIP"] == Text(p.hostIP)
  {
    if n > 0 {
      ContainersIP(p, n - 1);
    }
  }

  /** A wanted record with the node IP, or what was there before. */
  ghost predicate FilledSlot(table: Entities, before: Entities, wanted: Entities, ip: string, e: string) {
    if e in wanted then e in table && table[e] == WithIP(wanted[e], ip)
    else (e in table <==> e in before) && (e in before ==> table[e] == before[e])
  }

  ghost predicate Filled(table: Entities, before: Entities, wanted: Entities, ip: string) {
    forall e :: FilledSlot(table, before, wanted, ip, e)
  }

  /** The loop body for one pod. */
  method StorePod(p: Pod, pods: Entities, missingPods: seq<string>, containers: Entities,
                  missingContainers: seq<string>, ip: string, ghost before: RawGroups, ghost wantedPods: Entities,
                  ghost wantedContainers: Entities)
    returns (pods': Entities, missingPods': seq<string>, containers': Entities, missingContainers': seq<string>,
             ip': string)
    requires "pod" in before && "container" in before
    requires Filling(pods, before["pod"], wantedPods, missingPods, ip)
    requires Filling(containers, before["container"], wantedContainers, missingContainers, ip)
    ensures ip' == if ip != "" then ip else p.hostIP
    ensures Filling(pods', before["pod"], wantedPods[PodId(p.namespace, p.name) := PodRecord(p)], missingPods', ip')
    ensures Filling(containers', before["container"], wantedContainers + ContainersOf(p), missingContainers', ip')
  {
    pods', missingPods', ip' :=
      Store(pods, missingPods, ip, PodId(p.namespace, p.name), PodRecord(p), before["pod"], wantedPods);
    if ip == "" {
      LearnIP(containers, before["container"], wantedContainers, missingContainers, ip');
    }
    ghost var known := ip';
    var fetched := FetchContainersData(p);
    ContainersIP(p, |p.containers|);
    containers', missingContainers', ip' :=
      StoreContainers(containers, missingContainers, fetched, ip', before["container"], wantedContainers);
    assert ip' == known;
  }

  lemma TablesSnoc(pods: seq<Pod>, i: nat)
    requires i < |pods|
    ensures PodTable(pods[..i + 1]) == PodTable(pods[..i])[PodId(pods[i].namespace, pods[i].name) := PodRecord(pods[i])]
    ensures ContainerTable(pods[..i + 1]) == ContainerTable(pods[..i]) + ContainersOf(pods[i])
    ensures FirstIP(pods[..i + 1]) == if FirstIP(pods[..i]) != "" then FirstIP(pods[..i]) else pods[i].hostIP
  {
    assert pods[..i + 1][..i] == pods[..i];
  }

  /** fillGaps: afterwards every pod and container record carries the node IP. */
  method FillGaps(raw: RawGroups, pods: seq<Pod>) returns (r: RawGroups)
    requires "pod" in raw && "container" in raw
    ensures r.Keys == raw.Keys && forall l :: l in raw && l != "pod" && l != "container" ==> r[l] == raw[l]
    ensures Filled(r["pod"], raw["pod"], PodTable(pods), FirstIP(pods))
    ensures Filled(r["container"], raw["container"], ContainerTable(pods), FirstIP(pods))
  {
    var podTable, containerTable := raw["pod"], raw["container"];
    var missingPods: seq<string>, missingContainers: seq<string> := [], [];
    var nodeIP := "";
    for i := 0 to |pods|
      invariant nodeIP == FirstIP(pods[..i])
      invariant Filling(podTable, raw["pod"], PodTable(pods[..i]), missingPods, nodeIP)
      invariant Filling(containerTable, raw["container"], ContainerTable(pods[..i]), missingContainers, nodeIP)
    {
      TablesSnoc(pods, i);
      podTable, missingPods, containerTable, missingContainers, nodeIP :=
        StorePod(pods[i], podTable, missingPods, containerTable, missingContainers, nodeIP,
                 raw, PodTable(pods[..i]), ContainerTable(pods[..i]));
    }
    assert pods[..|pods|] == pods;
    podTable := FillPending(podTable, missingPods, nodeIP, raw["pod"], PodTable(pods));
    containerTable := FillPending(containerTable, missingContainers, nodeIP, raw["container"], ContainerTable(pods));
    r := raw["pod" := podTable]["container" := containerTable];
  }

  /** The node IP is the first one any pod reports, and empty only if no pod does. */
  lemma {:induction false} FirstIPIsFirst(pods: seq<Pod>)
    ensures FirstIP(pods) == "" <==> forall i :: 0 <= i < |pods| ==> pods[i].hostIP == ""
    ensures FirstIP(pods) != "" ==> exists i :: 0 <= i < |pods| && pods[i].hostIP == FirstIP(pods) &&
                                                forall j :: 0 <= j < i ==> pods[j].hostIP == ""
  {
    if pods != [] {
      var front := pods[..|pods| - 1];
      FirstIPIsFirst(front);
      assert forall i :: 0 <= i < |front| ==> front[i] == pods[i];
      if FirstIP(front) != "" {
        var i :| 0 <= i < |front| && front[i].hostIP == FirstIP(front) &&
                 forall j :: 0 <= j < i ==> front[j].hostIP == "";
        assert pods[i].hostIP == FirstIP(pods);
      }
    }
  }

  // ---- pods are a faithful source ----------------------------------------

  predicate PlainPod(p: Pod) {
    && '_' !in p.namespace && '_' !in p.name && ':' !in p.namespace && p.namespace != "" && p.name != ""
    && forall c :: c in p.containers ==> c.name != ""
  }

  lemma OneContainerFaithful(p: Pod, c: Container)
    requires PlainPod(p) && c in p.containers
    ensures FaithfulRecord(ContainerId(p.namespace, p.name, c.name), ContainerRecord(p, c))
  {
    var ref := ContainerRef(p.namespace, p.name, c.name);
    assert ref.Plain() && Describes(ContainerRecord(p, c), ref);
  }

  lemma AddFaithful(table: Entities, e: string, record: RawMetrics)
    requires Faithful(table) && FaithfulRecord(e, record)
    ensures Faithful(table[e := record])
  {
  }

  lemma {:induction false} ContainersFaithful(p: Pod, n: nat)
    requires PlainPod(p) && n <= |p.containers|
    ensures Faithful(ContainersUpTo(p, n))
  {
    if n > 0 {
      var c := p.containers[n - 1];
      ContainersFaithful(p, n - 1);
      OneContainerFaithful(p, c);
      AddFaithful(ContainersUpTo(p, n - 1), ContainerId(p.namespace, p.name, c.name), ContainerRecord(p, c));
    }
  }

  lemma FilledFaithful(table: Entities, wanted: Entities, ip: string)
    requires Faithful(wanted) && Filled(table, map[], wanted, ip)
    ensures Faithful(table)
  {
    forall e | e in table ensures FaithfulRecord(e, table[e]) {
      assert FilledSlot(table, map[], wanted, ip, e);
      assert FaithfulRecord(e, wanted[e]);
      var c: ContainerRef :| c.Plain() && c.Key() == e && Describes(wanted[e], c);
      assert Describes(table[e], c);
    }
  }

  /** The container records DoPodsFetch builds are about the containers their keys name. */
  lemma {:induction false} PodsFaithful(pods: seq<Pod>)
    requires forall p :: p in pods ==> PlainPod(p)
    ensures Faithful(ContainerTable(pods))
  {
    if pods != [] {
      PodsFaithful(pods[..|pods| - 1]);
      assert pods[|pods| - 1] in pods;
      ContainersFaithful(pods[|pods| - 1], |pods[|pods| - 1].containers|);
    }
  }

  // ---- what the pods say about one container -----------------------------

  /** The last container with the name among the first n of a pod. */
  function SaidInPod(p: Pod, name: string, n: nat): Option<RawMetrics>
    requires n <= |p.containers|
  {
    if n == 0 then None
    else if p.containers[n - 1].name == name then Some(ContainerRecord(p, p.containers[n - 1]))
    else SaidInPod(p, name, n - 1)
  }

  predicate IsPodOf(p: Pod, c: ContainerRef) {
    p.namespace == c.namespace && p.name == c.pod
  }

  /** The record of the last container listed under the three names of c. */
  function Said(pods: seq<Pod>, c: ContainerRef): Option<RawMetrics> {
    if pods == [] then None else
      var p := pods[|pods| - 1];
      if IsPodOf(p, c) && SaidInPod(p, c.name, |p.containers|).Some? then SaidInPod(p, c.name, |p.containers|)
      else Said(pods[..|pods| - 1], c)
  }

  lemma {:induction false} PodSays(p: Pod, c: ContainerRef, n: nat)
    requires PlainPod(p) && c.Plain() && n <= |p.containers|
    ensures Lookup(ContainersUpTo(p, n), c.Key()) == if IsPodOf(p, c) then SaidInPod(p, c.name, n) else None
  {
    if n > 0 {
      var x := p.containers[n - 1];
      PodSays(p, c, n - 1);
      SameContainer(p, x.name, c);
      var before, record := ContainersUpTo(p, n - 1), ContainerRecord(p, x);
      assert ContainersUpTo(p, n) == before[ContainerId(p.namespace, p.name, x.name) := record];
      assert SaidInPod(p, c.name, n) == if x.name == c.name then Some(record) else SaidInPod(p, c.name, n - 1);
    }
  }

  lemma SameContainer(p: Pod, name: string, c: ContainerRef)
    requires PlainPod(p) && c.Plain()
    ensures ContainerId(p.namespace, p.name, name) == c.Key() <==> IsPodOf(p, c) && name == c.name
  {
    if ContainerId(p.namespace, p.name, name) == c.Key() {
      KeyInjective(ContainerRef(p.namespace, p.name, name), c);
    }
  }

  /** The record stored under the key of c is what the pods say about c and nothing else. */
  lemma {:induction false} PodsSay(pods: seq<Pod>, c: ContainerRef)
    requires c.Plain() && forall p :: p in pods ==> PlainPod(p)
    ensures Lookup(ContainerTable(pods), c.Key()) == Said(pods, c)
  {
    if pods != [] {
      var p := pods[|pods| - 1];
      assert p in pods;
      PodsSay(pods[..|pods| - 1], c);
      PodSays(p, c, |p.containers|);
    }
  }

  /** The container of a pod that a record comes from. */
  ghost predicate SaysOf(p: Pod, x: Container, c: ContainerRef, record: RawMetrics) {
    IsPodOf(p, c) && x in p.containers && x.name == c.name && record == ContainerRecord(p, x)
  }

  lemma {:induction false} SaidComesFrom(pods: seq<Pod>, c: ContainerRef) returns (p: Pod, x: Container)
    requires Said(pods, c).Some?
    ensures p in pods && SaysOf(p, x, c, Said(pods, c).value)
  {
    p := pods[|pods| - 1];
    if IsPodOf(p, c) && SaidInPod(p, c.name, |p.containers|).Some? {
      x := SaidInPodComesFrom(p, c.name, |p.containers|);
    } else {
      p, x := SaidComesFrom(pods[..|pods| - 1], c);
    }
  }

  lemma {:induction false} SaidInPodComesFrom(p: Pod, name: string, n: nat) returns (x: Container)
    requires n <= |p.containers| && SaidInPod(p, name, n).Some?
    ensures x in p.containers && x.name == name && SaidInPod(p, name, n) == Some(ContainerRecord(p, x))
  {
    x := p.containers[n - 1];
    if x.name != name {
      x := SaidInPodComesFrom(p, name, n - 1);
    }
  }

  // ---- the records, metric by metric -------------------------------------

  /** A container where a pod lists it. */
  datatype Listed = Listed(pod: Pod, container: Container)

  function LastInPod(p: Pod, name: string, n: nat): Option<Listed>
    requires n <= |p.containers|
  {
    if n == 0 then None
    else if p.containers[n - 1].name == name then Some(Listed(p, p.containers[n - 1]))
    else LastInPod(p, name, n - 1)
  }

  /** The last container listed under the three names of c. */
  function LastListed(pods: seq<Pod>, c: ContainerRef): Option<Listed> {
    if pods == [] then None else
      var p := pods[|pods| - 1];
      if p.namespace == c.namespace && p.name == c.pod && LastInPod(p, c.name, |p.containers|).Some?
      then LastInPod(p, c.name, |p.containers|)
      else LastListed(pods[..|pods| - 1], c)
  }

  lemma {:induction false} SaidInPodIsLast(p: Pod, name: string, n: nat)
    requires n <= |p.containers|
    ensures SaidInPod(p, name, n).Some? <==> LastInPod(p, name, n).Some?
    ensures LastInPod(p, name, n).Some? ==>
              var last := LastInPod(p, name, n).value;
              && SaidInPod(p, name, n) == Some(ContainerRecord(p, last.container))
              && last.pod == p && last.container.name == name
  {
    if n > 0 {
      SaidInPodIsLast(p, name, n - 1);
    }
  }

  lemma {:induction false} SaidIsLast(pods: seq<Pod>, c: ContainerRef)
    ensures Said(pods, c).Some? <==> LastListed(pods, c).Some?
    ensures LastListed(pods, c).Some? ==>
              var last := LastListed(pods, c).value;
              && Said(pods, c) == Some(ContainerRecord(last.pod, last.container))
              && last.pod.namespace == c.namespace && last.pod.name == c.pod && last.container.name == c.name
  {
    if pods != [] {
      var p := pods[|pods| - 1];
      SaidIsLast(pods[..|pods| - 1], c);
      SaidInPodIsLast(p, c.name, |p.containers|);
    }
  }

  /** What the record of a container says, once the node IP is filled in: the names of the
      container, its pod and its node, and whatever else is known of it. */
  lemma ContainerValues(p: Pod, x: Container, ip: string, k: string)
    ensures Cell(map["e" := WithIP(ContainerRecord(p, x), ip)], "e", k) ==
            if k == "namespace" then Some(Text(p.namespace))
            else if k == "podName" then Some(Text(p.name))
            else if k == "nodeName" then Some(Text(p.nodeName))
            else if k == "containerName" then Some(Text(x.name))
            else if k == "nodeIP" then Some(Text(ip))
            else if k in x.extra then Some(x.extra[k])
            else None
  {
  }

  /** The container table after gaps are filled, for every container and every metric: from the
      last container listed under the three names, with the node IP every record gets. */
  lemma ContainerCells(table: Entities, pods: seq<Pod>, c: ContainerRef, k: string)
    requires Filled(table, map[], ContainerTable(pods), FirstIP(pods))
    requires c.Plain() && forall p :: p in pods ==> PlainPod(p)
    ensures c.Key() in table <==> LastListed(pods, c).Some?
    ensures c.Key() in table ==>
              var last := LastListed(pods, c).value;
              Cell(table, c.Key(), k) ==
              if k == "namespace" then Some(Text(c.namespace))
              else if k == "podName" then Some(Text(c.pod))
              else if k == "nodeName" then Some(Text(last.pod.nodeName))
              else if k == "containerName" then Some(Text(c.name))
              else if k == "nodeIP" then Some(Text(FirstIP(pods)))
              else if k in last.container.extra then Some(last.container.extra[k])
              else None
  {
    PodsSay(pods, c);
    SaidIsLast(pods, c);
    assert FilledSlot(table, map[], ContainerTable(pods), FirstIP(pods), c.Key());
    if LastListed(pods, c).Some? {
      var last := LastListed(pods, c).value;
      ContainerValues(last.pod, last.container, FirstIP(pods), k);
    }
  }

  /** The last pod listed under its two names. */
  function LastPod(pods: seq<Pod>, namespace: string, name: string): Option<Pod> {
    if pods == [] then None
    else if pods[|pods| - 1].namespace == namespace && pods[|pods| - 1].name == name then Some(pods[|pods| - 1])
    else LastPod(pods[..|pods| - 1], namespace, name)
  }

  lemma {:induction false} PodTableIsLast(pods: seq<Pod>, namespace: string, name: string)
    requires '_' !in namespace && forall p :: p in pods ==> '_' !in p.namespace
    ensures Lookup(PodTable(pods), PodId(namespace, name)) ==
            var last := LastPod(pods, namespace, name);
            if last.None? then None else Some(PodRecord(last.value))
    ensures var last := LastPod(pods, namespace, name);
            last.Some? ==> last.value.namespace == namespace && last.value.name == name
  {
    if pods != [] {
      var p := pods[|pods| - 1];
      assert p in pods;
      PodTableIsLast(pods[..|pods| - 1], namespace, name);
      PodIdInjective(p.namespace, p.name, namespace, name);
    }
  }

  /** What the record of a pod says, once the node IP is filled in. */
  lemma PodValues(p: Pod, ip: string, k: string)
    ensures Cell(map["e" := WithIP(PodRecord(p), ip)], "e", k) ==
            if k == "namespace" then Some(Text(p.namespace))
            else if k == "podName" then Some(Text(p.name))
            else if k == "nodeName" then Some(Text(p.nodeName))
            else if k == "nodeIP" then Some(Text(ip))
            else if k == "containerName" then None
            else if k in p.extra then Some(p.extra[k])
            else None
  {
  }

  /** The pod table after gaps are filled, for every pod and every metric. */
  lemma PodCells(table: Entities, pods: seq<Pod>, namespace: string, name: string, k: string)
    requires Filled(table, map[], PodTable(pods), FirstIP(pods))
    requires '_' !in namespace && forall p :: p in pods ==> '_' !in p.namespace
    ensures PodId(namespace, name) in table <==> LastPod(pods, namespace, name).Some?
    ensures PodId(namespace, name) in table ==>
              var last := LastPod(pods, namespace, name).value;
              Cell(table, PodId(namespace, name), k) ==
              if k == "namespace" then Some(Text(namespace))
              else if k == "podName" then Some(Text(name))
              else if k == "nodeName" then Some(Text(last.nodeName))
              else if k == "nodeIP" then Some(Text(FirstIP(pods)))
              else if k == "containerName" then None
              else if k in last.extra then Some(last.extra[k])
              else None
  {
    PodTableIsLast(pods, namespace, name);
    assert FilledSlot(table, map[], PodTable(pods), FirstIP(pods), PodId(namespace, name));
    if LastPod(pods, namespace, name).Some? {
      PodValues(LastPod(pods, namespace, name).value, FirstIP(pods), k);
    }
  }
}
