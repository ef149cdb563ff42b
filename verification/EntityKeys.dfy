/** The hand-built keys that join the kubelet sources, and the entity IDs and types
    generated from them (src/kubelet/metric/pods.go, metric.go, cadvisor.go). */
module EntityKeys {
  import opened RawData
  import opened Text
  import opened KubeletMerge

  // ---- keys --------------------------------------------------------------

  /** podID */
  function PodId(namespace: string, pod: string): string {
    Joined(namespace, pod)
  }

  /** containerID */
  function ContainerId(namespace: string, pod: string, container: string): string {
    Joined(PodId(namespace, pod), container)
  }

  /** The key GroupStatsSummary formats for a container or a volume. */
  function StatsId(namespace: string, pod: string, name: string): string {
    namespace + "_" + pod + "_" + name
  }

  /** getLabel: the first of the names that is present. */
  function FirstLabel(labels: Labels, names: seq<string>): Option<string> {
    if names == [] then None
    else if names[0] in labels then Some(labels[names[0]])
    else FirstLabel(labels, names[1..])
  }

  method GetLabel(labels: Labels, names: seq<string>) returns (r: Option<string>)
    ensures r == FirstLabel(labels, names)
  {
    for i := 0 to |names|
      invariant FirstLabel(labels, names[i..]) == FirstLabel(labels, names)
    {
      if names[i] in labels {
        return Some(labels[names[i]]);
      }
      assert names[i..][1..] == names[i + 1..];
    }
    return None;
  }

  const CONTAINER_LABELS := ["container_name", "container"]
  const POD_LABELS := ["pod_name", "pod"]

  /** createRawEntityID: Ok("") marks a series of no container of interest. */
  function CadvisorId(labels: Labels): Result<string> {
    var container, pod := FirstLabel(labels, CONTAINER_LABELS), FirstLabel(labels, POD_LABELS);
    if container.None? then Err(LabelNotFound("container"))
    else if container.value == "" then Ok("")
    else if "namespace" !in labels || labels["namespace"] == "" then Err(LabelNotFound("namespace"))
    else if pod.None? || pod.value == "" then Err(LabelNotFound("pod"))
    else Ok(labels["namespace"] + "_" + pod.value + "_" + container.value)
  }

  method CreateRawEntityID(labels: Labels) returns (r: Result<string>)
    ensures r == CadvisorId(labels)
  {
    var container := GetLabel(labels, CONTAINER_LABELS);
    if container.None? {
      return Err(LabelNotFound("container"));
    }
    if container.value == "" {
      return Ok("");
    }
    if "namespace" !in labels || labels["namespace"] == "" {
      return Err(LabelNotFound("namespace"));
    }
    var pod := GetLabel(labels, POD_LABELS);
    if pod.None? || pod.value == "" {
      return Err(LabelNotFound("pod"));
    }
    return Ok(labels["namespace"] + "_" + pod.value + "_" + container.value);
  }

  /** A container as the three sources know it. */
  datatype ContainerRef = ContainerRef(namespace: string, pod: string, name: string) {
    function Key(): string { ContainerId(namespace, pod, name) }

    /** Kubernetes names: no separator, not empty. */
    predicate Named() { namespace != "" && pod != "" && name != "" }

    predicate Plain() { '_' !in namespace && '_' !in pod && ':' !in namespace && Named() }
  }

  predicate LabelsDescribe(labels: Labels, c: ContainerRef) {
    && "namespace" in labels && labels["namespace"] == c.namespace
    && FirstLabel(labels, POD_LABELS) == Some(c.pod)
    && FirstLabel(labels, CONTAINER_LABELS) == Some(c.name)
  }

  /** All three sources build one key for one container. */
  lemma SourcesAgree(c: ContainerRef, labels: Labels)
    requires LabelsDescribe(labels, c) && c.Named()
    ensures CadvisorId(labels) == Ok(c.Key())
    ensures StatsId(c.namespace, c.pod, c.name) == c.Key()
  {
  }

  /** A cAdvisor key always comes from labels that name a container. */
  lemma CadvisorDescribes(labels: Labels) returns (c: ContainerRef)
    requires CadvisorId(labels).Ok? && CadvisorId(labels).value != ""
    ensures LabelsDescribe(labels, c) && CadvisorId(labels) == Ok(c.Key())
  {
    c := ContainerRef(labels["namespace"], FirstLabel(labels, POD_LABELS).value,
                      FirstLabel(labels, CONTAINER_LABELS).value);
  }

  /** ... and different containers never share a key. */
  lemma KeyInjective(a: ContainerRef, b: ContainerRef)
    requires '_' !in a.namespace && '_' !in a.pod && '_' !in b.namespace && '_' !in b.pod
    requires a.Key() == b.Key()
    ensures a == b
  {
    assert a.Key() == a.namespace + ['_'] + (a.pod + ['_'] + a.name);
    assert b.Key() == b.namespace + ['_'] + (b.pod + ['_'] + b.name);
    SplitUnique('_', a.namespace, a.pod + ['_'] + a.name, b.namespace, b.pod + ['_'] + b.name);
    SplitUnique('_', a.pod, a.name, b.pod, b.name);
  }

  /** Pods can be told apart by their IDs when namespaces have no underscore. */
  lemma PodIdInjective(namespace: string, pod: string, namespace': string, pod': string)
    requires '_' !in namespace && '_' !in namespace'
    ensures PodId(namespace, pod) == PodId(namespace', pod') <==> namespace == namespace' && pod == pod'
  {
    if PodId(namespace, pod) == PodId(namespace', pod') {
      SplitUnique('_', namespace, pod, namespace', pod');
    }
  }

  /** The underscores of a key: two, and those of the names. */
  lemma KeySeparators(c: ContainerRef)
    ensures Occurrences('_', c.Key()) ==
            2 + Occurrences('_', c.namespace) + Occurrences('_', c.pod) + Occurrences('_', c.name)
  {
    JoinedSeparators(c.namespace, c.pod);
    JoinedSeparators(PodId(c.namespace, c.pod), c.name);
  }

  /** Another container with the same key, when a name has an underscore at i: the names are
      cut differently. */
  lemma KeyCollides(c: ContainerRef) returns (d: ContainerRef)
    requires '_' in c.namespace || '_' in c.pod || '_' in c.name
    ensures d.Key() == c.Key() && d != c
  {
    if i :| 0 <= i < |c.namespace| && c.namespace[i] == '_' {
      d := ContainerRef(c.namespace[..i], c.namespace[i + 1..], c.pod + "_" + c.name);
      assert c.namespace == d.namespace + "_" + d.pod;
    } else if i :| 0 <= i < |c.pod| && c.pod[i] == '_' {
      d := ContainerRef(c.namespace + "_" + c.pod[..i], c.pod[i + 1..], c.name);
      assert c.pod == c.pod[..i] + "_" + d.pod;
    } else {
      var i :| 0 <= i < |c.name| && c.name[i] == '_';
      d := ContainerRef(c.namespace + "_" + c.pod, c.name[..i], c.name[i + 1..]);
      assert c.name == d.pod + "_" + d.name;
    }
  }

  /** A container shares its key with no other exactly when no name has an underscore. */
  lemma KeyUniqueIff(c: ContainerRef)
    ensures (forall d: ContainerRef :: d.Key() == c.Key() ==> d == c) <==>
            '_' !in c.namespace && '_' !in c.pod && '_' !in c.name
  {
    if '_' !in c.namespace && '_' !in c.pod && '_' !in c.name {
      forall d: ContainerRef | d.Key() == c.Key() ensures d == c {
        NoUnderscores(c, d);
        KeyInjective(c, d);
      }
    } else {
      var d := KeyCollides(c);
    }
  }

  /** A container with the key of c, whose names have no underscore, has none either. */
  lemma NoUnderscores(c: ContainerRef, d: ContainerRef)
    requires '_' !in c.namespace && '_' !in c.pod && '_' !in c.name && d.Key() == c.Key()
    ensures '_' !in d.namespace && '_' !in d.pod
  {
    KeySeparators(c);
    KeySeparators(d);
    OccurrencesZero('_', c.namespace);
    OccurrencesZero('_', c.pod);
    OccurrencesZero('_', c.name);
    OccurrencesPositive('_', d.namespace);
    OccurrencesPositive('_', d.pod);
  }

  // ---- records describe the container in their key -----------------------

  predicate FieldIs(record: RawMetrics, field: string, value: string) {
    field in record ==> record[field] == Text(value)
  }

  /** Whatever the record says about its container agrees with c. */
  predicate Describes(record: RawMetrics, c: ContainerRef) {
    && FieldIs(record, "namespace", c.namespace)
    && FieldIs(record, "podName", c.pod)
    && FieldIs(record, "containerName", c.name)
  }

  /** Every record is about the one plain container its key names. */
  ghost predicate Faithful(table: Entities) {
    forall e :: e in table ==> FaithfulRecord(e, table[e])
  }

  ghost predicate FaithfulRecord(e: string, record: RawMetrics) {
    exists c: ContainerRef :: c.Plain() && c.Key() == e && Describes(record, c)
  }

  /** Merging faithful sources never mixes containers. */
  lemma MergeKeepsFaithful(known: Entities, from: Entities)
    requires Faithful(known) && Faithful(from)
    ensures Faithful(MergedEntities(known, from))
  {
    var m := MergedEntities(known, from);
    forall e | e in m ensures FaithfulRecord(e, m[e]) {
      assert FaithfulRecord(e, known[e]);
      if e in from {
        assert FaithfulRecord(e, from[e]);
        MergedRecordFaithful(e, known[e], from[e]);
      }
    }
  }

  lemma MergedRecordFaithful(e: string, record: RawMetrics, from: RawMetrics)
    requires FaithfulRecord(e, record) && FaithfulRecord(e, from)
    ensures FaithfulRecord(e, MergedRecord(record, from))
  {
    var c: ContainerRef :| c.Plain() && c.Key() == e && Describes(record, c);
    var c': ContainerRef :| c'.Plain() && c'.Key() == e && Describes(from, c');
    KeyInjective(c, c');
    assert Describes(MergedRecord(record, from), c);
  }

  /** After folding any list of faithful sources, each container record is about exactly
      one container. */
  lemma {:induction false} FoldKeepsFaithful(d: RawGroups, sources: seq<RawGroups>, group: string)
    requires Faithful(EntitiesOf(d, group))
    requires forall i :: 0 <= i < |sources| ==> Faithful(EntitiesOf(sources[i], group))
    ensures Faithful(EntitiesOf(MergeAll(d, sources), group))
    decreases |sources|
  {
    if sources != [] {
      var s := sources[0];
      if group in d && group in s {
        assert EntitiesOf(d, group) == d[group] && EntitiesOf(s, group) == s[group];
        MergeKeepsFaithful(d[group], s[group]);
      }
      FoldKeepsFaithful(Merged(d, s), sources[1..], group);
    }
  }

  // ---- entity IDs and types ----------------------------------------------

  function TextField(groups: RawGroups, group: string, raw: string, field: string): Option<string> {
    var cell := Cell(EntitiesOf(groups, group), raw, field);
    if cell.Some? && cell.value.Text? then Some(cell.value.text) else None
  }

  /** getKeys, as a function. */
  function Keys(groups: RawGroups, group: string, raw: string, fields: seq<string>): Result<seq<string>> {
    if group !in groups then Err(GroupNotFound(group))
    else if raw !in groups[group] then Err(EntityNotFound(raw))
    else KeysFrom(groups[group][raw], fields)
  }

  function KeysFrom(record: RawMetrics, fields: seq<string>): Result<seq<string>> {
    if fields == [] then Ok([]) else
      match KeysFrom(record, fields[..|fields| - 1])
      case Err(e) => Err(e)
      case Ok(before) =>
        var field := fields[|fields| - 1];
        if field !in record then Err(MetricNotFound(field))
        else if !record[field].Text? then Err(IncompatibleType(field))
        else Ok(before + [record[field].text])
  }

  lemma {:induction false} KeysErrSticks(record: RawMetrics, fields: seq<string>, i: nat)
    requires i <= |fields| && KeysFrom(record, fields[..i]).Err?
    ensures KeysFrom(record, fields) == KeysFrom(record, fields[..i])
  {
    if i == |fields| {
      assert fields[..i] == fields;
    } else {
      assert fields[..|fields| - 1][..i] == fields[..i];
      KeysErrSticks(record, fields[..|fields| - 1], i);
    }
  }

  method GetKeys(groups: RawGroups, group: string, raw: string, fields: seq<string>) returns (r: Result<seq<string>>)
    ensures r == Keys(groups, group, raw, fields)
  {
    if group !in groups {
      return Err(GroupNotFound(group));
    }
    if raw !in groups[group] {
      return Err(EntityNotFound(raw));
    }
    var record, s := groups[group][raw], [];
    for i := 0 to |fields|
      invariant KeysFrom(record, fields[..i]) == Ok(s)
    {
      assert fields[..i + 1][..i] == fields[..i];
      if fields[i] !in record || !record[fields[i]].Text? {
        r := if fields[i] !in record then Err(MetricNotFound(fields[i])) else Err(IncompatibleType(fields[i]));
        KeysErrSticks(record, fields, i + 1);
        return;
      }
      s := s + [record[fields[i]].text];
    }
    assert fields[..|fields|] == fields;
    return Ok(s);
  }

  /** FromRawEntityIDGroupEntityIDGenerator("namespace"): strips the namespace. */
  function PodEntityId(groups: RawGroups, raw: string): Result<string> {
    var ns := TextField(groups, "pod", raw, "namespace");
    if ns.None? then Err(MetricNotFound("namespace"))
    else
      var v := TrimPrefix(raw, ns.value + "_");
      if v == "" then Err(EmptyIdentifier("pod")) else Ok(v)
  }

  /** FromRawGroupsEntityIDGenerator("containerName") */
  function ContainerEntityId(groups: RawGroups, raw: string): Result<string> {
    var name := TextField(groups, "container", raw, "containerName");
    if name.None? then Err(MetricNotFound("containerName")) else Ok(name.value)
  }

  /** The entity ID of the kubelet spec groups; nodes and volumes keep the raw ID. */
  function EntityId(groups: RawGroups, group: string, raw: string): Result<string> {
    if group == "pod" then PodEntityId(groups, raw)
    else if group == "container" then ContainerEntityId(groups, raw)
    else Ok(raw)
  }

  /** FromRawGroupsEntityTypeGenerator */
  function EntityType(groups: RawGroups, group: string, raw: string, cluster: string): Result<string> {
    if group == "namespace" || group == "node" then Ok("k8s:" + cluster + ":" + group)
    else if group == "container" then
      match Keys(groups, group, raw, ["namespace", "podName"])
      case Err(e) => Err(e)
      case Ok(keys) =>
        if |keys| != 2 || keys[0] == "" || keys[1] == "" then Err(EmptyIdentifier(group))
        else Ok("k8s:" + cluster + ":" + keys[0] + ":" + keys[1] + ":" + group)
    else
      match Keys(groups, group, raw, ["namespace"])
      case Err(e) => Err(e)
      case Ok(keys) =>
        if |keys| == 0 || keys[0] == "" then Err(EmptyIdentifier(group))
        else Ok("k8s:" + cluster + ":" + keys[0] + ":" + group)
  }

  method GenerateEntityType(groups: RawGroups, group: string, raw: string, cluster: string) returns (r: Result<string>)
    ensures r == EntityType(groups, group, raw, cluster)
  {
    if group == "namespace" || group == "node" {
      return Ok("k8s:" + cluster + ":" + group);
    }
    var keys := GetKeys(groups, group, raw, if group == "container" then ["namespace", "podName"] else ["namespace"]);
    if keys.Err? {
      return Err(keys.error);
    }
    if group == "container" {
      if |keys.value| != 2 || keys.value[0] == "" || keys.value[1] == "" {
        return Err(EmptyIdentifier(group));
      }
      return Ok("k8s:" + cluster + ":" + keys.value[0] + ":" + keys.value[1] + ":" + group);
    }
    if |keys.value| == 0 || keys.value[0] == "" {
      return Err(EmptyIdentifier(group));
    }
    return Ok("k8s:" + cluster + ":" + keys.value[0] + ":" + group);
  }

  /** Every type there is, by the fields of the record, which must be non-empty texts. */
  lemma EntityTypeIff(groups: RawGroups, group: string, raw: string, cluster: string, t: string)
    ensures EntityType(groups, group, raw, cluster) == Ok(t) <==>
            if group == "namespace" then t == "k8s:" + cluster + ":" + "namespace"
            else if group == "node" then t == "k8s:" + cluster + ":" + "node"
            else
              var ns, pod := TextField(groups, group, raw, "namespace"), TextField(groups, group, raw, "podName");
              && ns.Some? && ns.value != ""
              && if group == "container"
                 then pod.Some? && pod.value != "" &&
                      t == "k8s:" + cluster + ":" + ns.value + ":" + pod.value + ":" + group
                 else t == "k8s:" + cluster + ":" + ns.value + ":" + group
  {
    if raw in EntitiesOf(groups, group) {
      var record := groups[group][raw];
      KeysOfOne(record, "namespace");
      KeysOfTwo(record, "namespace", "podName");
    }
  }

  lemma KeysOfOne(record: RawMetrics, a: string)
    ensures KeysFrom(record, [a]) == if a !in record then Err(MetricNotFound(a))
                                     else if !record[a].Text? then Err(IncompatibleType(a)) else Ok([record[a].text])
  {
    if a in record && record[a].Text? {
      OneKey(record, a, record[a].text);
    } else {
      var fields := [a];
      assert fields[..|fields| - 1] == [] && KeysFrom(record, []) == Ok([]);
    }
  }

  lemma KeysOfTwo(record: RawMetrics, a: string, b: string)
    ensures var first := KeysFrom(record, [a]);
            KeysFrom(record, [a, b]) == if first.Err? then first
                                        else if b !in record then Err(MetricNotFound(b))
                                        else if !record[b].Text? then Err(IncompatibleType(b))
                                        else Ok([record[a].text, record[b].text])
  {
    KeysOfOne(record, a);
    if a in record && record[a].Text? && b in record && record[b].Text? {
      TwoKeys(record, a, record[a].text, b, record[b].text);
    } else {
      var fields := [a, b];
      assert fields[..|fields| - 1] == [a];
    }
  }

  /** Every ID there is: a pod's without its namespace, a container's name, or the raw ID. */
  lemma EntityIdIff(groups: RawGroups, group: string, raw: string, id: string)
    ensures EntityId(groups, group, raw) == Ok(id) <==>
            if group == "container" then TextField(groups, group, raw, "containerName") == Some(id)
            else if group != "pod" then id == raw
            else
              var ns := TextField(groups, group, raw, "namespace");
              ns.Some? && id != "" &&
              (raw == ns.value + "_" + id || (id == raw && !HasPrefix(raw, ns.value + "_")))
  {
    var ns := TextField(groups, "pod", raw, "namespace");
    if group == "pod" && ns.Some? {
      var p := ns.value + "_";
      if HasPrefix(raw, p) {
        assert raw == p + TrimPrefix(raw, p);
        assert raw == p + id ==> raw[|p|..] == id;
      }
    }
  }

  /** A pod record is keyed by the pod it describes. */
  ghost predicate FaithfulPods(table: Entities) {
    forall e :: e in table ==> exists ns, pod :: PodDescribes(table[e], e, ns, pod)
  }

  predicate PodDescribes(record: RawMetrics, e: string, ns: string, pod: string) {
    e == PodId(ns, pod) && "namespace" in record && record["namespace"] == Text(ns)
  }

  /** The generator undoes podID for every non-empty pod name, and refuses the empty one. */
  lemma PodIdRoundTrip(groups: RawGroups, ns: string, pod: string)
    requires TextField(groups, "pod", PodId(ns, pod), "namespace") == Some(ns)
    ensures PodEntityId(groups, PodId(ns, pod)) == if pod == "" then Err(EmptyIdentifier("pod")) else Ok(pod)
  {
    assert PodId(ns, pod) == (ns + "_") + pod;
    assert TrimPrefix(PodId(ns, pod), ns + "_") == pod;
  }

  lemma PodIdentity(groups: RawGroups, raw: string, ns: string, pod: string, cluster: string)
    requires raw in EntitiesOf(groups, "pod") && PodDescribes(groups["pod"][raw], raw, ns, pod)
    requires EntityId(groups, "pod", raw).Ok? && EntityType(groups, "pod", raw, cluster).Ok?
    ensures EntityId(groups, "pod", raw) == Ok(pod)
    ensures EntityType(groups, "pod", raw, cluster) == Ok("k8s:" + cluster + ":" + ns + ":pod")
  {
    PodIdRoundTrip(groups, ns, pod);
    OneKey(groups["pod"][raw], "namespace", ns);
    var p := "k8s:" + cluster + ":" + ns;
    assert p + ":" + "pod" == p + ":pod";
  }

  lemma OneKey(record: RawMetrics, a: string, va: string)
    requires a in record && record[a] == Text(va)
    ensures KeysFrom(record, [a]) == Ok([va])
  {
    var fields := [a];
    assert fields[..|fields| - 1] == [];
    assert KeysFrom(record, fields[..|fields| - 1]) == Ok([]);
    assert [] + [va] == [va];
  }

  lemma TwoKeys(record: RawMetrics, a: string, va: string, b: string, vb: string)
    requires a in record && record[a] == Text(va) && b in record && record[b] == Text(vb)
    ensures KeysFrom(record, [a, b]) == Ok([va, vb])
  {
    var fields := [a, b];
    assert fields[..|fields| - 1] == [a];
    OneKey(record, a, va);
    assert [va] + [vb] == [va, vb];
  }

  /** Two raw pods with one identity are one pod. */
  lemma PodsNeverCollapse(groups: RawGroups, raw: string, raw': string, cluster: string)
    requires FaithfulPods(EntitiesOf(groups, "pod"))
    requires raw in EntitiesOf(groups, "pod") && raw' in EntitiesOf(groups, "pod")
    requires EntityId(groups, "pod", raw).Ok? && EntityType(groups, "pod", raw, cluster).Ok?
    requires EntityId(groups, "pod", raw) == EntityId(groups, "pod", raw')
    requires EntityType(groups, "pod", raw, cluster) == EntityType(groups, "pod", raw', cluster)
    ensures raw == raw'
  {
    var ns, pod :| PodDescribes(groups["pod"][raw], raw, ns, pod);
    var ns', pod' :| PodDescribes(groups["pod"][raw'], raw', ns', pod');
    PodIdentity(groups, raw, ns, pod, cluster);
    PodIdentity(groups, raw', ns', pod', cluster);
    var p := "k8s:" + cluster + ":";
    SuffixCancel(p + ns, p + ns', ":pod");
    PrefixCancel(p, ns, ns');
  }

  lemma ContainerIdentity(groups: RawGroups, raw: string, c: ContainerRef, cluster: string)
    requires raw in EntitiesOf(groups, "container") && c.Plain() && Describes(groups["container"][raw], c)
    requires EntityId(groups, "container", raw).Ok? && EntityType(groups, "container", raw, cluster).Ok?
    ensures EntityId(groups, "container", raw) == Ok(c.name)
    ensures EntityType(groups, "container", raw, cluster) ==
            Ok("k8s:" + cluster + ":" + c.namespace + ":" + c.pod + ":container")
  {
    var record := groups["container"][raw];
    var fields := ["namespace", "podName"];
    assert fields[..1] == ["namespace"] && fields[..1][..0] == [];
    assert KeysFrom(record, fields[..1]).Ok?;
    TwoKeys(record, "namespace", c.namespace, "podName", c.pod);
    var p := "k8s:" + cluster + ":" + c.namespace + ":" + c.pod;
    assert p + ":" + "container" == p + ":container";
  }

  /** Two raw containers with one identity are one container. */
  lemma ContainersNeverCollapse(groups: RawGroups, raw: string, raw': string, cluster: string)
    requires Faithful(EntitiesOf(groups, "container"))
    requires raw in EntitiesOf(groups, "container") && raw' in EntitiesOf(groups, "container")
    requires EntityId(groups, "container", raw).Ok? && EntityType(groups, "container", raw, cluster).Ok?
    requires EntityId(groups, "container", raw) == EntityId(groups, "container", raw')
    requires EntityType(groups, "container", raw, cluster) == EntityType(groups, "container", raw', cluster)
    ensures raw == raw'
  {
    assert FaithfulRecord(raw, groups["container"][raw]) && FaithfulRecord(raw', groups["container"][raw']);
    var c: ContainerRef :| c.Plain() && c.Key() == raw && Describes(groups["container"][raw], c);
    var c': ContainerRef :| c'.Plain() && c'.Key() == raw' && Describes(groups["container"][raw'], c');
    ContainerIdentity(groups, raw, c, cluster);
    ContainerIdentity(groups, raw', c', cluster);
    TypeDetermines(cluster, c.namespace, c.pod, c'.namespace, c'.pod);
  }

  lemma TypeDetermines(cluster: string, ns: string, pod: string, ns': string, pod': string)
    requires ':' !in ns && ':' !in ns'
    requires "k8s:" + cluster + ":" + ns + ":" + pod + ":container" ==
             "k8s:" + cluster + ":" + ns' + ":" + pod' + ":container"
    ensures ns == ns' && pod == pod'
  {
    var p := "k8s:" + cluster + ":";
    SuffixCancel(p + ns + ":" + pod, p + ns' + ":" + pod', ":container");
    assert p + ns + ":" + pod == p + (ns + [':'] + pod);
    assert p + ns' + ":" + pod' == p + (ns' + [':'] + pod');
    PrefixCancel(p, ns + [':'] + pod, ns' + [':'] + pod');
    SplitUnique(':', ns, pod, ns', pod');
  }

  /** Entities of different kubelet groups never share a type. */
  lemma GroupsNeverCollapse(groups: RawGroups, g: string, raw: string, g': string, raw': string, cluster: string)
    requires g in {"node", "pod", "container", "volume"} && g' in {"node", "pod", "container", "volume"}
    requires EntityType(groups, g, raw, cluster).Ok?
    requires EntityType(groups, g, raw, cluster) == EntityType(groups, g', raw', cluster)
    ensures g == g'
  {
    TypeEndsWithGroup(groups, g, raw, cluster);
    TypeEndsWithGroup(groups, g', raw', cluster);
    var t := EntityType(groups, g, raw, cluster).value;
    LastTwo(t, g);
    LastTwo(t, g');
  }

  lemma LastTwo(t: string, g: string)
    requires |t| >= |g| >= 2 && t[|t| - |g|..] == g
    ensures g[|g| - 1] == t[|t| - 1] && g[|g| - 2] == t[|t| - 2]
  {
    assert g[|g| - 1] == t[|t| - |g|..][|g| - 1];
    assert g[|g| - 2] == t[|t| - |g|..][|g| - 2];
  }

  lemma TypeEndsWithGroup(groups: RawGroups, g: string, raw: string, cluster: string)
    requires EntityType(groups, g, raw, cluster).Ok?
    ensures var t := EntityType(groups, g, raw, cluster).value;
            |t| >= |g| && t[|t| - |g|..] == g
  {
  }

  /** The pair (ID, type) separates all entities of all kubelet spec groups. */
  lemma IdentityInjective(groups: RawGroups, g: string, raw: string, g': string, raw': string, cluster: string)
    requires g in {"node", "pod", "container", "volume"} && g' in {"node", "pod", "container", "volume"}
    requires FaithfulPods(EntitiesOf(groups, "pod")) && Faithful(EntitiesOf(groups, "container"))
    requires raw in EntitiesOf(groups, g) && raw' in EntitiesOf(groups, g')
    requires EntityId(groups, g, raw).Ok? && EntityType(groups, g, raw, cluster).Ok?
    requires EntityId(groups, g, raw) == EntityId(groups, g', raw')
    requires EntityType(groups, g, raw, cluster) == EntityType(groups, g', raw', cluster)
    ensures g == g' && raw == raw'
  {
    GroupsNeverCollapse(groups, g, raw, g', raw', cluster);
    if g == "pod" {
      PodsNeverCollapse(groups, raw, raw', cluster);
    } else if g == "container" {
      ContainersNeverCollapse(groups, raw, raw', cluster);
    }
  }
}
