/** The namespace of a built entity: what FromLabelGetNamespace and the resolution of
    the "namespace" parent return, whatever metric the map range meets first
    (src/prometheus/definition.go). */
module Namespaces {
  import opened RawData
  import opened Text
  import opened Grouping
  import opened Inheritance

  /** Groups whose entity key starts with (or is) the namespace. */
  predicate NamespaceKeyed(group: string) {
    group == "namespace" || !Global(group)
  }

  ghost predicate PlainNamespaces(items: seq<Item>, group: string) {
    forall i :: 0 <= i < |items| && Eligible(group, items[i].1) ==> '_' !in LabelOr(items[i].1, "namespace")
  }

  function UpTo(c: char, s: string): string {
    if s == "" || s[0] == c then "" else [s[0]] + UpTo(c, s[1..])
  }

  lemma {:induction false} UpToSplit(c: char, a: string, b: string)
    requires c !in a
    ensures UpTo(c, a + [c] + b) == a
  {
    if a != "" {
      assert (a + [c] + b)[1..] == a[1..] + [c] + b;
      UpToSplit(c, a[1..], b);
    }
  }

  /** The namespace written in an entity key. */
  function KeyNamespace(group: string, entity: string): string {
    if group == "namespace" then entity else UpTo('_', entity)
  }

  lemma NamespaceInKey(group: string, m: Metric)
    requires NamespaceKeyed(group) && Eligible(group, m)
    requires '_' !in LabelOr(m, "namespace")
    ensures LabelOr(m, "namespace") == KeyNamespace(group, EntityKey(group, m))
  {
    var ns, x := LabelOr(m, "namespace"), LabelOr(m, group);
    if group == "container" {
      assert Joined(Joined(ns, LabelOr(m, "pod")), x) == ns + ['_'] + (LabelOr(m, "pod") + "_" + x);
      UpToSplit('_', ns, LabelOr(m, "pod") + "_" + x);
    } else if group != "namespace" {
      UpToSplit('_', ns, x);
    }
  }

  /** All series of one entity, bare or in a list, agree on the namespace its key names. */
  lemma OneNamespacePerEntity(g: RawGroups, specs: set<string>, items: seq<Item>, group: string, entity: string,
                              name: string, i: nat)
    requires IsGrouping(g, specs, items) && NamespaceKeyed(group) && PlainNamespaces(items, group)
    requires entity in EntitiesOf(g, group) && name in g[group][entity]
    requires i < |SeriesOf(group, entity, name, items)|
    ensures Cell(g[group], entity, name) == Pack(SeriesOf(group, entity, name, items))
    ensures LabelOr(SeriesOf(group, entity, name, items)[i], "namespace") == KeyNamespace(group, entity)
  {
    assert IsTable(EntitiesOf(g, group), group, items);
    SeriesFromItems(group, entity, name, items, i);
    NamespaceInKey(group, SeriesOf(group, entity, name, items)[i]);
  }

  /** The same for a bare metric, as the fetch functions find it. */
  lemma OneNamespace(g: RawGroups, specs: set<string>, items: seq<Item>, group: string, entity: string, name: string)
    requires IsGrouping(g, specs, items) && NamespaceKeyed(group) && PlainNamespaces(items, group)
    requires entity in EntitiesOf(g, group) && name in g[group][entity] && g[group][entity][name].Single?
    ensures LabelOr(g[group][entity][name].metric, "namespace") == KeyNamespace(group, entity)
  {
    var m := g[group][entity][name].metric;
    StoredSeries(g, specs, items, group, entity, name);
    SingleFromItems(g, specs, items, group, entity, name);
    NamespaceInKey(group, m);
  }

  ghost predicate NamesNamespace(ms: RawMetrics, k: string) {
    k in ms && ms[k].Single? && LabelOr(ms[k].metric, "namespace") != ""
  }

  /** Possible results of FromLabelGetNamespace. */
  ghost predicate NamespaceFound(ms: RawMetrics, ns: string) {
    if exists k :: NamesNamespace(ms, k)
    then exists k :: NamesNamespace(ms, k) && ns == LabelOr(ms[k].metric, "namespace")
    else ns == ""
  }

  /** A namespace is found iff the bare metrics have it as their label, none iff they have no other. */
  lemma FoundIff(ms: RawMetrics, ns: string)
    ensures NamespaceFound(ms, ns) <==>
            if ns == "" then
              forall k :: k in ms && ms[k].Single? && "namespace" in ms[k].metric.labels ==>
                            ms[k].metric.labels["namespace"] == ""
            else
              exists k :: k in ms && ms[k].Single? && "namespace" in ms[k].metric.labels &&
                          ms[k].metric.labels["namespace"] == ns
  {
    if ns != "" {
      if k :| k in ms && ms[k].Single? && "namespace" in ms[k].metric.labels &&
              ms[k].metric.labels["namespace"] == ns {
        assert NamesNamespace(ms, k);
      }
    } else if k :| NamesNamespace(ms, k) {
      assert ms[k].metric.labels["namespace"] != "";
    }
  }

  method FromLabelGetNamespace(ms: RawMetrics) returns (ns: string)
    ensures NamespaceFound(ms, ns)
  {
    var todo := ms.Keys;
    while todo != {}
      invariant todo <= ms.Keys
      invariant forall k :: k in ms && k !in todo ==> !NamesNamespace(ms, k)
      decreases |todo|
    {
      var k :| k in todo;
      if ms[k].Single? && LabelOr(ms[k].metric, "namespace") != "" {
        assert NamesNamespace(ms, k);
        return LabelOr(ms[k].metric, "namespace");
      }
      todo := todo - {k};
    }
    return "";
  }

  /** FromLabelGetNamespace returns the namespace of the key, or "" when no bare metric
      names one; iteration order never shows. */
  lemma NamespaceDeterministic(g: RawGroups, specs: set<string>, items: seq<Item>, group: string, entity: string,
                               ns: string)
    requires IsGrouping(g, specs, items) && NamespaceKeyed(group) && PlainNamespaces(items, group)
    requires entity in EntitiesOf(g, group)
    requires NamespaceFound(g[group][entity], ns)
    ensures ns == if exists k :: NamesNamespace(g[group][entity], k) then KeyNamespace(group, entity) else ""
  {
    var ms := g[group][entity];
    if exists k :: NamesNamespace(ms, k) {
      var k :| NamesNamespace(ms, k) && ns == LabelOr(ms[k].metric, "namespace");
      OneNamespace(g, specs, items, group, entity, k);
    }
  }

  /** All bare metrics that name a namespace name the same one. */
  ghost predicate Agree(ms: RawMetrics) {
    forall j, k :: NamesNamespace(ms, j) && NamesNamespace(ms, k) ==>
                     LabelOr(ms[j].metric, "namespace") == LabelOr(ms[k].metric, "namespace")
  }

  /** For any metrics, of a group that is namespace-keyed or not, FromLabelGetNamespace has one
      outcome exactly when the bare metrics that name a namespace agree. */
  lemma NamespaceFoundOnce(ms: RawMetrics)
    ensures (forall a, b :: NamespaceFound(ms, a) && NamespaceFound(ms, b) ==> a == b) <==> Agree(ms)
  {
    forall j | NamesNamespace(ms, j) ensures NamespaceFound(ms, LabelOr(ms[j].metric, "namespace")) {
    }
    if !Agree(ms) {
      var j, k :| NamesNamespace(ms, j) && NamesNamespace(ms, k) &&
                  LabelOr(ms[j].metric, "namespace") != LabelOr(ms[k].metric, "namespace");
      assert NamespaceFound(ms, LabelOr(ms[j].metric, "namespace"));
      assert NamespaceFound(ms, LabelOr(ms[k].metric, "namespace"));
    }
  }

  ghost predicate AllSinglesHave(ms: RawMetrics, key: string) {
    forall k :: k in ms && ms[k].Single? ==> key in ms[k].metric.labels
  }

  ghost predicate OneOutcome(parent: string, ms: RawMetrics) {
    forall r, s :: ParentId(parent, ms, r) && ParentId(parent, ms, s) ==> r == s
  }

  /** Resolving the "namespace" parent is independent of iteration order exactly when
      all the entity's bare metrics carry the label, or none does. */
  lemma ParentNamespaceExact(g: RawGroups, specs: set<string>, items: seq<Item>, group: string, entity: string)
    requires IsGrouping(g, specs, items) && NamespaceKeyed(group) && PlainNamespaces(items, group)
    requires entity in EntitiesOf(g, group)
    ensures var ms := g[group][entity];
            && (OneOutcome("namespace", ms) <==> AllSinglesHave(ms, "namespace") || !SomeSingleHas(ms, "namespace"))
            && (AllSinglesHave(ms, "namespace") && HasSingle(ms) ==>
                  ParentId("namespace", ms, Ok(KeyNamespace(group, entity))))
  {
    var ms := g[group][entity];
    forall p | RandomMetric(ms, p) && IdFromPick(p, "namespace").Ok?
      ensures IdFromPick(p, "namespace") == Ok(KeyNamespace(group, entity))
    {
      OneNamespace(g, specs, items, group, entity, p.key);
    }
    if HasSingle(ms) && AllSinglesHave(ms, "namespace") {
      var k :| k in ms && ms[k].Single?;
      assert RandomMetric(ms, Pick(k, ms[k]));
    }
    if !AllSinglesHave(ms, "namespace") && SomeSingleHas(ms, "namespace") {
      var j :| j in ms && ms[j].Single? && "namespace" in ms[j].metric.labels;
      var k :| k in ms && ms[k].Single? && "namespace" !in ms[k].metric.labels;
      assert RandomMetric(ms, Pick(j, ms[j])) && RandomMetric(ms, Pick(k, ms[k]));
      assert ParentId("namespace", ms, IdFromPick(Pick(j, ms[j]), "namespace"));
      assert ParentId("namespace", ms, IdFromPick(Pick(k, ms[k]), "namespace"));
    }
  }

  /** Resolution never depends on iteration order for an entity whose key names a namespace. */
  lemma ParentNamespaceDetermined(g: RawGroups, specs: set<string>, items: seq<Item>, group: string, entity: string,
                                  id: Result<string>)
    requires IsGrouping(g, specs, items) && NamespaceKeyed(group) && PlainNamespaces(items, group)
    requires entity in EntitiesOf(g, group) && KeyNamespace(group, entity) != ""
    requires ParentId("namespace", g[group][entity], id)
    ensures OneOutcome("namespace", g[group][entity])
    ensures id ==
            if HasSingle(g[group][entity]) then Ok(KeyNamespace(group, entity)) else Err(IncompatibleType("namespace"))
  {
    var ms := g[group][entity];
    forall k | k in ms && ms[k].Single? ensures "namespace" in ms[k].metric.labels {
      OneNamespace(g, specs, items, group, entity, k);
    }
    ParentNamespaceExact(g, specs, items, group, entity);
  }
}
