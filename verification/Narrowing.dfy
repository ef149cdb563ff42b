/** processEntities hands each entity a copy of the groups in which its own group holds
    that entity alone (src/populator/populator.go). Fetching from the narrowed groups
    gives what fetching from the full groups would have given. */
module Narrowing {
  import opened RawData
  import opened Text
  import opened Grouping
  import opened Inheritance
  import opened Aggregation
  import opened AttributeNames

  /** groupsForThisEntity */
  function Narrow(groups: RawGroups, group: string, entity: string, ms: RawMetrics): RawGroups {
    groups[group := map[entity := ms]]
  }

  /** FromLabelValue: the label of the metric, or of the first series of a list. */
  function FromLabelValue(metric: string, key: string, group: string, entity: string,
                          groups: RawGroups): Result<Fetched> {
    match FromRaw(metric, group, entity, groups)
    case Err(e) => Err(e)
    case Ok(Single(m)) => if key in m.labels then Ok(Scalar(Str(m.labels[key]))) else Err(LabelNotFound(key))
    case Ok(Series(ms)) =>
      if ms == [] then Err(EmptySlice(metric))
      else if key in ms[0].labels then Ok(Scalar(Str(ms[0].labels[key]))) else Err(LabelNotFound(key))
    case Ok(_) => Err(IncompatibleType(metric))
  }

  /** FromRaw sees the same value, and so does every fetch function built on it alone. */
  lemma NarrowedFetch(g: RawGroups, group: string, entity: string, metric: string, key: string,
                      override: string, filters: seq<LabelsFilter>)
    requires entity in EntitiesOf(g, group)
    ensures var n := Narrow(g, group, entity, g[group][entity]);
            && FromRaw(metric, group, entity, n) == FromRaw(metric, group, entity, g)
            && FromLabelValue(metric, key, group, entity, n) == FromLabelValue(metric, key, group, entity, g)
            && FromValue(metric, override, filters, group, entity, n) ==
               FromValue(metric, override, filters, group, entity, g)
  {
  }

  /** The records have the same bare metrics: parents are resolved through nothing else. */
  ghost predicate SameBare(a: RawMetrics, b: RawMetrics) {
    && (a == map[] <==> b == map[])
    && (forall k :: Bare(a, k) == Bare(b, k))
  }

  function Bare(ms: RawMetrics, k: string): Option<Metric> {
    if k in ms && ms[k].Single? then Some(ms[k].metric) else None
  }

  lemma SameParents(parent: string, a: RawMetrics, b: RawMetrics, id: Result<string>)
    requires SameBare(a, b) && ParentId(parent, a, id)
    ensures ParentId(parent, b, id)
  {
    assert forall k :: Bare(a, k) == Bare(b, k);
    if Global(parent) {
      var p :| RandomMetric(a, p) && id == IdFromPick(p, parent);
      SamePick(a, b, p, parent);
    } else {
      var m :| RandomMetricWithLabels(a, "namespace", parent, m) && id == IdFromMetric(m, parent);
      forall k ensures Qualifies(a, k, "namespace", parent) <==> Qualifies(b, k, "namespace", parent) {
        assert Bare(a, k) == Bare(b, k);
      }
      if m.Ok? {
        var k :| Qualifies(a, k, "namespace", parent) && m == Ok(a[k].metric);
        assert Bare(a, k) == Bare(b, k);
        assert Qualifies(b, k, "namespace", parent) && m == Ok(b[k].metric);
      }
      assert RandomMetricWithLabels(b, "namespace", parent, m);
    }
  }

  lemma SamePick(a: RawMetrics, b: RawMetrics, p: Pick, parent: string)
    requires SameBare(a, b) && RandomMetric(a, p)
    ensures exists q :: RandomMetric(b, q) && IdFromPick(q, parent) == IdFromPick(p, parent)
  {
    if p.Pick? && p.value.Single? {
      assert Bare(a, p.key) == Bare(b, p.key);
      assert RandomMetric(b, p);
    } else if b == map[] {
      assert RandomMetric(b, NoPick);
    } else {
      var k :| k in b;
      forall x | x in b ensures !b[x].Single? {
        assert Bare(a, x) == Bare(b, x);
      }
      assert RandomMetric(b, Pick(k, b[k]));
    }
  }

  /** Label inheritance has the same outcomes on narrowed and on full groups, from another
      group or from the entity's own, unless that own group is "container". The record may
      be the entity's own or a part of it with the same bare metrics. */
  lemma NarrowedInheritance(g: RawGroups, specs: set<string>, items: seq<Item>, group: string, entity: string,
                            record: RawMetrics, parent: string, metric: string, prefix: string, out: Result<Fetched>)
    requires IsGrouping(g, specs, items)
    requires entity in EntitiesOf(g, group) && SameBare(record, g[group][entity])
    requires parent == group ==> group != "container"
    ensures Inherited(parent, metric, group, entity, Narrow(g, group, entity, record), prefix, out)
       <==> Inherited(parent, metric, group, entity, g, prefix, out)
  {
    var n := Narrow(g, group, entity, record);
    if Inherited(parent, metric, group, entity, n, prefix, out) {
      var id :| ParentId(parent, record, id) && InheritedVia(id, parent, metric, n, prefix, out);
      SameParents(parent, record, g[group][entity], id);
      NarrowedVia(g, specs, items, group, entity, record, parent, metric, prefix, id, out);
    }
    if Inherited(parent, metric, group, entity, g, prefix, out) {
      var id :| ParentId(parent, g[group][entity], id) && InheritedVia(id, parent, metric, g, prefix, out);
      SameParents(parent, g[group][entity], record, id);
      NarrowedVia(g, specs, items, group, entity, record, parent, metric, prefix, id, out);
      assert n[group][entity] == record;
    }
  }

  lemma NarrowedVia(g: RawGroups, specs: set<string>, items: seq<Item>, group: string, entity: string,
                    record: RawMetrics, parent: string, metric: string, prefix: string, id: Result<string>,
                    out: Result<Fetched>)
    requires IsGrouping(g, specs, items)
    requires entity in EntitiesOf(g, group) && SameBare(record, g[group][entity])
    requires parent == group ==> group != "container"
    requires ParentId(parent, g[group][entity], id)
    ensures InheritedVia(id, parent, metric, Narrow(g, group, entity, record), prefix, out)
       <==> InheritedVia(id, parent, metric, g, prefix, out)
  {
    if parent == group {
      OwnParent(g, specs, items, group, entity, id);
    }
    if id.Ok? {
      var n := Narrow(g, group, entity, record);
      if parent == group {
        assert Bare(record, metric) == Bare(g[group][entity], metric);
      } else {
        assert FromRaw(metric, parent, id.value, n) == FromRaw(metric, parent, id.value, g);
      }
    }
  }

  /** In "container" the parent key names another entity, which narrowing hides. */
  lemma NarrowedContainerAlwaysFails(g: RawGroups, specs: set<string>, items: seq<Item>, entity: string,
                                     record: RawMetrics, metric: string, prefix: string, out: Result<Fetched>)
    requires IsGrouping(g, specs, items)
    requires entity in EntitiesOf(g, "container") && SameBare(record, g["container"][entity])
    requires Inherited("container", metric, "container", entity, Narrow(g, "container", entity, record), prefix, out)
    ensures out.Err?
  {
    var n := Narrow(g, "container", entity, record);
    var id :| ParentId("container", record, id) && InheritedVia(id, "container", metric, n, prefix, out);
    SameParents("container", record, g["container"][entity], id);
    if id.Ok? {
      var m := ContainerParentMetric(g, specs, items, entity, id);
      ContainerKeyIsLonger(m);
      assert FromRaw(metric, "container", id.value, n) == Err(EntityNotFound(id.value));
    }
  }

  lemma ContainerKeyIsLonger(m: Metric)
    requires "namespace" in m.labels && "container" in m.labels
    ensures |EntityKey("container", m)| > |Joined(m.labels["namespace"], m.labels["container"])|
  {
  }
}
