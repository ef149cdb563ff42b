/** Fetch functions that read labels, from the entity's own metrics or from a parent
    entity found through a randomly chosen metric (src/prometheus/definition.go).
    A Go map range picks an arbitrary order, so each of them is described by the
    predicate of its possible outcomes; the loops are shown to stay inside it. */
module Inheritance {
  import opened RawData
  import opened Text
  import opened Grouping

  // ---- label renaming ----------------------------------------------------

  /** "<prefix>.<key without <prefix>_>" */
  function AttributeKey(prefix: string, key: string): string {
    prefix + "." + TrimPrefix(key, prefix + "_")
  }

  /** Possible results of copying labels under their new keys: a colliding key keeps
      the value of whichever label the range visited last. */
  ghost predicate Prefixed(labels: Labels, prefix: string, out: map<string, Leaf>) {
    && (forall k :: k in labels ==> AttributeKey(prefix, k) in out)
    && (forall a :: a in out ==> exists k :: k in labels && AttributeKey(prefix, k) == a && out[a] == Str(labels[k]))
  }

  /** The label loop of FromMetricWithPrefixedLabels and labelsFromMetric. */
  method PrefixLabels(labels: Labels, prefix: string) returns (out: map<string, Leaf>)
    ensures Prefixed(labels, prefix, out)
  {
    out := map[];
    var todo := labels.Keys;
    while todo != {}
      invariant todo <= labels.Keys
      invariant forall k :: k in labels && k !in todo ==> AttributeKey(prefix, k) in out
      invariant forall a :: a in out ==>
                    exists k :: k in labels && AttributeKey(prefix, k) == a && out[a] == Str(labels[k])
      decreases |todo|
    {
      var k :| k in todo;
      out := out[AttributeKey(prefix, k) := Str(labels[k])];
      todo := todo - {k};
    }
  }

  /** No label x competes with prefix_x for one attribute with a different value. A label that
      itself starts with prefix_ is stripped once, so it competes with nothing shorter. */
  ghost predicate CollisionFree(labels: Labels, prefix: string) {
    forall x :: x in labels && !HasPrefix(x, prefix + "_") && prefix + "_" + x in labels ==>
                  labels[x] == labels[prefix + "_" + x]
  }

  /** A label that does not start with prefix_ keeps its name, one that does loses it once. */
  lemma AttributeKeys(prefix: string, x: string)
    ensures !HasPrefix(x, prefix + "_") ==> AttributeKey(prefix, x) == prefix + "." + x
    ensures AttributeKey(prefix, prefix + "_" + x) == prefix + "." + x
  {
    var p := prefix + "_";
    assert p <= p + x && (p + x)[|p|..] == x;
  }

  /** What is left of a label's name. */
  lemma Stripped(prefix: string, k: string) returns (x: string)
    ensures AttributeKey(prefix, k) == prefix + "." + x
    ensures (k == x && !HasPrefix(x, prefix + "_")) || k == prefix + "_" + x
  {
    var p := prefix + "_";
    if HasPrefix(k, p) {
      x := k[|p|..];
      assert k == p + x;
    } else {
      x := k;
    }
    AttributeKeys(prefix, x);
  }

  lemma SameAttribute(prefix: string, x: string, y: string)
    requires prefix + "." + x == prefix + "." + y
    ensures x == y
  {
    PrefixCancel(prefix + ".", x, y);
  }

  /** Labels that get one attribute are the same, or x and prefix_x. */
  lemma SharedAttribute(prefix: string, j: string, k: string) returns (x: string)
    requires AttributeKey(prefix, j) == AttributeKey(prefix, k)
    ensures j == k || (!HasPrefix(x, prefix + "_") &&
                       ((j == x && k == prefix + "_" + x) || (k == x && j == prefix + "_" + x)))
  {
    x := Stripped(prefix, j);
    var y := Stripped(prefix, k);
    SameAttribute(prefix, x, y);
  }

  lemma CollisionFreeAgrees(labels: Labels, prefix: string, j: string, k: string)
    requires CollisionFree(labels, prefix) && j in labels && k in labels
    requires AttributeKey(prefix, j) == AttributeKey(prefix, k)
    ensures labels[j] == labels[k]
  {
    var x := SharedAttribute(prefix, j, k);
  }

  /** The attributes, name by name: prefix.x is reported exactly if there is a label prefix_x, or
      a label x that does not start with prefix_; with the value of that label, of either one if
      there are both. Nothing else is reported. */
  lemma PrefixedExact(labels: Labels, prefix: string, out: map<string, Leaf>, x: string)
    requires Prefixed(labels, prefix, out)
    ensures prefix + "." + x in out <==> prefix + "_" + x in labels || (x in labels && !(prefix + "_" <= x))
    ensures prefix + "_" + x in labels && (x !in labels || prefix + "_" <= x) ==>
              out[prefix + "." + x] == Str(labels[prefix + "_" + x])
    ensures x in labels && !(prefix + "_" <= x) && prefix + "_" + x !in labels ==>
              out[prefix + "." + x] == Str(labels[x])
    ensures x in labels && !(prefix + "_" <= x) && prefix + "_" + x in labels ==>
              out[prefix + "." + x] in {Str(labels[x]), Str(labels[prefix + "_" + x])}
    ensures forall a :: a in out ==> prefix + "." <= a
  {
    AttributeKeys(prefix, x);
    var a := prefix + "." + x;
    if a in out {
      var k :| k in labels && AttributeKey(prefix, k) == a && out[a] == Str(labels[k]);
      var y := Stripped(prefix, k);
      SameAttribute(prefix, x, y);
    }
    forall b | b in out ensures prefix + "." <= b {
      var k :| k in labels && AttributeKey(prefix, k) == b && out[b] == Str(labels[k]);
      var y := Stripped(prefix, k);
    }
  }

  ghost function Winner(labels: Labels, prefix: string, a: string, favourite: string): (k: string)
    requires exists j :: j in labels && AttributeKey(prefix, j) == a
    ensures k in labels && AttributeKey(prefix, k) == a
    ensures favourite in labels && AttributeKey(prefix, favourite) == a ==> k == favourite
  {
    if favourite in labels && AttributeKey(prefix, favourite) == a then favourite
    else var k :| k in labels && AttributeKey(prefix, k) == a; k
  }

  /** The outcome in which a given label wins its key. */
  ghost function PrefixedWith(labels: Labels, prefix: string, favourite: string): (out: map<string, Leaf>)
    ensures Prefixed(labels, prefix, out)
    ensures favourite in labels ==> out[AttributeKey(prefix, favourite)] == Str(labels[favourite])
  {
    map a | a in (set k | k in labels :: AttributeKey(prefix, k)) ::
      Str(labels[Winner(labels, prefix, a, favourite)])
  }

  /** Label order never shows in the result exactly when no two labels x and prefix_x, of which
      x does not start with prefix_, have different values. */
  lemma PrefixedDeterministic(labels: Labels, prefix: string)
    ensures (forall a, b :: Prefixed(labels, prefix, a) && Prefixed(labels, prefix, b) ==> a == b)
       <==> (forall x :: x in labels && !(prefix + "_" <= x) && prefix + "_" + x in labels ==>
                           labels[x] == labels[prefix + "_" + x])
  {
    if CollisionFree(labels, prefix) {
      forall a, b | Prefixed(labels, prefix, a) && Prefixed(labels, prefix, b) ensures a == b {
        PrefixedAgree(labels, prefix, a, b);
      }
    } else {
      var j :| j in labels && !HasPrefix(j, prefix + "_") && prefix + "_" + j in labels &&
               labels[j] != labels[prefix + "_" + j];
      var k := prefix + "_" + j;
      AttributeKeys(prefix, j);
      var a, b := PrefixedWith(labels, prefix, j), PrefixedWith(labels, prefix, k);
      assert a[AttributeKey(prefix, j)] != b[AttributeKey(prefix, j)];
      assert Prefixed(labels, prefix, a) && Prefixed(labels, prefix, b) && a != b;
    }
  }

  lemma PrefixedAgree(labels: Labels, prefix: string, a: map<string, Leaf>, b: map<string, Leaf>)
    requires CollisionFree(labels, prefix)
    requires Prefixed(labels, prefix, a) && Prefixed(labels, prefix, b)
    ensures a == b
  {
    forall x | x in a ensures x in b && a[x] == b[x] {
      SameWinner(labels, prefix, a, b, x);
    }
    forall x | x in b ensures x in a {
      SameWinner(labels, prefix, b, a, x);
    }
  }

  lemma SameWinner(labels: Labels, prefix: string, a: map<string, Leaf>, b: map<string, Leaf>, x: string)
    requires CollisionFree(labels, prefix)
    requires Prefixed(labels, prefix, a) && Prefixed(labels, prefix, b) && x in a
    ensures x in b && a[x] == b[x]
  {
    var j :| j in labels && AttributeKey(prefix, j) == x && a[x] == Str(labels[j]);
    var k :| k in labels && AttributeKey(prefix, k) == x && b[x] == Str(labels[k]);
    CollisionFreeAgrees(labels, prefix, j, k);
  }

  // ---- choosing a metric -------------------------------------------------

  datatype Pick = NoPick | Pick(key: string, value: RawValue)

  ghost predicate HasSingle(ms: RawMetrics) {
    exists k :: k in ms && ms[k].Single?
  }

  /** Possible results of getRandomMetric: some bare Metric if there is one, else
      whatever the range visited last, else nothing. */
  ghost predicate RandomMetric(ms: RawMetrics, p: Pick) {
    if ms == map[] then p == NoPick
    else p.Pick? && p.key in ms && ms[p.key] == p.value && (HasSingle(ms) ==> p.value.Single?)
  }

  method GetRandomMetric(ms: RawMetrics) returns (p: Pick)
    ensures RandomMetric(ms, p)
  {
    p := NoPick;
    var todo := ms.Keys;
    while todo != {}
      invariant todo <= ms.Keys
      invariant p == NoPick <==> todo == ms.Keys
      invariant p.Pick? ==> p.key in ms && ms[p.key] == p.value
      invariant forall k :: k in ms && k !in todo ==> !ms[k].Single?
      decreases |todo|
    {
      var k :| k in todo;
      p := Pick(k, ms[k]);
      if p.value.Single? {
        return;
      }
      todo := todo - {k};
    }
  }

  predicate ContainsLabels(m: Metric, a: string, b: string) {
    a in m.labels && b in m.labels
  }

  ghost predicate Qualifies(ms: RawMetrics, k: string, a: string, b: string) {
    k in ms && ms[k].Single? && ContainsLabels(ms[k].metric, a, b)
  }

  /** Possible results of getRandomMetricWithLabels for two required labels. */
  ghost predicate RandomMetricWithLabels(ms: RawMetrics, a: string, b: string, r: Result<Metric>) {
    if exists k :: Qualifies(ms, k, a, b)
    then exists k :: Qualifies(ms, k, a, b) && r == Ok(ms[k].metric)
    else r == Err(LabelNotFound(b))
  }

  method GetRandomMetricWithLabels(ms: RawMetrics, a: string, b: string) returns (r: Result<Metric>)
    ensures RandomMetricWithLabels(ms, a, b, r)
  {
    var todo := ms.Keys;
    while todo != {}
      invariant todo <= ms.Keys
      invariant forall k :: k in ms && k !in todo ==> !Qualifies(ms, k, a, b)
      decreases |todo|
    {
      var k :| k in todo;
      if ms[k].Single? && ContainsLabels(ms[k].metric, a, b) {
        assert Qualifies(ms, k, a, b);
        return Ok(ms[k].metric);
      }
      todo := todo - {k};
    }
    return Err(LabelNotFound(b));
  }

  // ---- parent resolution -------------------------------------------------

  function IdFromPick(p: Pick, parent: string): Result<string> {
    if !(p.Pick? && p.value.Single?) then Err(IncompatibleType(parent))
    else if parent in p.value.metric.labels then Ok(p.value.metric.labels[parent])
    else Err(LabelNotFound(parent))
  }

  function IdFromMetric(r: Result<Metric>, parent: string): Result<string> {
    match r
    case Err(e) => Err(e)
    case Ok(m) =>
      if "namespace" !in m.labels then Err(LabelNotFound("namespace"))
      else if parent !in m.labels then Err(LabelNotFound(parent))
      else Ok(Joined(m.labels["namespace"], m.labels[parent]))
  }

  /** Possible results of getRawEntityID for an entity with metrics ms. */
  ghost predicate ParentId(parent: string, ms: RawMetrics, r: Result<string>) {
    if Global(parent) then exists p :: RandomMetric(ms, p) && r == IdFromPick(p, parent)
    else exists m :: RandomMetricWithLabels(ms, "namespace", parent, m) && r == IdFromMetric(m, parent)
  }

  method GetRawEntityID(parent: string, group: string, entity: string, groups: RawGroups) returns (r: Result<string>)
    ensures entity !in EntitiesOf(groups, group) ==> r == Err(EntityNotFound(entity))
    ensures entity in EntitiesOf(groups, group) ==> ParentId(parent, groups[group][entity], r)
  {
    if group !in groups || entity !in groups[group] {
      return Err(EntityNotFound(entity));
    }
    if Global(parent) {
      var p := GetRandomMetric(groups[group][entity]);
      r := IdFromPick(p, parent);
    } else {
      var m := GetRandomMetricWithLabels(groups[group][entity], "namespace", parent);
      r := IdFromMetric(m, parent);
    }
  }

  ghost predicate LabelsOf(v: Result<RawValue>, prefix: string, ifMissing: Error, out: Result<Fetched>) {
    match v
    case Ok(Single(m)) => out.Ok? && out.value.Bundle? && Prefixed(m.labels, prefix, out.value.values)
    case _ => out == Err(ifMissing)
  }

  /** Possible results of labelsFromMetric, hence of InheritAllLabelsFrom with prefix
      "label" and of InheritAllSelectorsFrom with prefix "selector". */
  ghost predicate Inherited(parent: string, metric: string, group: string, entity: string,
                            groups: RawGroups, prefix: string, out: Result<Fetched>) {
    if entity !in EntitiesOf(groups, group) then out == Err(EntityNotFound(entity))
    else exists id :: ParentId(parent, groups[group][entity], id) &&
                      InheritedVia(id, parent, metric, groups, prefix, out)
  }

  ghost predicate InheritedVia(id: Result<string>, parent: string, metric: string, groups: RawGroups,
                               prefix: string, out: Result<Fetched>) {
    match id
    case Err(e) => out == Err(e)
    case Ok(parentId) =>
      LabelsOf(FromRaw(metric, parent, parentId, groups), prefix, RelatedMetricNotFound(metric), out)
  }

  method LabelsFromMetric(parent: string, metric: string, group: string, entity: string,
                          groups: RawGroups, prefix: string) returns (out: Result<Fetched>)
    ensures Inherited(parent, metric, group, entity, groups, prefix, out)
  {
    var id := GetRawEntityID(parent, group, entity, groups);
    match id {
      case Err(e) => out := Err(e);
      case Ok(parentId) =>
        match FromRaw(metric, parent, parentId, groups) {
          case Ok(Single(m)) =>
            var values := PrefixLabels(m.labels, prefix);
            out := Ok(Bundle(values));
          case _ => out := Err(RelatedMetricNotFound(metric));
        }
        assert InheritedVia(id, parent, metric, groups, prefix, out);
    }
  }

  /** Possible results of FromMetricWithPrefixedLabels; a missing metric is not an error. */
  ghost predicate OwnLabels(metric: string, prefix: string, group: string, entity: string,
                            groups: RawGroups, out: Result<Fetched>) {
    var v := FromRaw(metric, group, entity, groups);
    if v.Err? then out == Ok(Scalar(Nil)) else LabelsOf(v, prefix, IncompatibleType(metric), out)
  }

  method FromMetricWithPrefixedLabels(metric: string, prefix: string, group: string, entity: string, groups: RawGroups)
    returns (out: Result<Fetched>)
    ensures OwnLabels(metric, prefix, group, entity, groups, out)
  {
    match FromRaw(metric, group, entity, groups) {
      case Err(_) => out := Ok(Scalar(Nil));
      case Ok(Single(m)) =>
        var values := PrefixLabels(m.labels, prefix);
        out := Ok(Bundle(values));
      case Ok(_) => out := Err(IncompatibleType(metric));
    }
  }

  /** The direct fetch, by what is stored: nothing for a missing metric, an error for anything
      but a bare metric, the renamed labels of that. */
  lemma OwnLabelsExact(metric: string, prefix: string, group: string, entity: string, groups: RawGroups,
                       out: Result<Fetched>)
    requires OwnLabels(metric, prefix, group, entity, groups, out)
    ensures var v := Cell(EntitiesOf(groups, group), entity, metric);
            && (v.None? ==> out == Ok(Scalar(Nil)))
            && (v.Some? && !v.value.Single? ==> out == Err(IncompatibleType(metric)))
            && (v.Some? && v.value.Single? ==>
                  out.Ok? && out.value.Bundle? && Prefixed(v.value.metric.labels, prefix, out.value.values))
  {
  }

  /** The metric through which a parent is found, and the ID its labels spell. */
  ghost predicate LeadsTo(ms: RawMetrics, k: string, parent: string, id: string) {
    && k in ms && ms[k].Single? && parent in ms[k].metric.labels
    && var labels := ms[k].metric.labels;
       if parent in {"namespace", "node", "persistentvolume"} then id == labels[parent]
       else "namespace" in labels && id == labels["namespace"] + "_" + labels[parent]
  }

  lemma ParentIdIff(parent: string, ms: RawMetrics, id: string)
    ensures ParentId(parent, ms, Ok(id)) <==> exists k :: LeadsTo(ms, k, parent, id)
  {
    if ParentId(parent, ms, Ok(id)) {
      if Global(parent) {
        var p :| RandomMetric(ms, p) && Ok(id) == IdFromPick(p, parent);
        assert LeadsTo(ms, p.key, parent, id);
      } else {
        var m :| RandomMetricWithLabels(ms, "namespace", parent, m) && Ok(id) == IdFromMetric(m, parent);
        var k :| Qualifies(ms, k, "namespace", parent) && m == Ok(ms[k].metric);
        assert LeadsTo(ms, k, parent, id);
      }
    }
    if k :| LeadsTo(ms, k, parent, id) {
      if Global(parent) {
        assert RandomMetric(ms, Pick(k, ms[k])) && Ok(id) == IdFromPick(Pick(k, ms[k]), parent);
      } else {
        assert Qualifies(ms, k, "namespace", parent);
        var m := Ok(ms[k].metric);
        assert RandomMetricWithLabels(ms, "namespace", parent, m) && Ok(id) == IdFromMetric(m, parent);
      }
    }
  }

  /** When resolving a parent can fail, and how: without a bare metric that carries what is
      needed, and for global parents also by visiting one that does not. */
  lemma ParentFailsIff(parent: string, ms: RawMetrics, e: Error)
    ensures ParentId(parent, ms, Err(e)) <==>
            if parent == "namespace" || parent == "node" || parent == "persistentvolume" then
              || (e == IncompatibleType(parent) && forall k :: k in ms ==> !ms[k].Single?)
              || (e == LabelNotFound(parent) &&
                  exists k :: k in ms && ms[k].Single? && parent !in ms[k].metric.labels)
            else
              e == LabelNotFound(parent) &&
              forall k :: k in ms && ms[k].Single? ==>
                            !("namespace" in ms[k].metric.labels && parent in ms[k].metric.labels)
  {
    if Global(parent) {
      if k :| k in ms && ms[k].Single? && parent !in ms[k].metric.labels {
        assert RandomMetric(ms, Pick(k, ms[k])) && IdFromPick(Pick(k, ms[k]), parent) == Err(LabelNotFound(parent));
      }
      if forall k :: k in ms ==> !ms[k].Single? {
        var p := NoPick;
        if k :| k in ms {
          p := Pick(k, ms[k]);
        }
        assert RandomMetric(ms, p) && IdFromPick(p, parent) == Err(IncompatibleType(parent));
      }
    } else {
      assert forall k :: Qualifies(ms, k, "namespace", parent) <==>
                           k in ms && ms[k].Single? && "namespace" in ms[k].metric.labels &&
                           parent in ms[k].metric.labels;
      if forall k :: !Qualifies(ms, k, "namespace", parent) {
        var m := Err(LabelNotFound(parent));
        assert RandomMetricWithLabels(ms, "namespace", parent, m);
        assert IdFromMetric(m, parent) == Err(LabelNotFound(parent));
      }
    }
  }

  /** Inheriting succeeds with exactly the renamings of the labels of a bare metric of a parent
      that some bare metric of the entity leads to. */
  lemma InheritedIff(parent: string, metric: string, group: string, entity: string, groups: RawGroups, prefix: string,
                     out: Result<Fetched>)
    requires out.Ok?
    ensures Inherited(parent, metric, group, entity, groups, prefix, out) <==>
            && entity in EntitiesOf(groups, group) && out.value.Bundle?
            && exists k, id, m :: LeadsTo(groups[group][entity], k, parent, id) &&
                                  Cell(EntitiesOf(groups, parent), id, metric) == Some(Single(m)) &&
                                  Prefixed(m.labels, prefix, out.value.values)
  {
    if Inherited(parent, metric, group, entity, groups, prefix, out) {
      var id :| ParentId(parent, groups[group][entity], id) && InheritedVia(id, parent, metric, groups, prefix, out);
      ParentIdIff(parent, groups[group][entity], id.value);
      var k :| LeadsTo(groups[group][entity], k, parent, id.value);
      var m := FromRaw(metric, parent, id.value, groups).value.metric;
      assert Cell(EntitiesOf(groups, parent), id.value, metric) == Some(Single(m));
    }
    if entity in EntitiesOf(groups, group) && out.value.Bundle? {
      if k, id, m :| LeadsTo(groups[group][entity], k, parent, id) &&
                     Cell(EntitiesOf(groups, parent), id, metric) == Some(Single(m)) &&
                     Prefixed(m.labels, prefix, out.value.values) {
        ParentIdIff(parent, groups[group][entity], id);
        assert InheritedVia(Ok(id), parent, metric, groups, prefix, out);
      }
    }
  }

  // ---- same-entity inheritance -------------------------------------------

  /** Every bare metric of a built entity points back at that entity. */
  lemma OwnKey(g: RawGroups, specs: set<string>, items: seq<Item>, group: string, entity: string, name: string)
    requires IsGrouping(g, specs, items) && group != "container"
    requires entity in EntitiesOf(g, group) && name in g[group][entity] && g[group][entity][name].Single?
    ensures var m := g[group][entity][name].metric;
            && group in m.labels
            && (Global(group) ==> m.labels[group] == entity)
            && (!Global(group) && "namespace" in m.labels ==> Joined(m.labels["namespace"], m.labels[group]) == entity)
  {
    StoredSeries(g, specs, items, group, entity, name);
  }

  ghost predicate SomeSingleHas(ms: RawMetrics, key: string) {
    exists k :: k in ms && ms[k].Single? && key in ms[k].metric.labels
  }

  /** When the parent of a built entity is looked up in its own group, it is itself. */
  lemma OwnParent(g: RawGroups, specs: set<string>, items: seq<Item>, group: string, entity: string, id: Result<string>)
    requires IsGrouping(g, specs, items) && group != "container"
    requires entity in EntitiesOf(g, group)
    requires ParentId(group, g[group][entity], id)
    ensures id.Ok? ==> id.value == entity
    ensures id.Ok? <==>
            if Global(group) then HasSingle(g[group][entity]) else SomeSingleHas(g[group][entity], "namespace")
  {
    var ms := g[group][entity];
    if Global(group) {
      var p :| RandomMetric(ms, p) && id == IdFromPick(p, group);
      if p.Pick? && p.value.Single? {
        OwnKey(g, specs, items, group, entity, p.key);
      }
    } else {
      var m :| RandomMetricWithLabels(ms, "namespace", group, m) && id == IdFromMetric(m, group);
      if m.Ok? {
        var k :| Qualifies(ms, k, "namespace", group) && m == Ok(ms[k].metric);
        OwnKey(g, specs, items, group, entity, k);
      } else {
        forall k | k in ms && ms[k].Single? ensures "namespace" !in ms[k].metric.labels {
          OwnKey(g, specs, items, group, entity, k);
          assert !Qualifies(ms, k, "namespace", group);
        }
      }
    }
  }

  lemma ParentIdExists(parent: string, ms: RawMetrics) returns (id: Result<string>)
    ensures ParentId(parent, ms, id)
  {
    if Global(parent) {
      var p := NoPick;
      if HasSingle(ms) {
        var k :| k in ms && ms[k].Single?;
        p := Pick(k, ms[k]);
      } else if ms != map[] {
        var k :| k in ms;
        p := Pick(k, ms[k]);
      }
      assert RandomMetric(ms, p);
      id := IdFromPick(p, parent);
    } else {
      var m: Result<Metric> := Err(LabelNotFound(parent));
      if k :| Qualifies(ms, k, "namespace", parent) {
        m := Ok(ms[k].metric);
      }
      assert RandomMetricWithLabels(ms, "namespace", parent, m);
      id := IdFromMetric(m, parent);
    }
  }

  /** The condition under which the slow, parent-resolving fetch of an entity's own
      metric can stand in for the direct one. */
  ghost predicate SelfInheritable(ms: RawMetrics, group: string, metric: string) {
    metric in ms && ms[metric].Single? && (Global(group) || SomeSingleHas(ms, "namespace"))
  }

  /** Outside "container", inheriting from one's own group has exactly the outcomes of
      the direct fetch, for every choice of random metric, when SelfInheritable holds. */
  lemma SelfInheritance(g: RawGroups, specs: set<string>, items: seq<Item>, group: string, entity: string,
                        metric: string, prefix: string, out: Result<Fetched>)
    requires IsGrouping(g, specs, items) && group != "container"
    requires entity in EntitiesOf(g, group)
    requires SelfInheritable(g[group][entity], group, metric)
    ensures Inherited(group, metric, group, entity, g, prefix, out)
       <==> OwnLabels(metric, prefix, group, entity, g, out)
  {
    var ms := g[group][entity];
    if Inherited(group, metric, group, entity, g, prefix, out) {
      var id :| ParentId(group, ms, id) && InheritedVia(id, group, metric, g, prefix, out);
      OwnParent(g, specs, items, group, entity, id);
    }
    if OwnLabels(metric, prefix, group, entity, g, out) {
      var id := ParentIdExists(group, ms);
      OwnParent(g, specs, items, group, entity, id);
      assert InheritedVia(id, group, metric, g, prefix, out);
    }
  }

  ghost predicate BothSucceed(g: RawGroups, group: string, entity: string, metric: string, prefix: string) {
    exists out: Result<Fetched> :: out.Ok? && Inherited(group, metric, group, entity, g, prefix, out) &&
                                   OwnLabels(metric, prefix, group, entity, g, out)
  }

  /** ... and the two never succeed with a common value otherwise. */
  lemma SelfInheritanceExact(g: RawGroups, specs: set<string>, items: seq<Item>, group: string, entity: string,
                             metric: string, prefix: string)
    requires IsGrouping(g, specs, items) && group != "container"
    requires entity in EntitiesOf(g, group)
    ensures BothSucceed(g, group, entity, metric, prefix) <==> SelfInheritable(g[group][entity], group, metric)
  {
    var ms := g[group][entity];
    if SelfInheritable(ms, group, metric) {
      var out := Ok(Bundle(PrefixedWith(ms[metric].metric.labels, prefix, "")));
      assert OwnLabels(metric, prefix, group, entity, g, out);
      SelfInheritance(g, specs, items, group, entity, metric, prefix, out);
    } else if BothSucceed(g, group, entity, metric, prefix) {
      var out: Result<Fetched> :| out.Ok? && Inherited(group, metric, group, entity, g, prefix, out) &&
                 OwnLabels(metric, prefix, group, entity, g, out);
      var id :| ParentId(group, ms, id) && InheritedVia(id, group, metric, g, prefix, out);
      OwnParent(g, specs, items, group, entity, id);
      assert false;
    }
  }

  ghost predicate NamesWithoutUnderscore(items: seq<Item>, group: string) {
    forall i :: 0 <= i < |items| && Eligible(group, items[i].1) ==>
                  '_' !in LabelOr(items[i].1, "namespace") && '_' !in LabelOr(items[i].1, group)
  }

  lemma {:induction false} SeriesFromItems(group: string, entity: string, name: string, items: seq<Item>, i: nat)
    requires i < |SeriesOf(group, entity, name, items)|
    ensures exists j :: 0 <= j < |items| && items[j] == (name, SeriesOf(group, entity, name, items)[i])
  {
    var front, last := items[..|items| - 1], items[|items| - 1];
    if i < |SeriesOf(group, entity, name, front)| {
      SeriesFromItems(group, entity, name, front, i);
      var j :| 0 <= j < |front| && front[j] == (name, SeriesOf(group, entity, name, front)[i]);
      assert items[j] == front[j];
    } else {
      assert items[|items| - 1] == (name, SeriesOf(group, entity, name, items)[i]);
    }
  }

  /** Every bare metric in a cell is one of the grouped items. */
  lemma SingleFromItems(g: RawGroups, specs: set<string>, items: seq<Item>, group: string, entity: string, name: string)
    requires IsGrouping(g, specs, items)
    requires entity in EntitiesOf(g, group) && name in g[group][entity] && g[group][entity][name].Single?
    ensures exists j :: 0 <= j < |items| && items[j] == (name, g[group][entity][name].metric)
  {
    assert IsTable(EntitiesOf(g, group), group, items);
    assert Cell(g[group], entity, name) == Pack(SeriesOf(group, entity, name, items));
    SeriesFromItems(group, entity, name, items, 0);
  }

  /** A container key has two separators, the key its parent resolution builds has one:
      for ordinary names, inheriting from "container" inside "container" always fails. */
  lemma ContainerSelfInheritanceFails(g: RawGroups, specs: set<string>, items: seq<Item>, entity: string,
                                      metric: string, prefix: string, out: Result<Fetched>)
    requires IsGrouping(g, specs, items) && NamesWithoutUnderscore(items, "container")
    requires entity in EntitiesOf(g, "container")
    requires Inherited("container", metric, "container", entity, g, prefix, out)
    ensures out.Err?
  {
    var id :| ParentId("container", g["container"][entity], id) &&
              InheritedVia(id, "container", metric, g, prefix, out);
    if id.Ok? {
      var m := ContainerParentMetric(g, specs, items, entity, id);
      OneSeparator(m.labels["namespace"], m.labels["container"]);
      if id.value in g["container"] {
        ContainerKeySeparators(g, specs, items, id.value);
      }
    }
  }

  /** The metric through which a container's parent was resolved. */
  lemma ContainerParentMetric(g: RawGroups, specs: set<string>, items: seq<Item>, entity: string, id: Result<string>)
    returns (m: Metric)
    requires IsGrouping(g, specs, items) && entity in EntitiesOf(g, "container")
    requires ParentId("container", g["container"][entity], id) && id.Ok?
    ensures "namespace" in m.labels && "container" in m.labels
    ensures id.value == Joined(m.labels["namespace"], m.labels["container"])
    ensures Eligible("container", m) && EntityKey("container", m) == entity
    ensures exists j :: 0 <= j < |items| && items[j].1 == m
  {
    var ms := g["container"][entity];
    var r :| RandomMetricWithLabels(ms, "namespace", "container", r) && id == IdFromMetric(r, "container");
    var k :| Qualifies(ms, k, "namespace", "container") && r == Ok(ms[k].metric);
    m := ms[k].metric;
    SingleFromItems(g, specs, items, "container", entity, k);
    StoredSeries(g, specs, items, "container", entity, k);
  }

  lemma OneSeparator(a: string, b: string)
    requires '_' !in a && '_' !in b
    ensures Occurrences('_', Joined(a, b)) == 1
  {
    OccurrencesZero('_', a);
    OccurrencesZero('_', b);
    JoinedSeparators(a, b);
  }

  lemma ContainerKeySeparators(g: RawGroups, specs: set<string>, items: seq<Item>, entity: string)
    requires IsGrouping(g, specs, items)
    requires entity in EntitiesOf(g, "container")
    ensures Occurrences('_', entity) >= 2
  {
    assert IsTable(g["container"], "container", items);
    var name :| name in g["container"][entity];
    StoredSeries(g, specs, items, "container", entity, name);
    var v := g["container"][entity][name];
    var m := if v.Single? then v.metric else v.metrics[0];
    var ns, pod, c := LabelOr(m, "namespace"), LabelOr(m, "pod"), LabelOr(m, "container");
    assert entity == ((ns + "_") + (pod + "_")) + c;
    OccurrencesConcat('_', ns, "_");
    OccurrencesConcat('_', pod, "_");
    OccurrencesConcat('_', ns + "_", pod + "_");
    OccurrencesConcat('_', (ns + "_") + (pod + "_"), c);
  }
}
