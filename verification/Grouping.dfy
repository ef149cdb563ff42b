/** GroupMetricsBySpec: the index from (group, entity, metric name) to series that
    every Prometheus fetch function reads (src/prometheus/definition.go). */
module Grouping {
  import opened RawData
  import opened Text

  /** Groups whose entity key is the label value alone. */
  predicate Global(group: string) {
    group == "namespace" || group == "node" || group == "persistentvolume"
  }

  /** Whether a series takes part in a group: it has the label and is not too specific. */
  predicate Eligible(group: string, m: Metric) {
    && group in m.labels
    && !(group == "node" && "pod" in m.labels)
    && !(group == "namespace" &&
         ("daemonset" in m.labels || "pod" in m.labels || "endpoint" in m.labels ||
          "service" in m.labels || "deployment" in m.labels || "replicaset" in m.labels))
  }

  /** A Go map read of a missing key yields the empty string. */
  function LabelOr(m: Metric, key: string): string {
    if key in m.labels then m.labels[key] else ""
  }

  function EntityKey(group: string, m: Metric): string {
    if Global(group) then LabelOr(m, group)
    else if group == "container" then
      Joined(Joined(LabelOr(m, "namespace"), LabelOr(m, "pod")), LabelOr(m, group))
    else Joined(LabelOr(m, "namespace"), LabelOr(m, group))
  }

  type Item = (string, Metric)

  /** The first j series of a family, each with the family name. */
  function ItemsUpTo(f: MetricFamily, j: nat): seq<Item>
    requires j <= |f.metrics|
  {
    if j == 0 then [] else ItemsUpTo(f, j - 1) + [(f.name, f.metrics[j - 1])]
  }

  function ItemsOf(f: MetricFamily): seq<Item> {
    ItemsUpTo(f, |f.metrics|)
  }

  /** All series of all families in input order, each with its family name. */
  function Items(families: seq<MetricFamily>): seq<Item> {
    if families == [] then [] else Items(families[..|families| - 1]) + ItemsOf(families[|families| - 1])
  }

  /** The series of one family come in order under its name. */
  lemma FamilyItems(f: MetricFamily)
    ensures |Items([f])| == |f.metrics|
    ensures forall j :: 0 <= j < |f.metrics| ==> Items([f])[j] == (f.name, f.metrics[j])
  {
    assert [f][..0] == [];
    ItemsUpToAt(f, |f.metrics|);
  }

  /** The series of an input come in the order of its families. */
  lemma {:induction false} ItemsConcat(fs: seq<MetricFamily>, gs: seq<MetricFamily>)
    ensures Items(fs + gs) == Items(fs) + Items(gs)
  {
    if gs == [] {
      assert fs + gs == fs;
    } else {
      var front := gs[..|gs| - 1];
      assert (fs + gs)[..|fs + gs| - 1] == fs + front;
      ItemsConcat(fs, front);
    }
  }

  lemma {:induction false} ItemsUpToAt(f: MetricFamily, j: nat)
    requires j <= |f.metrics|
    ensures |ItemsUpTo(f, j)| == j && forall i :: 0 <= i < j ==> ItemsUpTo(f, j)[i] == (f.name, f.metrics[i])
  {
    if j > 0 {
      ItemsUpToAt(f, j - 1);
    }
  }

  predicate Belongs(group: string, entity: string, name: string, it: Item) {
    it.0 == name && Eligible(group, it.1) && EntityKey(group, it.1) == entity
  }

  /** The declarative content of one cell: the series belonging there, in input order. */
  function SeriesOf(group: string, entity: string, name: string, items: seq<Item>): (s: seq<Metric>)
    ensures forall i :: 0 <= i < |s| ==> Eligible(group, s[i]) && EntityKey(group, s[i]) == entity
  {
    if items == [] then []
    else
      var last := items[|items| - 1];
      SeriesOf(group, entity, name, items[..|items| - 1]) +
      (if Belongs(group, entity, name, last) then [last.1] else [])
  }

  /** A bare Metric for one series, a list for two or more, no entry for none. */
  function Pack(s: seq<Metric>): Option<RawValue> {
    if |s| == 0 then None else if |s| == 1 then Some(Single(s[0])) else Some(Series(s))
  }

  /** The table of one group holds exactly the packed series of every cell. */
  ghost predicate IsTable(table: Entities, group: string, items: seq<Item>) {
    && (forall e :: e in table ==> table[e] != map[])
    && (forall e, n :: Cell(table, e, n) == Pack(SeriesOf(group, e, n, items)))
  }

  /** The declarative form of GroupMetricsBySpec. */
  ghost predicate IsGrouping(g: RawGroups, specs: set<string>, items: seq<Item>) {
    && g.Keys <= specs
    && (forall l :: l in g ==> g[l] != map[])
    && (forall l :: l in specs ==> IsTable(EntitiesOf(g, l), l, items))
  }

  /** The loop's nested-map update for one eligible series. */
  function Put(table: Entities, entity: string, name: string, m: Metric): Entities {
    var record := if entity in table then table[entity] else map[];
    var value :=
      if name !in record then Single(m)
      else match record[name]
        case Single(first) => Series([first, m])
        case Series(ms) => Series(ms + [m])
        case other => other;
    table[entity := record[name := value]]
  }

  lemma PutCells(table: Entities, e: string, n: string, m: Metric, e': string, n': string)
    ensures (e, n) != (e', n') ==> Cell(Put(table, e, n, m), e', n') == Cell(table, e', n')
    ensures Cell(table, e, n) == None ==> Cell(Put(table, e, n, m), e, n) == Some(Single(m))
    ensures forall first :: Cell(table, e, n) == Some(Single(first)) ==>
                            Cell(Put(table, e, n, m), e, n) == Some(Series([first, m]))
    ensures forall ms :: Cell(table, e, n) == Some(Series(ms)) ==>
                           Cell(Put(table, e, n, m), e, n) == Some(Series(ms + [m]))
  {
  }

  /** One more series keeps the table exact. */
  lemma PutStep(table: Entities, group: string, items: seq<Item>, it: Item)
    requires IsTable(table, group, items)
    ensures Eligible(group, it.1) ==>
              IsTable(Put(table, EntityKey(group, it.1), it.0, it.1), group, items + [it])
    ensures !Eligible(group, it.1) ==> IsTable(table, group, items + [it])
  {
    var more := items + [it];
    assert more[..|items|] == items;
    if Eligible(group, it.1) {
      var k := EntityKey(group, it.1);
      var t := Put(table, k, it.0, it.1);
      forall e, n ensures Cell(t, e, n) == Pack(SeriesOf(group, e, n, more)) {
        PutCells(table, k, it.0, it.1, e, n);
        assert Cell(table, e, n) == Pack(SeriesOf(group, e, n, items));
        if (e, n) == (k, it.0) {
          assert SeriesOf(group, e, n, more) == SeriesOf(group, e, n, items) + [it.1];
          PackSnoc(SeriesOf(group, e, n, items), it.1);
        } else {
          assert SeriesOf(group, e, n, more) == SeriesOf(group, e, n, items);
        }
      }
    } else {
      forall e, n ensures Cell(table, e, n) == Pack(SeriesOf(group, e, n, more)) {
        assert SeriesOf(group, e, n, more) == SeriesOf(group, e, n, items);
      }
    }
  }

  lemma PackSnoc(s: seq<Metric>, m: Metric)
    ensures |s| == 0 ==> Pack(s + [m]) == Some(Single(m))
    ensures |s| == 1 ==> Pack(s + [m]) == Some(Series([s[0], m]))
    ensures |s| >= 2 ==> Pack(s + [m]) == Some(Series(s + [m]))
  {
    if |s| == 1 {
      assert s + [m] == [s[0], m];
    }
  }

  lemma EmptyTable(group: string)
    ensures IsTable(map[], group, [])
  {
  }

  /** The innermost loop: one family's series go into one group. */
  method CollectFamily(before: RawGroups, group: string, f: MetricFamily, ghost seen: seq<Item>) returns (g: RawGroups)
    requires group in before ==> before[group] != map[]
    requires IsTable(EntitiesOf(before, group), group, seen)
    ensures g - {group} == before - {group}
    ensures group in g ==> g[group] != map[]
    ensures IsTable(EntitiesOf(g, group), group, seen + ItemsOf(f))
  {
    g := before;
    ghost var items := seen;
    for j := 0 to |f.metrics|
      invariant items == seen + ItemsUpTo(f, j)
      invariant g - {group} == before - {group}
      invariant group in g ==> g[group] != map[]
      invariant IsTable(EntitiesOf(g, group), group, items)
    {
      var m := f.metrics[j];
      PutStep(EntitiesOf(g, group), group, items, (f.name, m));
      items := items + [(f.name, m)];
      if Eligible(group, m) {
        if group !in g {
          g := g[group := map[]];
        }
        g := g[group := Put(g[group], EntityKey(group, m), f.name, m)];
      }
    }
  }

  /** The middle loop: one group's table, the other groups untouched. */
  method CollectGroup(others: RawGroups, group: string, families: seq<MetricFamily>) returns (g: RawGroups)
    requires group !in others
    ensures g - {group} == others
    ensures group in g ==> g[group] != map[]
    ensures IsTable(EntitiesOf(g, group), group, Items(families))
  {
    g := others;
    EmptyTable(group);
    for i := 0 to |families|
      invariant g - {group} == others
      invariant group in g ==> g[group] != map[]
      invariant IsTable(EntitiesOf(g, group), group, Items(families[..i]))
    {
      g := CollectFamily(g, group, families[i], Items(families[..i]));
      assert families[..i + 1][..i] == families[..i];
    }
    assert families[..|families|] == families;
  }

  /** The outer loop visits the spec groups in an arbitrary order. */
  method GroupMetricsBySpec(specs: set<string>, families: seq<MetricFamily>)
    returns (g: RawGroups, errs: seq<Error>)
    ensures IsGrouping(g, specs, Items(families))
    ensures forall l :: NoData(l) in errs <==> l in specs && l !in g
    ensures forall i :: 0 <= i < |errs| ==> errs[i].NoData?
    ensures forall i, j :: 0 <= i < j < |errs| ==> errs[i] != errs[j]
  {
    g, errs := map[], [];
    var done := {};
    while done != specs
      invariant done <= specs
      invariant IsGrouping(g, done, Items(families))
      invariant forall l :: NoData(l) in errs <==> l in done && l !in g
      invariant forall i :: 0 <= i < |errs| ==> errs[i].NoData?
      invariant forall i, j :: 0 <= i < j < |errs| ==> errs[i] != errs[j]
      decreases specs - done
    {
      assert exists l :: l in specs && l !in done;
      var group :| group in specs && group !in done;
      ghost var before := g;
      g := CollectGroup(g, group, families);
      GroupingExtended(before, g, done, group, Items(families));
      done := done + {group};
      if group !in g {
        errs := errs + [NoData(group)];
      }
    }
  }

  lemma GroupingExtended(before: RawGroups, g: RawGroups, done: set<string>, group: string, items: seq<Item>)
    requires group !in done && IsGrouping(before, done, items)
    requires g - {group} == before
    requires group in g ==> g[group] != map[]
    requires IsTable(EntitiesOf(g, group), group, items)
    ensures IsGrouping(g, done + {group}, items)
    ensures forall l :: l != group ==> (l in g <==> l in before)
  {
    assert forall l :: l != group ==> (l in g <==> l in g - {group});
    forall l | l in done ensures IsTable(EntitiesOf(g, l), l, items) {
      assert EntitiesOf(g, l) == EntitiesOf(before, l);
    }
  }

  /** The declarative form pins the result down, so no iteration order can show in it. */
  lemma GroupingUnique(g: RawGroups, h: RawGroups, specs: set<string>, items: seq<Item>)
    requires IsGrouping(g, specs, items) && IsGrouping(h, specs, items)
    ensures g == h
  {
    forall l | l in specs ensures EntitiesOf(g, l) == EntitiesOf(h, l) {
      assert IsTable(EntitiesOf(g, l), l, items) && IsTable(EntitiesOf(h, l), l, items);
      TableExtensional(EntitiesOf(g, l), EntitiesOf(h, l));
    }
    forall l ensures (l in g <==> l in h) && (l in g ==> g[l] == h[l]) {
      if l in g || l in h {
        assert EntitiesOf(g, l) == EntitiesOf(h, l);
      }
    }
  }

  /** No series is lost, duplicated or moved: a cell holds an item iff it belongs there. */
  lemma {:induction false} SeriesComplete(group: string, entity: string, name: string, items: seq<Item>, m: Metric)
    ensures multiset(SeriesOf(group, entity, name, items))[m] ==
            if Belongs(group, entity, name, (name, m)) then multiset(items)[(name, m)] else 0
  {
    if items != [] {
      var front, last := items[..|items| - 1], items[|items| - 1];
      assert items == front + [last];
      SeriesComplete(group, entity, name, front, m);
    }
  }

  /** Every series stored under an entity is eligible there and has that entity's key. */
  lemma StoredSeries(g: RawGroups, specs: set<string>, items: seq<Item>, group: string, entity: string, name: string)
    requires IsGrouping(g, specs, items)
    requires group in g && entity in g[group] && name in g[group][entity]
    ensures var v := g[group][entity][name];
            || (v.Single? && Eligible(group, v.metric) && EntityKey(group, v.metric) == entity)
            || (v.Series? && |v.metrics| >= 2 &&
                forall i :: 0 <= i < |v.metrics| ==>
                              Eligible(group, v.metrics[i]) && EntityKey(group, v.metrics[i]) == entity)
  {
    assert IsTable(EntitiesOf(g, group), group, items);
    assert Cell(g[group], entity, name) == Some(g[group][entity][name]);
  }

  // ---- the rules, written out over labels --------------------------------

  /** Labels too specific for a group of a higher level. */
  lemma EligibleIff(group: string, m: Metric)
    ensures Eligible(group, m) <==>
            && group in m.labels
            && (group == "node" ==> "pod" !in m.labels)
            && (group == "namespace" ==>
                  m.labels.Keys !! {"daemonset", "pod", "endpoint", "service", "deployment", "replicaset"})
  {
    var specific := {"daemonset", "pod", "endpoint", "service", "deployment", "replicaset"};
    if group == "namespace" && !(m.labels.Keys !! specific) {
      var x :| x in m.labels.Keys && x in specific;
      assert x in m.labels;
    }
    if m.labels.Keys !! specific {
      forall x | x in specific ensures x !in m.labels {
      }
      assert "daemonset" in specific && "pod" in specific && "endpoint" in specific;
      assert "service" in specific && "deployment" in specific && "replicaset" in specific;
    }
  }

  /** The series at the given positions, as a cell holds them. */
  function Picked(items: seq<Item>, p: seq<nat>): (s: seq<Metric>)
    requires forall i :: 0 <= i < |p| ==> p[i] < |items|
    ensures |s| == |p| && forall i :: 0 <= i < |p| ==> s[i] == items[p[i]].1
  {
    seq(|p|, i requires 0 <= i < |p| => items[p[i]].1)
  }

  ghost predicate Increasing(p: seq<nat>) {
    forall i, j :: 0 <= i < j < |p| ==> p[i] < p[j]
  }

  /** Where the series of a cell stand among the items. */
  function Positions(group: string, entity: string, name: string, items: seq<Item>): (p: seq<nat>)
    ensures forall i :: 0 <= i < |p| ==> p[i] < |items|
  {
    if items == [] then [] else
      var n := |items| - 1;
      Positions(group, entity, name, items[..n]) + (if Belongs(group, entity, name, items[n]) then [n] else [])
  }

  lemma {:induction false} PositionsIncrease(group: string, entity: string, name: string, items: seq<Item>)
    ensures Increasing(Positions(group, entity, name, items))
  {
    if items != [] {
      PositionsIncrease(group, entity, name, items[..|items| - 1]);
    }
  }

  lemma {:induction false} PositionsMembers(group: string, entity: string, name: string, items: seq<Item>, j: nat)
    requires j < |items|
    ensures j in Positions(group, entity, name, items) <==> Belongs(group, entity, name, items[j])
  {
    var n := |items| - 1;
    if j < n {
      PositionsMembers(group, entity, name, items[..n], j);
    }
  }

  lemma {:induction false} PositionsPicked(group: string, entity: string, name: string, items: seq<Item>)
    ensures SeriesOf(group, entity, name, items) == Picked(items, Positions(group, entity, name, items))
  {
    if items != [] {
      var n := |items| - 1;
      PositionsPicked(group, entity, name, items[..n]);
    }
  }

  /** What a cell of the built groups holds, by family names and labels alone: the series of the
      families of that name which carry the group's label, none of the labels too specific for
      it, and whose labels spell the entity's ID; in input order, bare if there is one. */
  lemma CellExact(g: RawGroups, specs: set<string>, items: seq<Item>, group: string, entity: string, name: string)
    returns (p: seq<nat>)
    requires IsGrouping(g, specs, items) && group in specs
    ensures Increasing(p) && forall i :: 0 <= i < |p| ==> p[i] < |items|
    ensures forall j :: 0 <= j < |items| ==>
              (j in p <==>
               var labels := items[j].1.labels;
               var ns := if "namespace" in labels then labels["namespace"] else "";
               var pod := if "pod" in labels then labels["pod"] else "";
               && items[j].0 == name && group in labels
               && (group == "node" ==> "pod" !in labels)
               && (group == "namespace" ==>
                     labels.Keys !! {"daemonset", "pod", "endpoint", "service", "deployment", "replicaset"})
               && entity == if group in {"namespace", "node", "persistentvolume"} then labels[group]
                            else if group == "container" then ns + "_" + pod + "_" + labels[group]
                            else ns + "_" + labels[group])
    ensures Cell(EntitiesOf(g, group), entity, name) ==
            if |p| == 0 then None
            else if |p| == 1 then Some(Single(items[p[0]].1))
            else Some(Series(Picked(items, p)))
  {
    p := Positions(group, entity, name, items);
    PositionsIncrease(group, entity, name, items);
    PositionsPicked(group, entity, name, items);
    assert IsTable(EntitiesOf(g, group), group, items);
    forall j | 0 <= j < |items| ensures j in p <==> Belongs(group, entity, name, items[j]) {
      PositionsMembers(group, entity, name, items, j);
    }
    forall j | 0 <= j < |items| {
      EligibleIff(group, items[j].1);
    }
  }
}
