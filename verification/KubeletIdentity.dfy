/** Populating from the kubelet never creates one entity over another
    (src/kubelet/scraper.go, src/metric/definition.go). */
module KubeletIdentity {
  import opened RawData
  import opened EntityKeys
  import opened KubeletPipeline
  import opened Population
  import opened PopulationRuns

  /** The kubelet spec groups: not split, with the generators of the kubelet metrics. */
  ghost predicate KubeletSpecs(config: Config) {
    forall l :: l in config.specs ==> KubeletGroup(config, l)
  }

  ghost predicate KubeletGroup(config: Config, l: string)
    requires l in config.specs
  {
    && l in {"node", "pod", "container", "volume"} && config.specs[l].splitByLabel == ""
    && forall raw :: IdOf(config, l, raw) == EntityId(config.groups, l, raw) &&
                     TypeOf(config, l, raw) == EntityType(config.groups, l, raw, config.clusterName)
  }

  lemma DueIdentity(config: Config, ev: Event)
    requires KubeletSpecs(config) && Due(config, ev)
    ensures ev.group in {"node", "pod", "container", "volume"} && ev.raw in EntitiesOf(config.groups, ev.group)
    ensures EntityId(config.groups, ev.group, ev.raw) == Ok(ev.id)
    ensures EntityType(config.groups, ev.group, ev.raw, config.clusterName) == Ok(ev.kind)
  {
    assert KubeletGroup(config, ev.group);
    var u :| IsUnit(config, ev.group, ev.raw, u) && Accepted(config, u) &&
             ev == Creation(config, ev.group, FilterAttributes(config, ev.group, ev.raw), u);
  }

  lemma SameEntity(config: Config, s: Sources, o: Observed, a: Event, b: Event)
    requires MadeFrom(s, o) && o.Plain() && config.groups == s.Groups() && KubeletSpecs(config)
    requires Due(config, a) && Due(config, b) && a.id == b.id && a.kind == b.kind
    ensures a.group == b.group && a.raw == b.raw
  {
    DueIdentity(config, a);
    DueIdentity(config, b);
    EntitiesStaySeparate(s, o, a.group, a.raw, b.group, b.raw, config.clusterName);
  }

  lemma KubeletIdentities(config: Config, s: Sources, o: Observed)
    requires MadeFrom(s, o) && o.Plain() && config.groups == s.Groups() && KubeletSpecs(config)
    ensures IdentityDetermines(config)
  {
    forall a: Event, b: Event | Due(config, a) && Due(config, b) && a.id == b.id && a.kind == b.kind
      ensures a.group == b.group && a.raw == b.raw
    {
      SameEntity(config, s, o, a, b);
    }
  }

  /** In every run over the merged sources, no two created entities share ID and type. */
  lemma KubeletRunsKeepIdentities(config: Config, s: Sources, o: Observed, order: seq<RawEntity>, t: Trace)
    requires MadeFrom(s, o) && o.Plain() && config.groups == s.Groups() && KubeletSpecs(config)
    requires RunTrace(config, order, t) && Visits(config, order)
    ensures OneIdentityEach(t.events)
  {
    KubeletIdentities(config, s, o);
    IdentitiesStaySeparate(config, order, t);
  }
}
