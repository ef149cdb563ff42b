/** Network metrics with fallbacks: the entity's own value, a cached interface, the
    routing table's interface, the primary physical interface; and the cache in front of
    the last two (src/kubelet/metric/network.go, src/kubelet/metric/interface_cache.go). */
module Network {
  import opened RawData
  import opened Text

  // ---- reading interfaces ------------------------------------------------

  function InterfacesOf(e: RawMetrics): Result<map<string, RawMetrics>> {
    if "interfaces" !in e then Err(Interfaces("not found"))
    else match e["interfaces"]
      case InterfaceTable(table) => Ok(table)
      case _ => Err(Interfaces("wrong format"))
  }

  /** getMetricFromInterface */
  function MetricFrom(interfaceName: string, metric: string, e: RawMetrics): Result<RawValue> {
    match InterfacesOf(e)
    case Err(err) => Err(err)
    case Ok(table) =>
      if interfaceName !in table then Err(Interfaces("interface not found"))
      else if metric !in table[interfaceName] then Err(MetricNotFound(metric))
      else Ok(table[interfaceName][metric])
  }

  function EntityMetrics(group: string, entity: string, groups: RawGroups): Result<RawMetrics> {
    if group !in groups then Err(GroupNotFound(group))
    else if entity !in groups[group] then Err(EntityNotFound(entity))
    else Ok(groups[group][entity])
  }

  /** getDefaultInterface: every failure, and the empty name, means there is none. */
  function DefaultInterface(groups: RawGroups): Option<string> {
    var cell := Cell(EntitiesOf(groups, "network"), "interfaces", "default");
    if cell.Some? && cell.value.Text? && cell.value.text != "" then Some(cell.value.text) else None
  }

  // ---- choosing an interface ---------------------------------------------

  predicate IsDigit(c: char) {
    '0' <= c <= '9'
  }

  /** ^(eth|ens|eno|enp)\d+ */
  predicate IsPhysical(name: string) {
    |name| > 3 && name[..3] in {"eth", "ens", "eno", "enp"} && IsDigit(name[3])
  }

  /** ^(eni|oci|azv|veth|cali|cni|pod-|lxc|docker|br-) */
  predicate IsCni(name: string) {
    || HasPrefix(name, "eni") || HasPrefix(name, "oci") || HasPrefix(name, "azv") || HasPrefix(name, "veth")
    || HasPrefix(name, "cali") || HasPrefix(name, "cni") || HasPrefix(name, "pod-") || HasPrefix(name, "lxc")
    || HasPrefix(name, "docker") || HasPrefix(name, "br-")
  }

  ghost function Candidates(table: map<string, RawMetrics>): set<string> {
    set name | name in table && IsPhysical(name) && !IsCni(name)
  }

  /** The candidate that sorting puts first. */
  ghost function Primary(table: map<string, RawMetrics>): Result<string> {
    var sorted := Sorted(Listed(Candidates(table)));
    if sorted == [] then Err(Interfaces("no physical interface")) else Ok(sorted[0])
  }

  /** selectPrimaryInterface: candidates are collected in map order, then sorted. */
  method SelectPrimaryInterface(table: map<string, RawMetrics>) returns (r: Result<string>)
    ensures r == Primary(table)
  {
    var candidates: seq<string> := [];
    ghost var found: set<string> := {};
    var todo := table.Keys;
    while todo != {}
      invariant todo <= table.Keys
      invariant forall n :: n in found <==> n in table && n !in todo && IsPhysical(n) && !IsCni(n)
      invariant multiset(candidates) == multiset(found)
      decreases todo
    {
      var name :| name in todo;
      if IsPhysical(name) && !IsCni(name) {
        candidates := candidates + [name];
        found := found + {name};
      }
      todo := todo - {name};
    }
    assert found == Candidates(table);
    SortedIgnoresOrder(candidates, Listed(Candidates(table)));
    candidates := Sorted(candidates);
    if |candidates| == 0 {
      return Err(Interfaces("no physical interface"));
    }
    return Ok(candidates[0]);
  }

  /** It is the alphabetically least physical interface, and fails only without one. */
  lemma PrimaryIsLeast(table: map<string, RawMetrics>)
    ensures Primary(table).Err? <==> Candidates(table) == {}
    ensures Primary(table).Ok? ==> Primary(table).value in Candidates(table) &&
                                   forall n :: n in Candidates(table) ==> LexLe(Primary(table).value, n)
  {
    var names := Candidates(table);
    var sorted := Sorted(Listed(names));
    assert multiset(sorted) == multiset(names);
    SortedIsAscending(Listed(names));
    forall n | n in names ensures n in sorted {
      assert n in multiset(names);
    }
    if sorted != [] {
      assert sorted[0] in multiset(names);
      forall n | n in names ensures LexLe(sorted[0], n) {
        HeadIsLeast(sorted, n);
      }
    }
  }

  /** The exclusion of CNI names never removes a physical interface. */
  lemma PhysicalIsNotCni(name: string)
    requires IsPhysical(name)
    ensures !IsCni(name)
  {
    var head := name[..3];
    assert name[0] == head[0] == 'e' && name[2] == head[2] != 'i';
    assert !HasPrefix(name, "eni");
    forall p | p in ["oci", "azv", "veth", "cali", "cni", "pod-", "lxc", "docker", "br-"] ensures !HasPrefix(name, p) {
      assert p[0] != 'e';
    }
  }

  /** tryRoutingTable */
  function FromRoutingTable(metric: string, e: RawMetrics, groups: RawGroups): Option<string> {
    var d := DefaultInterface(groups);
    if d.Some? && MetricFrom(d.value, metric, e).Ok? then d else None
  }

  /** resolveInterface */
  ghost function Resolve(group: string, metric: string, e: RawMetrics, groups: RawGroups): Result<string> {
    if group == "node" && FromRoutingTable(metric, e, groups).Some? then Ok(FromRoutingTable(metric, e, groups).value)
    else match InterfacesOf(e)
      case Err(err) => Err(err)
      case Ok(table) => Primary(table)
  }

  method ResolveInterface(group: string, metric: string, e: RawMetrics, groups: RawGroups) returns (r: Result<string>)
    ensures r == Resolve(group, metric, e, groups)
  {
    if group == "node" {
      var routed := FromRoutingTable(metric, e, groups);
      if routed.Some? {
        return Ok(routed.value);
      }
    }
    match InterfacesOf(e) {
      case Err(err) => r := Err(err);
      case Ok(table) => r := SelectPrimaryInterface(table);
    }
  }

  /** Physical interfaces are named eth, ens, eno or enp and a number. */
  lemma PhysicalIff(name: string)
    ensures IsPhysical(name) <==>
            exists p, d, rest :: p in {"eth", "ens", "eno", "enp"} && d in "0123456789" && name == p + [d] + rest
  {
    if IsPhysical(name) {
      var p, d, rest := name[..3], name[3], name[4..];
      assert name == p + [d] + rest;
      assert d in "0123456789";
    }
    if p, d, rest :| p in {"eth", "ens", "eno", "enp"} && d in "0123456789" && name == p + [d] + rest {
      assert |p| == 3 && name[..3] == p && name[3] == d;
    }
  }

  // ---- the cache ---------------------------------------------------------

  class InterfaceCache {
    var cache: map<string, string>

    constructor ()
      ensures cache == map[]
    {
      cache := map[];
    }

    method Get(entity: string) returns (r: Option<string>)
      ensures r == if entity in cache then Some(cache[entity]) else None
    {
      r := if entity in cache then Some(cache[entity]) else None;
    }

    method Put(entity: string, interfaceName: string)
      modifies this
      ensures cache == old(cache)[entity := interfaceName]
    {
      cache := cache[entity := interfaceName];
    }

    method Vacuum()
      modifies this
      ensures cache == map[]
    {
      cache := map[];
    }
  }

  datatype Lookup = Lookup(group: string, entity: string, metric: string)

  /** The lookup without a cache. */
  ghost function Cacheless(q: Lookup, groups: RawGroups): Result<RawValue> {
    match EntityMetrics(q.group, q.entity, groups)
    case Err(err) => Err(err)
    case Ok(e) =>
      if q.metric in e then Ok(e[q.metric])
      else match Resolve(q.group, q.metric, e, groups)
        case Err(err) => Err(err)
        case Ok(i) => MetricFrom(i, q.metric, e)
  }

  /** The interface of the routing table that reports the metric, for nodes only. */
  ghost predicate Routed(q: Lookup, groups: RawGroups, table: map<string, RawMetrics>, i: string) {
    && q.group == "node" && i != "" && i in table && q.metric in table[i]
    && Cell(EntitiesOf(groups, "network"), "interfaces", "default") == Some(Text(i))
  }

  /** The alphabetically least interface that is physical. */
  ghost predicate LeastPhysical(table: map<string, RawMetrics>, i: string) {
    i in table && IsPhysical(i) && forall n :: n in table && IsPhysical(n) ==> LexLe(i, n)
  }

  lemma LeastIsPrimary(table: map<string, RawMetrics>, i: string)
    ensures Primary(table) == Ok(i) <==> LeastPhysical(table, i)
    ensures Primary(table).Err? ==> Primary(table) == Err(Interfaces("no physical interface"))
    ensures Primary(table).Err? <==> forall n :: n in table ==> !IsPhysical(n)
  {
    forall n | n in table ensures n in Candidates(table) <==> IsPhysical(n) {
      if IsPhysical(n) {
        PhysicalIsNotCni(n);
      }
    }
    PrimaryIsLeast(table);
    if Primary(table).Ok? && LeastPhysical(table, i) {
      LexAntisymmetric(i, Primary(table).value);
    }
  }

  /** The lookup without a cache, by what the entity and the network group report: the entity's
      own value; else that of the routing table's interface if it reports the metric; else that
      of the least physical interface, which may not report it. */
  lemma CachelessExact(q: Lookup, groups: RawGroups)
    ensures q.group !in groups ==> Cacheless(q, groups) == Err(GroupNotFound(q.group))
    ensures q.group in groups && q.entity !in groups[q.group] ==> Cacheless(q, groups) == Err(EntityNotFound(q.entity))
    ensures q.group in groups && q.entity in groups[q.group] ==>
              var e := groups[q.group][q.entity];
              && (q.metric in e ==> Cacheless(q, groups) == Ok(e[q.metric]))
              && (q.metric !in e && "interfaces" !in e ==> Cacheless(q, groups) == Err(Interfaces("not found")))
              && (q.metric !in e && "interfaces" in e && !e["interfaces"].InterfaceTable? ==>
                    Cacheless(q, groups) == Err(Interfaces("wrong format")))
    ensures q.group in groups && q.entity in groups[q.group] && q.metric !in groups[q.group][q.entity] &&
            "interfaces" in groups[q.group][q.entity] && groups[q.group][q.entity]["interfaces"].InterfaceTable? ==>
              var table := groups[q.group][q.entity]["interfaces"].interfaces;
              && (forall i :: Routed(q, groups, table, i) ==> Cacheless(q, groups) == Ok(table[i][q.metric]))
              && (forall i :: LeastPhysical(table, i) && (forall j :: !Routed(q, groups, table, j)) ==>
                                Cacheless(q, groups) == if q.metric in table[i] then Ok(table[i][q.metric])
                                                        else Err(MetricNotFound(q.metric)))
              && ((forall i :: i in table ==> !IsPhysical(i)) && (forall j :: !Routed(q, groups, table, j)) ==>
                    Cacheless(q, groups) == Err(Interfaces("no physical interface")))
  {
    if q.group in groups && q.entity in groups[q.group] && q.metric !in groups[q.group][q.entity] &&
       "interfaces" in groups[q.group][q.entity] && groups[q.group][q.entity]["interfaces"].InterfaceTable? {
      ResolvedExact(q, groups);
    }
  }

  lemma ResolvedExact(q: Lookup, groups: RawGroups)
    requires q.group in groups && q.entity in groups[q.group] && q.metric !in groups[q.group][q.entity]
    requires InterfacesOf(groups[q.group][q.entity]).Ok?
    ensures var table := InterfacesOf(groups[q.group][q.entity]).value;
            && (forall i :: Routed(q, groups, table, i) ==> Cacheless(q, groups) == Ok(table[i][q.metric]))
            && ((forall j :: !Routed(q, groups, table, j)) ==>
                  && (forall i :: LeastPhysical(table, i) ==>
                                    Cacheless(q, groups) == if q.metric in table[i] then Ok(table[i][q.metric])
                                                            else Err(MetricNotFound(q.metric)))
                  && ((forall i :: i in table ==> !IsPhysical(i)) ==>
                        Cacheless(q, groups) == Err(Interfaces("no physical interface"))))
  {
    var e := groups[q.group][q.entity];
    var table := InterfacesOf(e).value;
    if forall j :: !Routed(q, groups, table, j) {
      var d := DefaultInterface(groups);
      assert d.Some? ==> !Routed(q, groups, table, d.value);
      assert Resolve(q.group, q.metric, e, groups) == Primary(table);
      forall i ensures Primary(table) == Ok(i) <==> LeastPhysical(table, i) {
        LeastIsPrimary(table, i);
      }
      LeastIsPrimary(table, "");
    }
  }

  /** Whether the lookup needs an interface at all. */
  predicate NeedsInterface(q: Lookup, groups: RawGroups) {
    var e := EntityMetrics(q.group, q.entity, groups);
    e.Ok? && q.metric !in e.value
  }

  /** A usable cached interface answers the lookup. */
  predicate Hit(q: Lookup, groups: RawGroups, cache: map<string, string>) {
    && NeedsInterface(q, groups) && q.entity in cache
    && MetricFrom(cache[q.entity], q.metric, groups[q.group][q.entity]).Ok?
  }

  /** The interface the lookup would store. */
  ghost function Stored(q: Lookup, groups: RawGroups): Option<string> {
    if NeedsInterface(q, groups) && Resolve(q.group, q.metric, groups[q.group][q.entity], groups).Ok?
    then Some(Resolve(q.group, q.metric, groups[q.group][q.entity], groups).value)
    else None
  }

  ghost function CachedResult(q: Lookup, groups: RawGroups, cache: map<string, string>): Result<RawValue> {
    if Hit(q, groups, cache) then MetricFrom(cache[q.entity], q.metric, groups[q.group][q.entity])
    else Cacheless(q, groups)
  }

  ghost function CacheAfter(q: Lookup, groups: RawGroups, cache: map<string, string>): map<string, string> {
    if !Hit(q, groups, cache) && Stored(q, groups).Some? then cache[q.entity := Stored(q, groups).value] else cache
  }

  /** FromRawWithFallbackToDefaultInterface */
  method Fetch(q: Lookup, groups: RawGroups, cache: InterfaceCache?) returns (r: Result<RawValue>)
    modifies cache
    ensures cache == null ==> r == Cacheless(q, groups)
    ensures cache != null ==> r == CachedResult(q, groups, old(cache.cache))
    ensures cache != null ==> cache.cache == CacheAfter(q, groups, old(cache.cache))
  {
    var entity := EntityMetrics(q.group, q.entity, groups);
    if entity.Err? {
      return Err(entity.error);
    }
    var e := entity.value;
    if q.metric in e {
      return Ok(e[q.metric]);
    }
    if cache != null {
      var cached := cache.Get(q.entity);
      if cached.Some? {
        var value := MetricFrom(cached.value, q.metric, e);
        if value.Ok? {
          return value;
        }
      }
    }
    var resolved := ResolveInterface(q.group, q.metric, e, groups);
    if resolved.Err? {
      return Err(resolved.error);
    }
    if cache != null {
      cache.Put(q.entity, resolved.value);
    }
    r := MetricFrom(resolved.value, q.metric, e);
  }

  // ---- any cache content -------------------------------------------------

  /** A value the current stats of the entity report for the metric. */
  ghost predicate Current(q: Lookup, groups: RawGroups, v: RawValue) {
    exists e :: EntityMetrics(q.group, q.entity, groups) == Ok(e) &&
                ((q.metric in e && e[q.metric] == v) || exists i :: MetricFrom(i, q.metric, e) == Ok(v))
  }

  /** Whatever the cache holds, it never turns a success into a failure, never changes
      which error is reported, and never yields a value the stats do not report. */
  lemma CacheIsHarmless(q: Lookup, groups: RawGroups, cache: map<string, string>)
    ensures CachedResult(q, groups, cache).Err? ==> CachedResult(q, groups, cache) == Cacheless(q, groups)
    ensures Cacheless(q, groups).Ok? ==> CachedResult(q, groups, cache).Ok?
    ensures CachedResult(q, groups, cache).Ok? ==> Current(q, groups, CachedResult(q, groups, cache).value)
  {
  }

  // ---- sequences of lookups on one snapshot ------------------------------

  ghost function Results(qs: seq<Lookup>, groups: RawGroups, cache: map<string, string>): seq<Result<RawValue>>
    decreases |qs|
  {
    if qs == [] then []
    else [CachedResult(qs[0], groups, cache)] + Results(qs[1..], groups, CacheAfter(qs[0], groups, cache))
  }

  ghost function PlainResults(qs: seq<Lookup>, groups: RawGroups): seq<Result<RawValue>> {
    if qs == [] then [] else [Cacheless(qs[0], groups)] + PlainResults(qs[1..], groups)
  }

  /** What an interface of the entity reports for the metric. */
  function Reading(i: string, metric: string, e: RawMetrics): Option<RawValue> {
    if InterfacesOf(e).Ok? && i in InterfacesOf(e).value && metric in InterfacesOf(e).value[i]
    then Some(InterfacesOf(e).value[i][metric]) else None
  }

  /** The interface stored by one lookup reports the metric of another, for which there is no
      interface, one that is silent on it, or one that reports something else. */
  ghost predicate Misleads(p: Lookup, q: Lookup, groups: RawGroups) {
    && p.entity == q.entity && Stored(p, groups).Some? && NeedsInterface(q, groups)
    && var e := groups[q.group][q.entity];
       var stored := Reading(Stored(p, groups).value, q.metric, e);
       && stored.Some?
       && (Stored(q, groups).None? || Reading(Stored(q, groups).value, q.metric, e) != stored)
  }

  lemma ReadingIsMetric(i: string, metric: string, e: RawMetrics)
    ensures Reading(i, metric, e) == if MetricFrom(i, metric, e).Ok? then Some(MetricFrom(i, metric, e).value) else None
  {
  }

  /** Misleading is answering differently. */
  lemma MisleadsShows(p: Lookup, q: Lookup, groups: RawGroups)
    requires p.entity == q.entity && Stored(p, groups).Some? && NeedsInterface(q, groups)
    ensures var answer := MetricFrom(Stored(p, groups).value, q.metric, groups[q.group][q.entity]);
            Misleads(p, q, groups) <==> answer.Ok? && answer != Cacheless(q, groups)
  {
    var e := groups[q.group][q.entity];
    ReadingIsMetric(Stored(p, groups).value, q.metric, e);
    if Stored(q, groups).Some? {
      ReadingIsMetric(Stored(q, groups).value, q.metric, e);
    }
  }

  ghost predicate NeverMisleads(qs: iset<Lookup>, groups: RawGroups) {
    forall p, q :: p in qs && q in qs ==> !Misleads(p, q, groups)
  }

  /** Every cached interface was stored by one of the lookups. */
  ghost predicate Earned(cache: map<string, string>, qs: iset<Lookup>, groups: RawGroups) {
    forall id :: id in cache ==> exists p :: p in qs && p.entity == id && Stored(p, groups) == Some(cache[id])
  }

  lemma OneLookup(q: Lookup, groups: RawGroups, cache: map<string, string>, qs: iset<Lookup>)
    requires NeverMisleads(qs, groups) && Earned(cache, qs, groups) && q in qs
    ensures CachedResult(q, groups, cache) == Cacheless(q, groups)
    ensures Earned(CacheAfter(q, groups, cache), qs, groups)
  {
    if Hit(q, groups, cache) {
      var p :| p in qs && p.entity == q.entity && Stored(p, groups) == Some(cache[q.entity]);
      assert !Misleads(p, q, groups);
      MisleadsShows(p, q, groups);
    }
  }

  lemma {:induction false} AllLookups(sequence: seq<Lookup>, groups: RawGroups, cache: map<string, string>,
                                      qs: iset<Lookup>)
    requires NeverMisleads(qs, groups) && Earned(cache, qs, groups)
    requires forall q :: q in sequence ==> q in qs
    ensures Results(sequence, groups, cache) == PlainResults(sequence, groups)
    decreases |sequence|
  {
    if sequence != [] {
      assert sequence[0] in sequence;
      OneLookup(sequence[0], groups, cache, qs);
      AllLookups(sequence[1..], groups, CacheAfter(sequence[0], groups, cache), qs);
    }
  }

  ghost predicate Transparent(qs: iset<Lookup>, groups: RawGroups) {
    forall sequence: seq<Lookup> :: (forall q :: q in sequence ==> q in qs) ==>
                                      Results(sequence, groups, map[]) == PlainResults(sequence, groups)
  }

  /** Starting empty on an unchanged snapshot, the cache is invisible in every sequence of
      lookups exactly when no lookup of the set can mislead another. */
  lemma TransparentIff(qs: iset<Lookup>, groups: RawGroups)
    ensures Transparent(qs, groups) <==> NeverMisleads(qs, groups)
  {
    if NeverMisleads(qs, groups) {
      forall sequence: seq<Lookup> | forall q :: q in sequence ==> q in qs
        ensures Results(sequence, groups, map[]) == PlainResults(sequence, groups)
      {
        AllLookups(sequence, groups, map[], qs);
      }
    } else {
      var p, q :| p in qs && q in qs && Misleads(p, q, groups);
      MisledPair(p, q, groups);
      assert forall x :: x in [p, q] ==> x in qs;
    }
  }

  lemma MisledPair(p: Lookup, q: Lookup, groups: RawGroups)
    requires Misleads(p, q, groups)
    ensures Results([p, q], groups, map[]) != PlainResults([p, q], groups)
  {
    MisleadsShows(p, q, groups);
    PairResults(p, q, groups);
  }

  lemma PairResults(p: Lookup, q: Lookup, groups: RawGroups)
    ensures Results([p, q], groups, map[]) ==
            [CachedResult(p, groups, map[]), CachedResult(q, groups, CacheAfter(p, groups, map[]))]
    ensures PlainResults([p, q], groups) == [Cacheless(p, groups), Cacheless(q, groups)]
  {
    var pair, last := [p, q], [q];
    assert pair[1..] == last && last[1..] == [];
    var cache := CacheAfter(p, groups, map[]);
    assert Results(last, groups, cache) ==
           [CachedResult(q, groups, cache)] + Results([], groups, CacheAfter(q, groups, cache));
    assert PlainResults(last, groups) == [Cacheless(q, groups)] + PlainResults([], groups);
  }

  // ---- a snapshot on which the cache shows --------------------------------

  /** The default interface wlan0 reports rx only, eth0 reports rx and tx. */
  function TwoInterfaces(): RawMetrics {
    map["interfaces" := InterfaceTable(map[
      "wlan0" := map["rx" := Number(1)],
      "eth0" := map["rx" := Number(2), "tx" := Number(3)]])]
  }

  function TwoInterfaceGroups(): RawGroups {
    map["node" := map["n" := TwoInterfaces()], "network" := map["interfaces" := map["default" := Text("wlan0")]]]
  }

  lemma EthIsPhysical()
    ensures IsPhysical("eth0") && !IsCni("eth0") && !IsPhysical("wlan0")
  {
    assert "eth0"[..3] == "eth" && IsPhysical("eth0");
    PhysicalIsNotCni("eth0");
    assert "wlan0"[..3] == "wla" && !IsPhysical("wlan0");
  }

  lemma EthIsPrimary()
    ensures Primary(InterfacesOf(TwoInterfaces()).value) == Ok("eth0")
  {
    var table := InterfacesOf(TwoInterfaces()).value;
    EthIsPhysical();
    assert table.Keys == {"wlan0", "eth0"};
    assert Candidates(table) == {"eth0"};
    PrimaryIsLeast(table);
  }

  lemma Readings()
    ensures var e := TwoInterfaces();
            && MetricFrom("eth0", "tx", e) == Ok(Number(3)) && MetricFrom("eth0", "rx", e) == Ok(Number(2))
            && MetricFrom("wlan0", "rx", e) == Ok(Number(1)) && MetricFrom("wlan0", "tx", e).Err?
    ensures "rx" !in TwoInterfaces() && "tx" !in TwoInterfaces()
  {
  }

  lemma TwoInterfaceNode()
    ensures EntityMetrics("node", "n", TwoInterfaceGroups()) == Ok(TwoInterfaces())
    ensures DefaultInterface(TwoInterfaceGroups()) == Some("wlan0")
  {
    assert "node" != "network";
    var network := EntitiesOf(TwoInterfaceGroups(), "network");
    assert Cell(network, "interfaces", "default") == Some(Text("wlan0"));
  }

  lemma NodeResolution(metric: string, e: RawMetrics, groups: RawGroups, d: string)
    requires DefaultInterface(groups) == Some(d) && InterfacesOf(e).Ok?
    ensures Resolve("node", metric, e, groups) ==
            if MetricFrom(d, metric, e).Ok? then Ok(d) else Primary(InterfacesOf(e).value)
  {
  }

  /** Looking up tx caches eth0, from which rx is then read; without a cache rx comes from
      wlan0. */
  lemma CacheShows()
    ensures var tx, rx := Lookup("node", "n", "tx"), Lookup("node", "n", "rx");
            && Results([tx, rx], TwoInterfaceGroups(), map[]) == [Ok(Number(3)), Ok(Number(2))]
            && PlainResults([tx, rx], TwoInterfaceGroups()) == [Ok(Number(3)), Ok(Number(1))]
  {
    var tx, rx := Lookup("node", "n", "tx"), Lookup("node", "n", "rx");
    Readings();
    EthIsPrimary();
    TwoInterfaceNode();
    NodeResolution("tx", TwoInterfaces(), TwoInterfaceGroups(), "wlan0");
    NodeResolution("rx", TwoInterfaces(), TwoInterfaceGroups(), "wlan0");
    AnswersFromStored(tx, rx, TwoInterfaceGroups(), TwoInterfaces(), "eth0", "wlan0");
    PairResults(tx, rx, TwoInterfaceGroups());
  }

  /** Two lookups of one entity that resolve to interfaces i and j. */
  lemma AnswersFromStored(p: Lookup, q: Lookup, groups: RawGroups, e: RawMetrics, i: string, j: string)
    requires p.group == q.group && p.entity == q.entity && EntityMetrics(p.group, p.entity, groups) == Ok(e)
    requires p.metric !in e && q.metric !in e
    requires Resolve(p.group, p.metric, e, groups) == Ok(i) && Resolve(q.group, q.metric, e, groups) == Ok(j)
    requires MetricFrom(i, q.metric, e).Ok?
    ensures CachedResult(p, groups, map[]) == Cacheless(p, groups) == MetricFrom(i, p.metric, e)
    ensures CachedResult(q, groups, CacheAfter(p, groups, map[])) == MetricFrom(i, q.metric, e)
    ensures Cacheless(q, groups) == MetricFrom(j, q.metric, e)
  {
  }

  // ---- complete snapshots ------------------------------------------------

  /** Entity IDs are unique across the queried groups, and every interface of a queried
      entity reports every queried metric. */
  ghost predicate CompleteSnapshot(qs: iset<Lookup>, groups: RawGroups) {
    && (forall p, q :: p in qs && q in qs && p.entity == q.entity ==> p.group == q.group)
    && (forall p, q :: p in qs && q in qs && p.entity == q.entity ==> Reported(q.metric, p, groups))
  }

  ghost predicate Reported(metric: string, p: Lookup, groups: RawGroups) {
    var e := EntityMetrics(p.group, p.entity, groups);
    e.Ok? && InterfacesOf(e.value).Ok? ==>
      forall i :: i in InterfacesOf(e.value).value ==> metric in InterfacesOf(e.value).value[i]
  }

  /** On a complete snapshot the cache never shows. */
  lemma CompleteIsTransparent(qs: iset<Lookup>, groups: RawGroups)
    requires CompleteSnapshot(qs, groups)
    ensures Transparent(qs, groups)
  {
    forall p, q | p in qs && q in qs ensures !Misleads(p, q, groups) {
      if Misleads(p, q, groups) {
        assert Reported(q.metric, p, groups) && Reported(p.metric, p, groups);
        SameInterface(p, q, groups);
      }
    }
    TransparentIff(qs, groups);
  }

  lemma SameInterface(p: Lookup, q: Lookup, groups: RawGroups)
    requires p.group == q.group && p.entity == q.entity
    requires Reported(q.metric, p, groups) && Reported(p.metric, p, groups)
    requires NeedsInterface(p, groups) && NeedsInterface(q, groups)
    ensures Stored(p, groups) == Stored(q, groups)
  {
    var e := groups[p.group][p.entity];
    assert FromRoutingTable(p.metric, e, groups) == FromRoutingTable(q.metric, e, groups);
  }
}
