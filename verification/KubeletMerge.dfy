/** Merging the kubelet sources: fillGroupsAndMergeNonExistent adds missing groups whole
    and, to entities already known, the metrics they lack (src/kubelet/grouper/group.go). */
module KubeletMerge {
  import opened RawData

  // ---- one merge ---------------------------------------------------------

  /** Existing values win. */
  function MergedRecord(record: RawMetrics, from: RawMetrics): RawMetrics {
    from + record
  }

  function MergedEntities(known: Entities, from: Entities): Entities {
    map e | e in known :: if e in from then MergedRecord(known[e], from[e]) else known[e]
  }

  function MergedGroup(destination: RawGroups, from: RawGroups, l: string): Entities
    requires l in destination || l in from
  {
    if l !in destination then from[l]
    else if l in from then MergedEntities(destination[l], from[l])
    else destination[l]
  }

  function Merged(destination: RawGroups, from: RawGroups): RawGroups {
    map l | l in destination.Keys + from.Keys :: MergedGroup(destination, from, l)
  }

  method FillRecord(record: RawMetrics, from: RawMetrics) returns (r: RawMetrics)
    ensures r == MergedRecord(record, from)
  {
    r := record;
    var todo := from.Keys;
    while todo != {}
      invariant todo <= from.Keys
      invariant forall k :: k in r <==> k in record || (k in from && k !in todo)
      invariant forall k :: k in r ==> r[k] == if k in record then record[k] else from[k]
      decreases todo
    {
      var k :| k in todo;
      if k !in r {
        r := r[k := from[k]];
      }
      todo := todo - {k};
    }
  }

  method FillEntities(known: Entities, from: Entities) returns (r: Entities)
    ensures r == MergedEntities(known, from)
  {
    r := known;
    var todo := known.Keys;
    while todo != {}
      invariant todo <= known.Keys && r.Keys == known.Keys
      invariant forall e :: e in known ==> r[e] == if e in todo then known[e] else MergedEntities(known, from)[e]
      decreases todo
    {
      var e :| e in todo;
      if e in from {
        var record := FillRecord(r[e], from[e]);
        r := r[e := record];
      }
      todo := todo - {e};
    }
  }

  /** The groups under construction, filled in place. */
  class GroupStore {
    var groups: RawGroups

    constructor (initial: RawGroups)
      ensures groups == initial
    {
      groups := initial;
    }

    method FillGroupsAndMergeNonExistent(from: RawGroups)
      modifies this
      ensures groups == Merged(old(groups), from)
    {
      ghost var before := groups;
      var todo := from.Keys;
      while todo != {}
        invariant todo <= from.Keys
        invariant forall l :: l in groups <==> l in before || (l in from && l !in todo)
        invariant forall l :: l in before && l in todo ==> groups[l] == before[l]
        invariant forall l :: l in groups && l !in todo ==> groups[l] == MergedGroup(before, from, l)
        decreases todo
      {
        var l :| l in todo;
        if l !in groups {
          groups := groups[l := from[l]];
        } else {
          var entities := FillEntities(groups[l], from[l]);
          groups := groups[l := entities];
        }
        todo := todo - {l};
      }
    }
  }

  // ---- folding a list of sources -----------------------------------------

  function MergeAll(destination: RawGroups, sources: seq<RawGroups>): RawGroups
    decreases |sources|
  {
    if sources == [] then destination else MergeAll(Merged(destination, sources[0]), sources[1..])
  }

  /** The entities of the first source that has the group. */
  function FirstEntities(l: string, all: seq<RawGroups>): Option<set<string>> {
    if all == [] then None
    else if l in all[0] then Some(all[0][l].Keys)
    else FirstEntities(l, all[1..])
  }

  /** The value of the earliest source that defines the metric for the entity. */
  function Earliest(l: string, e: string, k: string, all: seq<RawGroups>): Option<RawValue> {
    if all == [] then None
    else if Cell(EntitiesOf(all[0], l), e, k).Some? then Cell(EntitiesOf(all[0], l), e, k)
    else Earliest(l, e, k, all[1..])
  }

  /** Merging two sources in front of the others is listing them in that order. */
  lemma MergedFront(l: string, d: RawGroups, s: RawGroups, rest: seq<RawGroups>)
    ensures FirstEntities(l, [Merged(d, s)] + rest) == FirstEntities(l, [d, s] + rest)
  {
    assert ([Merged(d, s)] + rest)[1..] == rest;
    assert ([d, s] + rest)[1..] == [s] + rest && ([s] + rest)[1..] == rest;
    assert l in d && l in s ==> MergedEntities(d[l], s[l]).Keys == d[l].Keys;
  }

  lemma MergedFrontValue(l: string, e: string, k: string, d: RawGroups, s: RawGroups, rest: seq<RawGroups>)
    requires l in d ==> e in d[l]
    ensures Earliest(l, e, k, [Merged(d, s)] + rest) == Earliest(l, e, k, [d, s] + rest)
  {
    assert ([Merged(d, s)] + rest)[1..] == rest;
    assert ([d, s] + rest)[1..] == [s] + rest && ([s] + rest)[1..] == rest;
    var m := Cell(EntitiesOf(Merged(d, s), l), e, k);
    if Cell(EntitiesOf(d, l), e, k).Some? {
      assert m == Cell(EntitiesOf(d, l), e, k);
    } else {
      assert m == Cell(EntitiesOf(s, l), e, k);
    }
  }

  /** A group of the fold has the entities of the first source with that group. */
  lemma {:induction false} FoldedEntities(d: RawGroups, sources: seq<RawGroups>, l: string)
    ensures FirstEntities(l, [d] + sources) ==
            if l in MergeAll(d, sources) then Some(MergeAll(d, sources)[l].Keys) else None
    decreases |sources|
  {
    if sources == [] {
      assert ([d] + sources)[1..] == [];
    } else {
      FoldedEntities(Merged(d, sources[0]), sources[1..], l);
      MergedFront(l, d, sources[0], sources[1..]);
      assert [d, sources[0]] + sources[1..] == [d] + sources;
    }
  }

  /** A metric of an entity of the fold has the value of the earliest source defining it. */
  lemma {:induction false} FoldedValues(d: RawGroups, sources: seq<RawGroups>, l: string, e: string, k: string)
    requires e in EntitiesOf(MergeAll(d, sources), l)
    ensures Cell(MergeAll(d, sources)[l], e, k) == Earliest(l, e, k, [d] + sources)
    decreases |sources|
  {
    if sources == [] {
      assert ([d] + sources)[1..] == [];
    } else {
      var s, rest := sources[0], sources[1..];
      FoldedValues(Merged(d, s), rest, l, e, k);
      FoldedEntities(d, sources, l);
      assert ([d] + sources)[0] == d;
      MergedFrontValue(l, e, k, d, s, rest);
      assert [d, s] + rest == [d] + sources;
    }
  }

  // ---- merging again -----------------------------------------------------

  /** Nothing in s is news to r. */
  ghost predicate Absorbs(r: RawGroups, s: RawGroups) {
    && s.Keys <= r.Keys
    && (forall l, e :: l in s && e in s[l] && e in r[l] ==> s[l][e].Keys <= r[l][e].Keys)
  }

  lemma AbsorbedIsNoop(r: RawGroups, s: RawGroups)
    requires Absorbs(r, s)
    ensures Merged(r, s) == r
  {
    forall l | l in s ensures MergedEntities(r[l], s[l]) == r[l] {
      forall e | e in r[l] ensures MergedEntities(r[l], s[l])[e] == r[l][e] {
        if e in s[l] {
          assert s[l][e].Keys <= r[l][e].Keys;
          assert s[l][e] + r[l][e] == r[l][e];
        }
      }
    }
  }

  lemma MergeAbsorbs(r: RawGroups, s: RawGroups)
    ensures Absorbs(Merged(r, s), s)
  {
  }

  lemma MergeKeepsAbsorbed(r: RawGroups, s: RawGroups, t: RawGroups)
    requires Absorbs(r, s)
    ensures Absorbs(Merged(r, t), s)
  {
    var m: RawGroups := Merged(r, t);
    forall l, e | l in s && e in s[l] && e in m[l] ensures s[l][e].Keys <= m[l][e].Keys {
      assert e in r[l] && r[l][e].Keys <= m[l][e].Keys;
    }
  }

  lemma {:induction false} FoldKeepsAbsorbed(r: RawGroups, s: RawGroups, sources: seq<RawGroups>)
    requires Absorbs(r, s)
    ensures Absorbs(MergeAll(r, sources), s)
    decreases |sources|
  {
    if sources != [] {
      MergeKeepsAbsorbed(r, s, sources[0]);
      FoldKeepsAbsorbed(Merged(r, sources[0]), s, sources[1..]);
    }
  }

  /** Merging any of the sources once more changes nothing. */
  lemma {:induction false} RemergeChangesNothing(d: RawGroups, sources: seq<RawGroups>, i: nat)
    requires i < |sources|
    ensures Merged(MergeAll(d, sources), sources[i]) == MergeAll(d, sources)
    decreases |sources|
  {
    if i == 0 {
      MergeAbsorbs(d, sources[0]);
      FoldKeepsAbsorbed(Merged(d, sources[0]), sources[0], sources[1..]);
      AbsorbedIsNoop(MergeAll(d, sources), sources[0]);
    } else {
      RemergeChangesNothing(Merged(d, sources[0]), sources[1..], i - 1);
    }
  }
}
