/** Attribute names: a metric name followed by its filtered labels in sorted order
    (src/prometheus/definition.go). */
module AttributeNames {
  import opened RawData
  import opened Text

  // ---- label filters ------------------------------------------------------

  /** The three label filters: drop some names, keep only some names, keep only some
      name-value pairs. */
  datatype LabelsFilter =
    | Ignore(names: seq<string>)
    | IncludeOnly(names: seq<string>)
    | IncludeOnlyWhenMatch(pairs: Labels)
  {
    predicate Keeps(key: string, value: string) {
      match this
      case Ignore(names) => key !in names
      case IncludeOnly(names) => key in names
      case IncludeOnlyWhenMatch(pairs) => key in pairs && pairs[key] == value
    }

    function Apply(labels: Labels): Labels {
      map k | k in labels && Keeps(k, labels[k]) :: labels[k]
    }
  }

  /** Whether a name is listed: the inner loops of the first two filters. */
  method IsListed(name: string, names: seq<string>) returns (r: bool)
    ensures r <==> name in names
  {
    for i := 0 to |names|
      invariant name !in names[..i]
    {
      if names[i] == name {
        return true;
      }
      assert names[..i + 1] == names[..i] + [names[i]];
    }
    assert names[..|names|] == names;
    return false;
  }

  /** One label against a filter. The inner range over label-value pairs is a map lookup. */
  method KeepsLabel(f: LabelsFilter, key: string, value: string) returns (r: bool)
    ensures r == f.Keeps(key, value)
  {
    match f {
      case Ignore(names) =>
        var ignore := IsListed(key, names);
        r := !ignore;
      case IncludeOnly(names) => r := IsListed(key, names);
      case IncludeOnlyWhenMatch(pairs) => r := key in pairs && pairs[key] == value;
    }
  }

  /** The filter loops build exactly the labels the filter keeps, in any order. */
  method ApplyFilter(f: LabelsFilter, labels: Labels) returns (filtered: Labels)
    ensures filtered == f.Apply(labels)
    ensures f.Ignore? ==> filtered == labels - (set n | n in f.names)
    ensures f.IncludeOnly? ==> filtered == labels - (labels.Keys - (set n | n in f.names))
    ensures f.IncludeOnlyWhenMatch? ==> filtered.Items == labels.Items * f.pairs.Items
  {
    filtered := map[];
    var todo := labels.Keys;
    while todo != {}
      invariant todo <= labels.Keys
      invariant forall k :: k in filtered <==> k in labels && k !in todo && f.Keeps(k, labels[k])
      invariant forall k :: k in filtered ==> filtered[k] == labels[k]
      decreases todo
    {
      var k :| k in todo;
      var keep := KeepsLabel(f, k, labels[k]);
      if keep {
        filtered := filtered[k := labels[k]];
      }
      todo := todo - {k};
    }
  }

  function Filtered(labels: Labels, filters: seq<LabelsFilter>): Labels
    decreases |filters|
  {
    if filters == [] then labels else Filtered(filters[0].Apply(labels), filters[1..])
  }

  /** The filters one after the other. */
  method FilterLabels(labels: Labels, filters: seq<LabelsFilter>) returns (r: Labels)
    ensures r == Filtered(labels, filters)
  {
    r := labels;
    for i := 0 to |filters|
      invariant Filtered(r, filters[i..]) == Filtered(labels, filters)
    {
      assert filters[i..][1..] == filters[i + 1..];
      r := ApplyFilter(filters[i], r);
    }
  }

  /** The label passes the filter: its name is not ignored, is among those included, or is to be
      matched and has the value asked for. */
  predicate Survives(f: LabelsFilter, key: string, value: string) {
    && (f.Ignore? ==> key !in f.names)
    && (f.IncludeOnly? ==> key in f.names)
    && (f.IncludeOnlyWhenMatch? ==> (key, value) in f.pairs.Items)
  }

  /** A label is left exactly if it passes every filter, and then with its value. */
  lemma {:induction false} FilteredExact(labels: Labels, filters: seq<LabelsFilter>, k: string)
    ensures k in Filtered(labels, filters) <==>
            k in labels && forall i :: 0 <= i < |filters| ==> Survives(filters[i], k, labels[k])
    ensures k in Filtered(labels, filters) ==> Filtered(labels, filters)[k] == labels[k]
    decreases |filters|
  {
    if filters != [] {
      var rest := filters[1..];
      FilteredExact(filters[0].Apply(labels), rest, k);
      assert forall i :: 0 <= i < |rest| ==> rest[i] == filters[i + 1];
      assert k in filters[0].Apply(labels) <==> k in labels && Survives(filters[0], k, labels[k]);
      if k in Filtered(labels, filters) {
        forall i | 0 <= i < |filters| ensures Survives(filters[i], k, labels[k]) {
          if i > 0 {
            assert Survives(rest[i - 1], k, labels[k]);
          }
        }
      }
    }
  }

  /** The <key>_<value> strings of some labels, without an order. */
  ghost function PairBag(labels: Labels, keys: set<string>): multiset<string>
    requires keys <= labels.Keys
  {
    if keys == {} then multiset{} else
      var k :| k in keys;
      PairBag(labels, keys - {k}) + multiset{Joined(k, labels[k])}
  }

  lemma {:induction false} PairBagWithout(labels: Labels, keys: set<string>, k: string)
    requires keys <= labels.Keys && k in keys
    ensures PairBag(labels, keys) == PairBag(labels, keys - {k}) + multiset{Joined(k, labels[k])}
    decreases |keys|
  {
    var j :| j in keys && PairBag(labels, keys) == PairBag(labels, keys - {j}) + multiset{Joined(j, labels[j])};
    if j != k {
      PairBagWithout(labels, keys - {j}, k);
      PairBagWithout(labels, keys - {k}, j);
      assert keys - {j} - {k} == keys - {k} - {j};
    }
  }

  /** Some arrangement of a bag. */
  ghost function Arranged(bag: multiset<string>): (s: seq<string>)
    ensures multiset(s) == bag
  {
    if bag == multiset{} then [] else
      var x :| x in bag;
      Arranged(bag - multiset{x}) + [x]
  }

  function AppendAll(name: string, suffixes: seq<string>): string
    decreases |suffixes|
  {
    if suffixes == [] then name else AppendAll(Joined(name, suffixes[0]), suffixes[1..])
  }

  /** The name with every label appended as <key>_<value>, in alphabetical order. */
  ghost function Suffixed(name: string, labels: Labels): string {
    AppendAll(name, Sorted(Arranged(PairBag(labels, labels.Keys))))
  }

  method AppendSuffixes(name: string, suffixes: seq<string>) returns (r: string)
    ensures r == AppendAll(name, suffixes)
  {
    r := name;
    for i := 0 to |suffixes|
      invariant AppendAll(r, suffixes[i..]) == AppendAll(name, suffixes)
    {
      r := Joined(r, suffixes[i]);
      assert suffixes[i..][1..] == suffixes[i + 1..];
    }
  }

  /** The label map is ranged over in an arbitrary order, then sorted. */
  method SuffixLabelsInOrder(name: string, labels: Labels) returns (r: string)
    ensures r == Suffixed(name, labels)
  {
    var ordered := CollectPairs(labels);
    SortedIgnoresOrder(ordered, Arranged(PairBag(labels, labels.Keys)));
    r := AppendSuffixes(name, Sorted(ordered));
  }

  method CollectPairs(labels: Labels) returns (ordered: seq<string>)
    ensures multiset(ordered) == PairBag(labels, labels.Keys)
  {
    ordered := [];
    var done := {};
    while done != labels.Keys
      invariant done <= labels.Keys
      invariant multiset(ordered) == PairBag(labels, done)
      decreases labels.Keys - done
    {
      assert exists k :: k in labels && k !in done;
      var k :| k in labels && k !in done;
      ordered := ordered + [Joined(k, labels[k])];
      PairBagWithout(labels, done + {k}, k);
      assert done + {k} - {k} == done;
      done := done + {k};
    }
  }

  ghost function AttributeName(metric: string, override: string, labels: Labels, filters: seq<LabelsFilter>): string {
    Suffixed(if override != "" then override else metric, Filtered(labels, filters))
  }

  /** Each suffix follows the name after an underscore, the last one last. */
  lemma {:induction false} AppendLast(name: string, suffixes: seq<string>, x: string)
    ensures AppendAll(name, []) == name
    ensures AppendAll(name, suffixes + [x]) == AppendAll(name, suffixes) + "_" + x
    decreases |suffixes|
  {
    if suffixes == [] {
      assert [x][1..] == [] && [] + [x] == [x];
    } else {
      assert (suffixes + [x])[1..] == suffixes[1..] + [x];
      AppendLast(Joined(name, suffixes[0]), suffixes[1..], x);
    }
  }

  /** The labels as <key>_<value>, in the order of the keys. */
  function PairsOf(labels: Labels, keys: seq<string>): seq<string>
    requires forall k :: k in keys ==> k in labels
  {
    if keys == [] then [] else
      var k := keys[|keys| - 1];
      PairsOf(labels, keys[..|keys| - 1]) + [k + "_" + labels[k]]
  }

  function KeySet(keys: seq<string>): set<string> {
    set k | k in keys
  }

  lemma LastKey(keys: seq<string>)
    requires keys != [] && forall i, j :: 0 <= i < j < |keys| ==> keys[i] != keys[j]
    ensures KeySet(keys) - {keys[|keys| - 1]} == KeySet(keys[..|keys| - 1]) && keys[|keys| - 1] in KeySet(keys)
  {
    var front, k := keys[..|keys| - 1], keys[|keys| - 1];
    assert keys == front + [k] && k !in front;
  }

  lemma {:induction false} BagOfPairs(labels: Labels, keys: seq<string>)
    requires (forall k :: k in keys ==> k in labels) && forall i, j :: 0 <= i < j < |keys| ==> keys[i] != keys[j]
    ensures KeySet(keys) <= labels.Keys && multiset(PairsOf(labels, keys)) == PairBag(labels, KeySet(keys))
  {
    if keys == [] {
      assert KeySet(keys) == {};
    } else {
      BagOfPairs(labels, keys[..|keys| - 1]);
      LastKey(keys);
      PairBagWithout(labels, KeySet(keys), keys[|keys| - 1]);
    }
  }

  /** The name of a series: the metric's name followed by the <key>_<value> of all its labels,
      however they are listed, arranged alphabetically. */
  lemma SuffixedExact(name: string, labels: Labels, keys: seq<string>, arranged: seq<string>)
    requires (forall k :: k in keys <==> k in labels) && forall i, j :: 0 <= i < j < |keys| ==> keys[i] != keys[j]
    requires multiset(arranged) == multiset(PairsOf(labels, keys)) && Ascending(arranged)
    ensures Suffixed(name, labels) == AppendAll(name, arranged)
  {
    BagOfPairs(labels, keys);
    assert KeySet(keys) == labels.Keys;
    var listed := Arranged(PairBag(labels, labels.Keys));
    SortedIsAscending(listed);
    AscendingUnique(Sorted(listed), arranged);
  }

  lemma {:induction false} SamePairs(a: Labels, b: Labels, keys: seq<string>)
    requires forall k :: k in keys ==> k in a && k in b && a[k] == b[k]
    ensures PairsOf(a, keys) == PairsOf(b, keys)
  {
    if keys != [] {
      SamePairs(a, b, keys[..|keys| - 1]);
    }
  }

  /** The attribute name of a series, from its labels to the text: the override if there is one,
      else the metric's name, followed by the <key>_<value> of exactly the labels that pass every
      filter, arranged alphabetically. */
  lemma AttributeNameExact(metric: string, override: string, labels: Labels, filters: seq<LabelsFilter>,
                           keys: seq<string>, arranged: seq<string>)
    requires forall k :: k in keys <==>
               k in labels && forall i :: 0 <= i < |filters| ==> Survives(filters[i], k, labels[k])
    requires forall i, j :: 0 <= i < j < |keys| ==> keys[i] != keys[j]
    requires multiset(arranged) == multiset(PairsOf(labels, keys)) && Ascending(arranged)
    ensures AttributeName(metric, override, labels, filters) ==
            AppendAll(if override == "" then metric else override, arranged)
  {
    var left := Filtered(labels, filters);
    forall k ensures (k in left <==> k in keys) && (k in left ==> left[k] == labels[k]) {
      FilteredExact(labels, filters, k);
    }
    SamePairs(labels, left, keys);
    SuffixedExact(if override == "" then metric else override, left, keys, arranged);
  }
}
