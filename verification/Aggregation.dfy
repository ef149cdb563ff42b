/** Turning the series of one metric into named values, with the values of equal names summed
    (src/prometheus/definition.go). */
module Aggregation {
  import opened AttributeNames
  import opened Bags
  import opened RawData

  // ---- summing equal names -----------------------------------------------

  type Entry = (string, Value)

  predicate SameKind(a: Value, b: Value) {
    (a.Counter? && b.Counter?) || (a.Gauge? && b.Gauge?)
  }

  /** getMetricValue: adds to an aggregate of the same kind; other kinds become nil. */
  function AddTo(metric: string, aggregate: Leaf, v: Value): Result<Leaf> {
    match v
    case Counter(x) =>
      if aggregate.Sample? && aggregate.value.Counter? then Ok(Sample(Counter(aggregate.value.amount + x)))
      else Err(IncompatibleType(metric))
    case Gauge(x) =>
      if aggregate.Sample? && aggregate.value.Gauge? then Ok(Sample(Gauge(aggregate.value.amount + x)))
      else Err(IncompatibleType(metric))
    case _ => Ok(Nil)
  }

  /** One iteration over an already named value. */
  function Step(metric: string, m: map<string, Leaf>, name: string, v: Value): Result<map<string, Leaf>> {
    if name !in m then Ok(m[name := Sample(v)])
    else match AddTo(metric, m[name], v)
      case Err(e) => Err(e)
      case Ok(sum) => Ok(m[name := sum])
  }

  /** The loop of fetchedValuesFromRawMetrics. */
  function Fold(metric: string, entries: seq<Entry>): Result<map<string, Leaf>> {
    if entries == [] then Ok(map[]) else
      match Fold(metric, entries[..|entries| - 1])
      case Err(e) => Err(e)
      case Ok(m) => Step(metric, m, entries[|entries| - 1].0, entries[|entries| - 1].1)
  }

  lemma FoldSnoc(metric: string, entries: seq<Entry>, name: string, v: Value, m: map<string, Leaf>)
    requires Fold(metric, entries) == Ok(m)
    ensures Fold(metric, entries + [(name, v)]) == Step(metric, m, name, v)
  {
    assert (entries + [(name, v)])[..|entries|] == entries;
  }

  /** Every series under the name its labels get, in order. */
  function NamedBy(nameOf: Labels -> string, series: seq<Metric>): seq<Entry> {
    if series == [] then [] else
      var last := series[|series| - 1];
      NamedBy(nameOf, series[..|series| - 1]) + [(nameOf(last.labels), last.value)]
  }

  ghost function Namer(metric: string, override: string, filters: seq<LabelsFilter>): Labels -> string {
    labels => AttributeName(metric, override, labels, filters)
  }

  /** nameOf gives every label set its attribute name. */
  ghost predicate Names(nameOf: Labels -> string, metric: string, override: string, filters: seq<LabelsFilter>) {
    forall labels {:trigger AttributeName(metric, override, labels, filters)} ::
      nameOf(labels) == AttributeName(metric, override, labels, filters)
  }

  /** attributeName */
  method NameSeries(metric: string, override: string, labels: Labels, filters: seq<LabelsFilter>,
                    ghost nameOf: Labels -> string) returns (name: string)
    requires Names(nameOf, metric, override, filters)
    ensures name == nameOf(labels)
  {
    var filtered := FilterLabels(labels, filters);
    name := SuffixLabelsInOrder(if override != "" then override else metric, filtered);
    assert name == AttributeName(metric, override, labels, filters);
  }

  /** The loop, for whatever function the names amount to. */
  method FoldSeries(metric: string, override: string, series: seq<Metric>, filters: seq<LabelsFilter>,
                    ghost nameOf: Labels -> string) returns (r: Result<map<string, Leaf>>)
    requires Names(nameOf, metric, override, filters)
    ensures r == Fold(metric, NamedBy(nameOf, series))
  {
    var val: map<string, Leaf> := map[];
    for i := 0 to |series|
      invariant Fold(metric, NamedBy(nameOf, series[..i])) == Ok(val)
    {
      var m := series[i];
      var name := NameSeries(metric, override, m.labels, filters, nameOf);
      NamedStep(metric, nameOf, series, i, name, val);
      match Step(metric, val, name, m.value) {
        case Err(e) =>
          NamedErrSticks(metric, nameOf, series, i + 1);
          return Err(e);
        case Ok(next) => val := next;
      }
    }
    assert series[..|series|] == series;
    return Ok(val);
  }

  method FetchedValuesFromRawMetrics(metric: string, override: string, series: seq<Metric>, filters: seq<LabelsFilter>)
    returns (r: Result<map<string, Leaf>>)
    ensures r == Fold(metric, NamedBy(Namer(metric, override, filters), series))
  {
    r := FoldSeries(metric, override, series, filters, Namer(metric, override, filters));
  }

  lemma NamedStep(metric: string, nameOf: Labels -> string, series: seq<Metric>, i: nat, name: string,
                  val: map<string, Leaf>)
    requires i < |series| && name == nameOf(series[i].labels)
    requires Fold(metric, NamedBy(nameOf, series[..i])) == Ok(val)
    ensures Fold(metric, NamedBy(nameOf, series[..i + 1])) == Step(metric, val, name, series[i].value)
  {
    assert series[..i + 1][..i] == series[..i];
    FoldSnoc(metric, NamedBy(nameOf, series[..i]), name, series[i].value, val);
  }

  lemma {:induction false} NamedErrSticks(metric: string, nameOf: Labels -> string, series: seq<Metric>, i: nat)
    requires i <= |series| && Fold(metric, NamedBy(nameOf, series[..i])).Err?
    ensures Fold(metric, NamedBy(nameOf, series)) == Fold(metric, NamedBy(nameOf, series[..i]))
  {
    if i == |series| {
      assert series[..i] == series;
    } else {
      var front := series[..|series| - 1];
      assert front[..i] == series[..i];
      NamedErrSticks(metric, nameOf, front, i);
      var before, after := NamedBy(nameOf, front), NamedBy(nameOf, series);
      assert after[..|before|] == before;
      FoldErrSticks(metric, after, |before|);
    }
  }

  lemma {:induction false} FoldErrSticks(metric: string, entries: seq<Entry>, i: nat)
    requires i <= |entries| && Fold(metric, entries[..i]).Err?
    ensures Fold(metric, entries) == Fold(metric, entries[..i])
  {
    if i == |entries| {
      assert entries[..i] == entries;
    } else {
      var front := entries[..|entries| - 1];
      assert front[..i] == entries[..i];
      FoldErrSticks(metric, front, i);
    }
  }

  // ---- what the loop computes --------------------------------------------

  /** The values that get a given name, in order. */
  function ValuesNamed(name: string, entries: seq<Entry>): seq<Value> {
    if entries == [] then [] else
      var last := entries[|entries| - 1];
      ValuesNamed(name, entries[..|entries| - 1]) + (if last.0 == name then [last.1] else [])
  }

  function Amount(v: Value): real {
    if v.Numeric() then v.amount else 0.0
  }

  function Sum(vs: seq<Value>): real {
    if vs == [] then 0.0 else Sum(vs[..|vs| - 1]) + Amount(vs[|vs| - 1])
  }

  /** Some counter or gauge directly follows a value of another kind. */
  predicate Clash(vs: seq<Value>) {
    exists i :: 0 < i < |vs| && vs[i].Numeric() && !SameKind(vs[i - 1], vs[i])
  }

  /** The aggregate of the values of one name. */
  function Aggregate(vs: seq<Value>): Leaf
    requires vs != []
  {
    var last := vs[|vs| - 1];
    if |vs| == 1 then Sample(last)
    else match last
      case Counter(_) => Sample(Counter(Sum(vs)))
      case Gauge(_) => Sample(Gauge(Sum(vs)))
      case _ => Nil
  }

  lemma AggregateStep(metric: string, vs: seq<Value>, v: Value)
    requires vs != [] && !Clash(vs)
    ensures AddTo(metric, Aggregate(vs), v).Err? <==> Clash(vs + [v])
    ensures !Clash(vs + [v]) ==> AddTo(metric, Aggregate(vs), v) == Ok(Aggregate(vs + [v]))
  {
    var more := vs + [v];
    assert more[..|vs|] == vs && more[|vs|] == v && more[|vs| - 1] == vs[|vs| - 1];
    assert forall i :: 0 <= i < |vs| ==> more[i] == vs[i];
    if v.Numeric() && !SameKind(vs[|vs| - 1], v) {
      assert more[|vs|].Numeric() && !SameKind(more[|vs| - 1], more[|vs|]);
      assert Clash(more);
    } else {
      assert !Clash(more);
    }
    if |vs| == 1 {
      assert vs[..0] == [];
      assert Sum(vs) == Sum(vs[..0]) + Amount(vs[0]);
    }
  }

  ghost predicate NameClashes(name: string, entries: seq<Entry>) {
    Clash(ValuesNamed(name, entries))
  }

  ghost predicate NameMixed(name: string, entries: seq<Entry>) {
    Mixed(ValuesNamed(name, entries))
  }

  function At(m: map<string, Leaf>, name: string): Option<Leaf> {
    if name in m then Some(m[name]) else None
  }

  function Expected(name: string, entries: seq<Entry>): Option<Leaf> {
    var vs := ValuesNamed(name, entries);
    if vs == [] then None else Some(Aggregate(vs))
  }

  /** An error exactly when some name clashes; otherwise every name that occurs has the
      aggregate of its values. Holds for every sequence of values of any kinds. */
  lemma {:induction false} FoldExact(metric: string, entries: seq<Entry>)
    ensures Fold(metric, entries).Err? <==> exists n :: NameClashes(n, entries)
    ensures Fold(metric, entries).Ok? ==> forall n :: At(Fold(metric, entries).value, n) == Expected(n, entries)
  {
    if entries != [] {
      var front := entries[..|entries| - 1];
      FoldExact(metric, front);
      if Fold(metric, front).Err? {
        var n :| NameClashes(n, front);
        ClashSticks(ValuesNamed(n, front), if n == entries[|entries| - 1].0 then [entries[|entries| - 1].1] else []);
        assert NameClashes(n, entries);
      } else {
        FoldStep(metric, entries);
      }
    }
  }

  lemma FoldStep(metric: string, entries: seq<Entry>)
    requires entries != []
    requires var front := entries[..|entries| - 1];
             && Fold(metric, front).Ok?
             && (forall n :: !NameClashes(n, front))
             && (forall n :: At(Fold(metric, front).value, n) == Expected(n, front))
    ensures Fold(metric, entries).Err? <==> exists n :: NameClashes(n, entries)
    ensures Fold(metric, entries).Ok? ==> forall n :: At(Fold(metric, entries).value, n) == Expected(n, entries)
  {
    var front, name, v := entries[..|entries| - 1], entries[|entries| - 1].0, entries[|entries| - 1].1;
    var vs := ValuesNamed(name, front);
    assert !NameClashes(name, front);
    assert At(Fold(metric, front).value, name) == Expected(name, front);
    assert ValuesNamed(name, entries) == vs + [v];
    if vs == [] {
      assert vs + [v] == [v];
    } else {
      AggregateStep(metric, vs, v);
    }
    assert Fold(metric, entries).Err? <==> NameClashes(name, entries);
    forall n | n != name ensures !NameClashes(n, entries) {
      OtherName(n, entries);
      assert !NameClashes(n, front);
    }
    if Fold(metric, entries).Ok? {
      forall n ensures At(Fold(metric, entries).value, n) == Expected(n, entries) {
        if n != name {
          OtherName(n, entries);
          assert At(Fold(metric, front).value, n) == Expected(n, front);
        }
      }
    }
  }

  lemma OtherName(n: string, entries: seq<Entry>)
    requires entries != [] && n != entries[|entries| - 1].0
    ensures ValuesNamed(n, entries) == ValuesNamed(n, entries[..|entries| - 1])
  {
  }

  lemma ClashSticks(vs: seq<Value>, more: seq<Value>)
    requires Clash(vs)
    ensures Clash(vs + more)
  {
    var i :| 0 < i < |vs| && vs[i].Numeric() && !SameKind(vs[i - 1], vs[i]);
    assert (vs + more)[i] == vs[i] && (vs + more)[i - 1] == vs[i - 1];
  }

  // ---- counters and gauges only ------------------------------------------

  predicate AllNumeric(entries: seq<Entry>) {
    forall i :: 0 <= i < |entries| ==> entries[i].1.Numeric()
  }

  /** Both kinds occur. */
  predicate Mixed(vs: seq<Value>) {
    exists i, j :: 0 <= i < |vs| && 0 <= j < |vs| && vs[i].Counter? && vs[j].Gauge?
  }

  lemma {:induction false} ValuesNamedFrom(name: string, entries: seq<Entry>, v: Value)
    ensures multiset(ValuesNamed(name, entries))[v] == multiset(entries)[(name, v)]
  {
    if entries != [] {
      var front, last := entries[..|entries| - 1], entries[|entries| - 1];
      assert entries == front + [last];
      ValuesNamedFrom(name, front, v);
    }
  }

  lemma ValuesNumeric(name: string, entries: seq<Entry>)
    requires AllNumeric(entries)
    ensures forall i :: 0 <= i < |ValuesNamed(name, entries)| ==> ValuesNamed(name, entries)[i].Numeric()
  {
    var vs := ValuesNamed(name, entries);
    forall i | 0 <= i < |vs| ensures vs[i].Numeric() {
      assert vs[i] in multiset(vs);
      ValuesNamedFrom(name, entries, vs[i]);
      assert (name, vs[i]) in multiset(entries);
    }
  }

  /** Among counters and gauges, a clash is just the presence of both kinds. */
  lemma {:induction false} ClashIffMixed(vs: seq<Value>)
    requires forall i :: 0 <= i < |vs| ==> vs[i].Numeric()
    ensures Clash(vs) <==> Mixed(vs)
  {
    if Clash(vs) {
      var i :| 0 < i < |vs| && vs[i].Numeric() && !SameKind(vs[i - 1], vs[i]);
      if vs[i].Counter? {
        assert vs[i].Counter? && vs[i - 1].Gauge?;
      } else {
        assert vs[i - 1].Counter? && vs[i].Gauge?;
      }
    } else {
      forall i | 0 <= i < |vs| ensures SameKind(vs[0], vs[i]) {
        NoClashSameKind(vs, i);
      }
    }
  }

  lemma {:induction false} NoClashSameKind(vs: seq<Value>, i: nat)
    requires i < |vs| && !Clash(vs)
    requires forall i :: 0 <= i < |vs| ==> vs[i].Numeric()
    ensures SameKind(vs[0], vs[i])
  {
    if i > 0 {
      NoClashSameKind(vs, i - 1);
    }
  }

  lemma {:induction false} SumPermuted(a: seq<Value>, b: seq<Value>)
    requires multiset(a) == multiset(b)
    ensures Sum(a) == Sum(b)
  {
    SameLength(a, b);
    if a != [] {
      var i := MatchLast(a, b);
      SumPermuted(a[..|a| - 1], Without(b, i));
      SumWithout(b, i);
    }
  }

  lemma {:induction false} SumWithout(b: seq<Value>, i: nat)
    requires i < |b|
    ensures Sum(b) == Sum(Without(b, i)) + Amount(b[i])
  {
    if i == |b| - 1 {
      assert Without(b, i) == b[..|b| - 1];
    } else {
      var front, c := b[..|b| - 1], Without(b, i);
      SumWithout(front, i);
      assert c[..|c| - 1] == Without(front, i);
      assert c[|c| - 1] == b[|b| - 1];
    }
  }

  lemma MixedPermuted(a: seq<Value>, b: seq<Value>)
    requires multiset(a) == multiset(b) && Mixed(a)
    ensures Mixed(b)
  {
    var i, j :| 0 <= i < |a| && 0 <= j < |a| && a[i].Counter? && a[j].Gauge?;
    assert a[i] in multiset(b) && a[j] in multiset(b);
    var i' :| 0 <= i' < |b| && b[i'] == a[i];
    var j' :| 0 <= j' < |b| && b[j'] == a[j];
  }

  /** For counters and gauges the loop errs exactly when one name receives both kinds. */
  lemma NumericErrors(metric: string, entries: seq<Entry>)
    requires AllNumeric(entries)
    ensures Fold(metric, entries).Err? <==> exists n :: NameMixed(n, entries)
  {
    FoldExact(metric, entries);
    forall n ensures NameClashes(n, entries) <==> NameMixed(n, entries) {
      ValuesNumeric(n, entries);
      ClashIffMixed(ValuesNamed(n, entries));
    }
  }

  /** The order of the series does not show in the result. */
  lemma PermutationInvariant(metric: string, a: seq<Entry>, b: seq<Entry>)
    requires AllNumeric(a) && multiset(a) == multiset(b)
    ensures AllNumeric(b)
    ensures Fold(metric, a).Ok? <==> Fold(metric, b).Ok?
    ensures Fold(metric, a).Ok? ==> Fold(metric, a).value == Fold(metric, b).value
  {
    forall i | 0 <= i < |b| ensures b[i].1.Numeric() {
      assert b[i] in multiset(a);
    }
    NumericErrors(metric, a);
    NumericErrors(metric, b);
    forall n ensures NameMixed(n, a) <==> NameMixed(n, b) {
      SameBags(n, a, b);
      if NameMixed(n, a) { MixedPermuted(ValuesNamed(n, a), ValuesNamed(n, b)); }
      if NameMixed(n, b) { MixedPermuted(ValuesNamed(n, b), ValuesNamed(n, a)); }
    }
    if Fold(metric, a).Ok? {
      SameMaps(metric, a, b);
    }
  }

  lemma SameBags(n: string, a: seq<Entry>, b: seq<Entry>)
    requires multiset(a) == multiset(b)
    ensures multiset(ValuesNamed(n, a)) == multiset(ValuesNamed(n, b))
  {
    forall v ensures multiset(ValuesNamed(n, a))[v] == multiset(ValuesNamed(n, b))[v] {
      ValuesNamedFrom(n, a, v);
      ValuesNamedFrom(n, b, v);
    }
  }

  lemma SameMaps(metric: string, a: seq<Entry>, b: seq<Entry>)
    requires AllNumeric(a) && multiset(a) == multiset(b)
    requires Fold(metric, a).Ok? && Fold(metric, b).Ok?
    ensures Fold(metric, a).value == Fold(metric, b).value
  {
    FoldExact(metric, a);
    FoldExact(metric, b);
    var m, m' := Fold(metric, a).value, Fold(metric, b).value;
    forall n ensures At(m, n) == At(m', n) {
      assert !NameClashes(n, a);
      SameExpected(n, a, b);
    }
    forall n ensures (n in m <==> n in m') && (n in m ==> m[n] == m'[n]) {
      assert At(m, n) == At(m', n);
    }
  }

  lemma SameExpected(n: string, a: seq<Entry>, b: seq<Entry>)
    requires AllNumeric(a) && multiset(a) == multiset(b) && !NameClashes(n, a)
    ensures Expected(n, a) == Expected(n, b)
  {
    var u, w := ValuesNamed(n, a), ValuesNamed(n, b);
    SameBags(n, a, b);
    assert |u| == |multiset(u)| == |multiset(w)| == |w|;
    if u != [] {
      ValuesNumeric(n, a);
      AggregatePermuted(u, w);
    }
  }

  lemma AggregatePermuted(u: seq<Value>, w: seq<Value>)
    requires u != [] && multiset(u) == multiset(w)
    requires forall i :: 0 <= i < |u| ==> u[i].Numeric()
    requires !Clash(u)
    ensures w != [] && Aggregate(u) == Aggregate(w)
  {
    assert |u| == |multiset(u)| == |multiset(w)| == |w|;
    SumPermuted(u, w);
    assert w[|w| - 1] in multiset(u);
    var i :| 0 <= i < |u| && u[i] == w[|w| - 1];
    NoClashSameKind(u, i);
    NoClashSameKind(u, |u| - 1);
  }

  // ---- conservation ------------------------------------------------------

  function LeafAmount(l: Leaf): real {
    if l.Sample? then Amount(l.value) else 0.0
  }

  ghost function MapTotal(m: map<string, Leaf>): real {
    if m == map[] then 0.0 else
      var k :| k in m;
      LeafAmount(m[k]) + MapTotal(m - {k})
  }

  lemma {:induction false} MapTotalWithout(m: map<string, Leaf>, k: string)
    requires k in m
    ensures MapTotal(m) == LeafAmount(m[k]) + MapTotal(m - {k})
    decreases |m|
  {
    var j :| j in m && MapTotal(m) == LeafAmount(m[j]) + MapTotal(m - {j});
    if j != k {
      MapTotalWithout(m - {j}, k);
      MapTotalWithout(m - {k}, j);
      assert m - {j} - {k} == m - {k} - {j};
    }
  }

  function Values(entries: seq<Entry>): seq<Value> {
    seq(|entries|, i requires 0 <= i < |entries| => entries[i].1)
  }

  /** Nothing is lost or counted twice: the results add up to the input. */
  lemma {:induction false} TotalConserved(metric: string, entries: seq<Entry>)
    requires AllNumeric(entries) && Fold(metric, entries).Ok?
    ensures MapTotal(Fold(metric, entries).value) == Sum(Values(entries))
  {
    if entries != [] {
      var front, name := entries[..|entries| - 1], entries[|entries| - 1].0;
      TotalConserved(metric, front);
      var m, m' := Fold(metric, front).value, Fold(metric, entries).value;
      MapTotalWithout(m', name);
      if name in m {
        MapTotalWithout(m, name);
      }
      assert m' - {name} == m - {name};
      assert name !in m ==> m - {name} == m;
      assert Values(entries)[..|entries| - 1] == Values(front);
    }
  }

  // ---- the same, for the series themselves -------------------------------

  predicate NumericSeries(series: seq<Metric>) {
    forall m :: m in series ==> m.value.Numeric()
  }

  function SeriesValues(series: seq<Metric>): seq<Value> {
    seq(|series|, i requires 0 <= i < |series| => series[i].value)
  }

  lemma {:induction false} NamedValues(nameOf: Labels -> string, series: seq<Metric>)
    requires NumericSeries(series)
    ensures AllNumeric(NamedBy(nameOf, series))
    ensures Values(NamedBy(nameOf, series)) == SeriesValues(series)
  {
    if series != [] {
      var front := series[..|series| - 1];
      NamedValues(nameOf, front);
      assert series[|series| - 1] in series;
      assert SeriesValues(series) == SeriesValues(front) + [series[|series| - 1].value];
      assert Values(NamedBy(nameOf, series)) == Values(NamedBy(nameOf, front)) + [series[|series| - 1].value];
    }
  }

  function EntryOf(nameOf: Labels -> string, m: Metric): Entry {
    (nameOf(m.labels), m.value)
  }

  lemma NamedLast(nameOf: Labels -> string, s: seq<Metric>)
    requires s != []
    ensures multiset(NamedBy(nameOf, s)) ==
            multiset(NamedBy(nameOf, s[..|s| - 1])) + multiset{EntryOf(nameOf, s[|s| - 1])}
  {
  }

  lemma {:induction false} NamedWithout(nameOf: Labels -> string, s: seq<Metric>, i: nat)
    requires i < |s|
    ensures multiset(NamedBy(nameOf, s)) == multiset(NamedBy(nameOf, Without(s, i))) + multiset{EntryOf(nameOf, s[i])}
  {
    NamedLast(nameOf, s);
    if i == |s| - 1 {
      assert Without(s, i) == s[..|s| - 1];
    } else {
      var front, c := s[..|s| - 1], Without(s, i);
      assert c[..|c| - 1] == Without(front, i) && c[|c| - 1] == s[|s| - 1] && front[i] == s[i];
      NamedWithout(nameOf, front, i);
      NamedLast(nameOf, c);
      SwapLast(multiset(NamedBy(nameOf, s)), multiset(NamedBy(nameOf, front)),
               multiset(NamedBy(nameOf, Without(front, i))),
               multiset(NamedBy(nameOf, c)), EntryOf(nameOf, s[i]), EntryOf(nameOf, s[|s| - 1]));
    }
  }

  lemma SwapLast(all: multiset<Entry>, front: multiset<Entry>, rest: multiset<Entry>, without: multiset<Entry>,
                 x: Entry, last: Entry)
    requires all == front + multiset{last} && front == rest + multiset{x} && without == rest + multiset{last}
    ensures all == without + multiset{x}
  {
  }

  lemma {:induction false} NamedPermuted(nameOf: Labels -> string, a: seq<Metric>, b: seq<Metric>)
    requires multiset(a) == multiset(b)
    ensures multiset(NamedBy(nameOf, a)) == multiset(NamedBy(nameOf, b))
  {
    SameLength(a, b);
    if a != [] {
      var i := MatchLast(a, b);
      NamedPermuted(nameOf, a[..|a| - 1], Without(b, i));
      NamedWithout(nameOf, b, i);
      NamedLast(nameOf, a);
    }
  }

  /** Permuting counter and gauge series never changes what is fetched, whatever names
      the labels get. */
  lemma SeriesOrderIrrelevant(metric: string, nameOf: Labels -> string, a: seq<Metric>, b: seq<Metric>)
    requires NumericSeries(a) && multiset(a) == multiset(b)
    ensures var ra, rb := Fold(metric, NamedBy(nameOf, a)), Fold(metric, NamedBy(nameOf, b));
            (ra.Ok? <==> rb.Ok?) && (ra.Ok? ==> ra.value == rb.value)
  {
    NamedValues(nameOf, a);
    NamedPermuted(nameOf, a, b);
    PermutationInvariant(metric, NamedBy(nameOf, a), NamedBy(nameOf, b));
  }

  /** The fetched values add up to the series they came from, whatever labels are filtered. */
  lemma SeriesTotalConserved(metric: string, nameOf: Labels -> string, series: seq<Metric>)
    requires NumericSeries(series)
    requires Fold(metric, NamedBy(nameOf, series)).Ok?
    ensures MapTotal(Fold(metric, NamedBy(nameOf, series)).value) == Sum(SeriesValues(series))
  {
    NamedValues(nameOf, series);
    TotalConserved(metric, NamedBy(nameOf, series));
  }

  /** FromValueWithOverriddenName: a bare metric bypasses the filters. */
  ghost function FromValue(metric: string, override: string, filters: seq<LabelsFilter>,
                           group: string, entity: string, groups: RawGroups): Result<Fetched> {
    match FromRaw(metric, group, entity, groups)
    case Err(e) => Err(e)
    case Ok(Single(m)) => Ok(Scalar(Sample(m.value)))
    case Ok(Series(ms)) =>
      (match Fold(metric, NamedBy(Namer(metric, override, filters), ms))
       case Err(e) => Err(e)
       case Ok(values) => Ok(Bundle(values)))
    case Ok(_) => Err(IncompatibleType(metric))
  }

  method FromValueWithOverriddenName(metric: string, override: string, filters: seq<LabelsFilter>,
                                     group: string, entity: string, groups: RawGroups) returns (r: Result<Fetched>)
    ensures r == FromValue(metric, override, filters, group, entity, groups)
  {
    match FromRaw(metric, group, entity, groups) {
      case Err(e) => r := Err(e);
      case Ok(Single(m)) => r := Ok(Scalar(Sample(m.value)));
      case Ok(Series(ms)) =>
        var values := FetchedValuesFromRawMetrics(metric, override, ms, filters);
        r := if values.Err? then Err(values.error) else Ok(Bundle(values.value));
      case Ok(_) => r := Err(IncompatibleType(metric));
    }
  }

  /** The values of some name clash. */
  ghost predicate SomeClash(entries: seq<Entry>) {
    exists n :: NameClashes(n, entries)
  }

  /** Every name has the aggregate of its values, and there is no other name. */
  ghost predicate AllAggregated(values: map<string, Leaf>, entries: seq<Entry>) {
    forall n :: At(values, n) == Expected(n, entries)
  }

  /** What is fetched, by what is stored: the value of a bare metric; of a list, under every
      attribute name the aggregate of the series with that name, and an error exactly if the
      values of one name clash; an error for anything else. */
  lemma FromValueExact(metric: string, override: string, filters: seq<LabelsFilter>, group: string, entity: string,
                       groups: RawGroups)
    ensures var v := Cell(EntitiesOf(groups, group), entity, metric);
            var r := FromValue(metric, override, filters, group, entity, groups);
            && (v.None? ==> r.Err?)
            && (v.Some? && v.value.Single? ==> r == Ok(Scalar(Sample(v.value.metric.value))))
            && (v.Some? && v.value.Series? ==>
                  var entries := NamedBy(Namer(metric, override, filters), v.value.metrics);
                  && (r.Err? <==> SomeClash(entries))
                  && (r.Ok? ==> r.value.Bundle? && AllAggregated(r.value.values, entries)))
            && (v.Some? && !v.value.Single? && !v.value.Series? ==> r == Err(IncompatibleType(metric)))
  {
    var v := Cell(EntitiesOf(groups, group), entity, metric);
    if v.Some? && v.value.Series? {
      var ms := v.value.metrics;
      var entries := NamedBy(Namer(metric, override, filters), ms);
      FoldExact(metric, entries);
      assert Fold(metric, entries).Err? <==> SomeClash(entries);
      assert FromRaw(metric, group, entity, groups) == Ok(Series(ms));
      assert FromValue(metric, override, filters, group, entity, groups) ==
             if Fold(metric, entries).Err? then Err(Fold(metric, entries).error)
             else Ok(Bundle(Fold(metric, entries).value));
    }
  }
}
