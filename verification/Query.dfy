/** Query.Execute and the vote-counting label test it relies on
    (src/prometheus/query.go, src/prometheus/metric.go). */
module Query {
  import opened RawData

  datatype LabelPair = LabelPair(name: string, value: string)

  // ---- Labels.AreIn ------------------------------------------------------

  /** How many positions of p match one of the named required labels. */
  function Votes(l: Labels, names: set<string>, p: seq<LabelPair>): nat {
    if p == [] then 0 else
      var last := p[|p| - 1];
      Votes(l, names, p[..|p| - 1]) +
      (if last.name in names && last.name in l && l[last.name] == last.value then 1 else 0)
  }

  lemma {:induction false} VotesAdd(l: Labels, names: set<string>, k: string, p: seq<LabelPair>)
    requires k in l && k !in names
    ensures Votes(l, names + {k}, p) == Votes(l, names, p) + multiset(p)[LabelPair(k, l[k])]
  {
    if p != [] {
      VotesAdd(l, names, k, p[..|p| - 1]);
      assert p == p[..|p| - 1] + [p[|p| - 1]];
    }
  }

  lemma {:induction false} VotesNone(l: Labels, p: seq<LabelPair>)
    ensures Votes(l, {}, p) == 0
  {
    if p != [] {
      VotesNone(l, p[..|p| - 1]);
    }
  }

  /** The nested loops: required labels in arbitrary order, each against every pair. */
  method AreIn(l: Labels, p: seq<LabelPair>) returns (r: bool)
    ensures r == (Votes(l, l.Keys, p) == |l|)
  {
    var votes := 0;
    var done := {};
    VotesNone(l, p);
    while done != l.Keys
      invariant done <= l.Keys
      invariant votes == Votes(l, done, p)
      decreases l.Keys - done
    {
      assert exists k :: k in l && k !in done;
      var name :| name in l && name !in done;
      ghost var before := votes;
      for i := 0 to |p|
        invariant votes == before + multiset(p[..i])[LabelPair(name, l[name])]
      {
        if p[i].name == name && p[i].value == l[name] {
          votes := votes + 1;
        }
        assert p[..i + 1] == p[..i] + [p[i]];
      }
      assert p[..|p|] == p;
      VotesAdd(l, done, name, p);
      done := done + {name};
    }
    r := votes == |l|;
  }

  /** Every required pair occurs. */
  predicate Included(l: Labels, p: seq<LabelPair>) {
    forall k :: k in l ==> LabelPair(k, l[k]) in p
  }

  /** No required pair occurs twice; true of every series, whose label names are distinct. */
  predicate NoRepeats(l: Labels, p: seq<LabelPair>) {
    forall k :: k in l ==> multiset(p)[LabelPair(k, l[k])] <= 1
  }

  predicate DistinctNames(p: seq<LabelPair>) {
    forall i, j :: 0 <= i < j < |p| ==> p[i].name != p[j].name
  }

  lemma {:induction false} DistinctHasNoRepeats(l: Labels, p: seq<LabelPair>)
    requires DistinctNames(p)
    ensures NoRepeats(l, p)
  {
    if p != [] {
      var front, last := p[..|p| - 1], p[|p| - 1];
      DistinctHasNoRepeats(l, front);
      assert p == front + [last];
      forall i | 0 <= i < |front| ensures front[i] != last {
        assert p[i].name != p[|p| - 1].name;
      }
      assert last !in multiset(front);
    }
  }

  ghost function FoundAmong(l: Labels, names: set<string>, p: seq<LabelPair>): set<string> {
    set k | k in names && k in l && LabelPair(k, l[k]) in p
  }

  /** Without repeats, the votes count the required labels that were found. */
  lemma {:induction false} VotesCountFound(l: Labels, names: set<string>, p: seq<LabelPair>)
    requires names <= l.Keys && NoRepeats(l, p)
    ensures Votes(l, names, p) == |FoundAmong(l, names, p)|
    decreases |names|
  {
    if names == {} {
      VotesNone(l, p);
    } else {
      var k :| k in names;
      VotesCountFound(l, names - {k}, p);
      VotesAdd(l, names - {k}, k, p);
      assert names - {k} + {k} == names;
      assert LabelPair(k, l[k]) in p <==> LabelPair(k, l[k]) in multiset(p);
      if LabelPair(k, l[k]) in p {
        assert FoundAmong(l, names, p) == FoundAmong(l, names - {k}, p) + {k};
      } else {
        assert FoundAmong(l, names, p) == FoundAmong(l, names - {k}, p);
      }
    }
  }

  /** When all pairs occur there is a vote for each, and one more for every repetition. */
  lemma {:induction false} VotesCountRepeats(l: Labels, names: set<string>, p: seq<LabelPair>)
    requires names <= l.Keys && Included(l, p)
    ensures Votes(l, names, p) >= |names|
    ensures Votes(l, names, p) == |names| ==> forall k :: k in names ==> multiset(p)[LabelPair(k, l[k])] == 1
    decreases |names|
  {
    if names != {} {
      var k :| k in names;
      VotesCountRepeats(l, names - {k}, p);
      VotesAdd(l, names - {k}, k, p);
      assert names - {k} + {k} == names;
      assert LabelPair(k, l[k]) in multiset(p);
      forall j | Votes(l, names, p) == |names| && j in names ensures multiset(p)[LabelPair(j, l[j])] == 1 {
        if j != k {
          assert j in names - {k};
        }
      }
    }
  }

  /** Counting votes decides inclusion exactly when no required pair is repeated. */
  lemma AreInExact(l: Labels, p: seq<LabelPair>)
    ensures NoRepeats(l, p) ==> (Votes(l, l.Keys, p) == |l| <==> Included(l, p))
    ensures Included(l, p) ==> (Votes(l, l.Keys, p) == |l| <==> NoRepeats(l, p))
  {
    if NoRepeats(l, p) {
      VotesCountFound(l, l.Keys, p);
      var found := FoundAmong(l, l.Keys, p);
      if |found| == |l.Keys| {
        SubsetOfSameSize(found, l.Keys);
        assert Included(l, p);
      }
      if Included(l, p) {
        assert found == l.Keys;
      }
    }
    if Included(l, p) {
      VotesCountRepeats(l, l.Keys, p);
    }
  }

  lemma SubsetOfSameSize(a: set<string>, b: set<string>)
    requires a <= b && |a| == |b|
    ensures a == b
  {
    assert b == a + (b - a);
    assert |b - a| == 0;
  }

  /** Counting votes decides inclusion for every query exactly on the label lists in which no
      pair occurs twice. */
  lemma VotesDecideIff(p: seq<LabelPair>)
    ensures (forall l: Labels :: Votes(l, l.Keys, p) == |l| <==> Included(l, p)) <==>
            (forall x :: x in p ==> multiset(p)[x] == 1)
  {
    if forall x :: x in p ==> multiset(p)[x] == 1 {
      forall l: Labels ensures Votes(l, l.Keys, p) == |l| <==> Included(l, p) {
        assert forall x :: x in multiset(p) <==> x in p;
        AreInExact(l, p);
      }
    } else {
      var x :| x in p && multiset(p)[x] != 1;
      var l: Labels := map[x.name := x.value];
      assert LabelPair(x.name, x.value) == x && x in multiset(p);
      assert x.name in l && multiset(p)[LabelPair(x.name, l[x.name])] > 1;
      assert Included(l, p) && !NoRepeats(l, p);
      AreInExact(l, p);
    }
  }

  /** With a repeated pair the votes can miss that another label is absent. */
  lemma AreInMiscounts()
    ensures var l := map["a" := "1", "b" := "2"];
            var p := [LabelPair("a", "1"), LabelPair("a", "1")];
            Votes(l, l.Keys, p) == |l| && !Included(l, p)
  {
    var l := map["a" := "1", "b" := "2"];
    var p := [LabelPair("a", "1"), LabelPair("a", "1")];
    assert p[..1] == [LabelPair("a", "1")] && p[..1][..0] == [];
    assert Votes(l, l.Keys, p[..1]) == 1;
    assert LabelPair("b", l["b"]) !in p;
  }

  // ---- Query.Execute -----------------------------------------------------

  datatype Operator = And | Nor

  datatype MetricType = CounterType | GaugeType | SummaryType | HistogramType | UntypedType

  datatype PromMetric = PromMetric(pairs: seq<LabelPair>, counter: real, gauge: real, summary: int)

  datatype PromFamily = PromFamily(name: string, kind: MetricType, kindName: string, metrics: seq<PromMetric>)

  datatype Query = Query(customName: string, metricName: string,
                         labelOp: Operator, required: Labels,
                         valueOp: Operator, value: Option<Value>)

  function ValueFromPrometheus(kind: MetricType, m: PromMetric): Value {
    match kind
    case CounterType => Counter(m.counter)
    case GaugeType => Gauge(m.gauge)
    case HistogramType => Summary(m.summary)
    case SummaryType => Summary(m.summary)
    case UntypedType => NoValue
  }

  /** labelsFromPrometheus: a repeated name keeps its last value. */
  function LabelsFromPrometheus(pairs: seq<LabelPair>): Labels {
    if pairs == [] then map[] else
      LabelsFromPrometheus(pairs[..|pairs| - 1])[pairs[|pairs| - 1].name := pairs[|pairs| - 1].value]
  }

  function Convert(kind: MetricType, m: PromMetric): Metric {
    Metric(LabelsFromPrometheus(m.pairs), ValueFromPrometheus(kind, m))
  }

  predicate LabelsMatch(q: Query, m: PromMetric) {
    q.required == map[] || ((Votes(q.required, q.required.Keys, m.pairs) == |q.required|) == q.labelOp.And?)
  }

  /** Values are compared by their printed form. */
  predicate ValueMatches(q: Query, v: Value, printed: Value -> string) {
    q.value.None? || ((printed(q.value.value) == printed(v)) == q.valueOp.And?)
  }

  predicate Selects(q: Query, kind: MetricType, m: PromMetric, printed: Value -> string) {
    LabelsMatch(q, m) && ValueMatches(q, ValueFromPrometheus(kind, m), printed)
  }

  function Matches(q: Query, kind: MetricType, metrics: seq<PromMetric>, printed: Value -> string): seq<Metric>
    decreases |metrics|
  {
    if metrics == [] then [] else
      var rest := Matches(q, kind, metrics[1..], printed);
      if Selects(q, kind, metrics[0], printed) then [Convert(kind, metrics[0])] + rest else rest
  }

  method Execute(q: Query, family: PromFamily, printed: Value -> string) returns (r: MetricFamily)
    ensures r == if family.name != q.metricName || family.metrics == [] then MetricFamily("", "", [])
                 else MetricFamily(if q.customName != "" then q.customName else family.name,
                                   family.kindName, Matches(q, family.kind, family.metrics, printed))
  {
    if family.name != q.metricName || |family.metrics| <= 0 {
      return MetricFamily("", "", []);
    }
    var matches: seq<Metric> := [];
    for i := 0 to |family.metrics|
      invariant matches + Matches(q, family.kind, family.metrics[i..], printed) ==
                Matches(q, family.kind, family.metrics, printed)
    {
      var m := family.metrics[i];
      assert family.metrics[i..][0] == m && family.metrics[i..][1..] == family.metrics[i + 1..];
      if |q.required| > 0 {
        var included := AreIn(q.required, m.pairs);
        if included != q.labelOp.And? {
          continue;
        }
      }
      var value := ValueFromPrometheus(family.kind, m);
      if q.value.Some? && (printed(q.value.value) == printed(value)) != q.valueOp.And? {
        continue;
      }
      matches := matches + [Metric(LabelsFromPrometheus(m.pairs), value)];
    }
    assert matches == Matches(q, family.kind, family.metrics, printed);
    r := MetricFamily(if q.customName != "" then q.customName else family.name, family.kindName, matches);
  }

  function ConvertAll(kind: MetricType, metrics: seq<PromMetric>): seq<Metric> {
    if metrics == [] then [] else [Convert(kind, metrics[0])] + ConvertAll(kind, metrics[1..])
  }

  /** all is a and b shuffled together, each in its own order. */
  predicate Interleaves(a: seq<Metric>, b: seq<Metric>, all: seq<Metric>)
    decreases |all|
  {
    if all == [] then a == [] && b == []
    else
      || (a != [] && a[0] == all[0] && Interleaves(a[1..], b, all[1..]))
      || (b != [] && b[0] == all[0] && Interleaves(a, b[1..], all[1..]))
  }

  /** Two queries of which every series satisfies exactly one. */
  ghost predicate Complementary(q: Query, q': Query, kind: MetricType, printed: Value -> string) {
    forall m :: Selects(q, kind, m, printed) <==> !Selects(q', kind, m, printed)
  }

  /** Complementary queries split every family's series between them, in order. */
  lemma {:induction false} ComplementsPartition(q: Query, q': Query, kind: MetricType, metrics: seq<PromMetric>,
                                                printed: Value -> string)
    requires Complementary(q, q', kind, printed)
    ensures Interleaves(Matches(q, kind, metrics, printed), Matches(q', kind, metrics, printed),
                        ConvertAll(kind, metrics))
    decreases |metrics|
  {
    if metrics != [] {
      ComplementsPartition(q, q', kind, metrics[1..], printed);
      var m := Convert(kind, metrics[0]);
      var a, b := Matches(q, kind, metrics[1..], printed), Matches(q', kind, metrics[1..], printed);
      assert ([m] + a)[1..] == a && ([m] + b)[1..] == b;
      assert ConvertAll(kind, metrics)[1..] == ConvertAll(kind, metrics[1..]);
      assert Selects(q, kind, metrics[0], printed) <==> !Selects(q', kind, metrics[0], printed);
    }
  }

  /** The And and Nor forms of a label query, and of a value query, partition a family. */
  lemma AndNorPartition(q: Query, kind: MetricType, metrics: seq<PromMetric>, printed: Value -> string)
    ensures q.required != map[] && q.value.None? ==>
              Interleaves(Matches(q.(labelOp := And), kind, metrics, printed),
                          Matches(q.(labelOp := Nor), kind, metrics, printed), ConvertAll(kind, metrics))
    ensures q.required == map[] && q.value.Some? ==>
              Interleaves(Matches(q.(valueOp := And), kind, metrics, printed),
                          Matches(q.(valueOp := Nor), kind, metrics, printed), ConvertAll(kind, metrics))
  {
    if q.required != map[] && q.value.None? {
      ComplementsPartition(q.(labelOp := And), q.(labelOp := Nor), kind, metrics, printed);
    }
    if q.required == map[] && q.value.Some? {
      ComplementsPartition(q.(valueOp := And), q.(valueOp := Nor), kind, metrics, printed);
    }
  }

  /** With both a label and a value query, the forms with And twice and Nor twice split a
      series between them exactly when it meets both conditions or neither. */
  lemma BothNegatedSplitIff(q: Query, kind: MetricType, m: PromMetric, printed: Value -> string)
    requires q.required != map[] && q.value.Some?
    ensures (Selects(q.(labelOp := And, valueOp := And), kind, m, printed) !=
             Selects(q.(labelOp := Nor, valueOp := Nor), kind, m, printed)) <==>
            (Votes(q.required, q.required.Keys, m.pairs) == |q.required| <==>
             printed(q.value.value) == printed(ValueFromPrometheus(kind, m)))
  {
  }

  lemma {:induction false} LabelsFromPairs(p: seq<LabelPair>, k: string, v: string)
    requires DistinctNames(p)
    ensures (k in LabelsFromPrometheus(p) && LabelsFromPrometheus(p)[k] == v) <==> LabelPair(k, v) in p
  {
    if p != [] {
      var front, last := p[..|p| - 1], p[|p| - 1];
      LabelsFromPairs(front, k, v);
      assert p == front + [last];
      forall i | 0 <= i < |front| ensures front[i].name != last.name {
        assert p[i].name != p[|p| - 1].name;
      }
    }
  }

  /** What the And query returns carries every required label with its required value. */
  lemma SelectedCarryRequired(q: Query, kind: MetricType, m: PromMetric, printed: Value -> string, k: string)
    requires q.required != map[] && q.labelOp.And? && DistinctNames(m.pairs) && k in q.required
    requires Selects(q, kind, m, printed)
    ensures k in Convert(kind, m).labels && Convert(kind, m).labels[k] == q.required[k]
  {
    DistinctHasNoRepeats(q.required, m.pairs);
    AreInExact(q.required, m.pairs);
    LabelsFromPairs(m.pairs, k, q.required[k]);
  }

  /** The And query selects a series exactly when its labels include the required ones. */
  lemma AndSelectsIncluded(q: Query, kind: MetricType, m: PromMetric, printed: Value -> string)
    requires q.required != map[] && q.value.None? && DistinctNames(m.pairs)
    ensures Selects(q.(labelOp := And), kind, m, printed) <==> Included(q.required, m.pairs)
    ensures Selects(q.(labelOp := Nor), kind, m, printed) <==> !Included(q.required, m.pairs)
  {
    DistinctHasNoRepeats(q.required, m.pairs);
    AreInExact(q.required, m.pairs);
  }

  // ---- what a query returns, series by series ----------------------------

  /** The last pair with the name. */
  ghost predicate LastPair(p: seq<LabelPair>, i: int, k: string) {
    0 <= i < |p| && p[i].name == k && forall j :: i < j < |p| ==> p[j].name != k
  }

  lemma {:induction false} LabelsAreLast(p: seq<LabelPair>, k: string)
    ensures k in LabelsFromPrometheus(p) <==> exists i :: LastPair(p, i, k)
    ensures forall i :: LastPair(p, i, k) ==> LabelsFromPrometheus(p)[k] == p[i].value
  {
    if p != [] {
      var n := |p| - 1;
      LabelsAreLast(p[..n], k);
      if p[n].name == k {
        assert LastPair(p, n, k);
        assert forall i :: LastPair(p, i, k) ==> i == n;
      } else {
        assert forall i :: LastPair(p, i, k) <==> LastPair(p[..n], i, k);
      }
    }
  }

  /** A converted series has the value of its family's type, none for an untyped one, and under
      each label name the value of the last pair of that name. */
  lemma ConvertExact(kind: MetricType, m: PromMetric, k: string)
    ensures var x := Convert(kind, m);
            && (kind.CounterType? ==> x.value == Counter(m.counter))
            && (kind.GaugeType? ==> x.value == Gauge(m.gauge))
            && (kind.HistogramType? || kind.SummaryType? ==> x.value == Summary(m.summary))
            && (kind.UntypedType? ==> x.value == NoValue)
            && (k in x.labels <==> exists i :: LastPair(m.pairs, i, k))
            && (forall i :: LastPair(m.pairs, i, k) ==> x.labels[k] == m.pairs[i].value)
  {
    LabelsAreLast(m.pairs, k);
  }

  /** A series of distinct label names is selected exactly if it has all required pairs, or not
      all of them for Nor, and its value prints like the wanted one, or unlike it for Nor; a
      query without labels or without a value leaves that test out. */
  lemma SelectsIff(q: Query, kind: MetricType, m: PromMetric, printed: Value -> string)
    requires DistinctNames(m.pairs)
    ensures Selects(q, kind, m, printed) <==>
            && (q.required != map[] && q.labelOp == And ==>
                  forall k :: k in q.required ==> LabelPair(k, q.required[k]) in m.pairs)
            && (q.required != map[] && q.labelOp == Nor ==>
                  exists k :: k in q.required && LabelPair(k, q.required[k]) !in m.pairs)
            && (q.value.Some? && q.valueOp == And ==> printed(Convert(kind, m).value) == printed(q.value.value))
            && (q.value.Some? && q.valueOp == Nor ==> printed(Convert(kind, m).value) != printed(q.value.value))
  {
    DistinctHasNoRepeats(q.required, m.pairs);
    AreInExact(q.required, m.pairs);
  }

  /** What is returned are the selected series, converted, and nothing else. */
  lemma {:induction false} MatchesAreSelected(q: Query, kind: MetricType, metrics: seq<PromMetric>,
                                              printed: Value -> string, x: Metric)
    ensures x in Matches(q, kind, metrics, printed) <==>
            exists i :: 0 <= i < |metrics| && Selects(q, kind, metrics[i], printed) && x == Convert(kind, metrics[i])
    decreases |metrics|
  {
    if metrics != [] {
      var rest := metrics[1..];
      MatchesAreSelected(q, kind, rest, printed, x);
      assert forall i :: 0 <= i < |rest| ==> rest[i] == metrics[i + 1];
    }
  }
}
