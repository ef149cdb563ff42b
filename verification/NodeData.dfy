/** The node record the kubelet grouper derives: request sums over containers, node
    conditions and the running-pod count (src/kubelet/grouper/group.go). */
module NodeData {
  import opened RawData

  // ---- request sums ------------------------------------------------------

  const TWO_63: int := 0x8000_0000_0000_0000
  const TWO_64: int := 0x1_0000_0000_0000_0000

  /** int64 arithmetic wraps around. */
  function Wrap64(x: int): int {
    (x + TWO_63) % TWO_64 - TWO_63
  }

  /** The one int64 that differs from x by a multiple of 2^64. */
  lemma WrapExact(x: int, r: int)
    ensures r == Wrap64(x) <==> -TWO_63 <= r < TWO_63 && exists k :: r == x + k * TWO_64
  {
    var q := (x + TWO_63) / TWO_64;
    assert Wrap64(x) == x + (-q) * TWO_64;
    forall k | -TWO_63 <= r < TWO_63 && r == x + k * TWO_64
      ensures r == Wrap64(x)
    {
      assert (k + q) * TWO_64 == r - Wrap64(x);
    }
  }

  function Requested(record: RawMetrics, key: string): int {
    if key in record && record[key].Number? then record[key].number else 0
  }

  /** The exact sum over some containers. */
  ghost function TotalRequested(containers: Entities, ids: set<string>, key: string): int
    requires ids <= containers.Keys
  {
    if ids == {} then 0 else
      var id :| id in ids;
      TotalRequested(containers, ids - {id}, key) + Requested(containers[id], key)
  }

  lemma {:induction false} TotalWithout(containers: Entities, ids: set<string>, id: string, key: string)
    requires ids <= containers.Keys && id in ids
    ensures TotalRequested(containers, ids, key) ==
            TotalRequested(containers, ids - {id}, key) + Requested(containers[id], key)
    decreases ids
  {
    var j :| j in ids && TotalRequested(containers, ids, key) ==
                         TotalRequested(containers, ids - {j}, key) + Requested(containers[j], key);
    if j != id {
      TotalWithout(containers, ids - {j}, id, key);
      TotalWithout(containers, ids - {id}, j, key);
      assert ids - {j} - {id} == ids - {id} - {j};
    }
  }

  /** The request, if there is one, is an int64; the program asserts so and panics otherwise. */
  predicate Summable(containers: Entities, key: string) {
    forall id :: id in containers && key in containers[id] ==> containers[id][key].Number?
  }

  /** The accumulation loop gives the exact sum up to 64-bit wrap-around, in any order; it
      stops without a sum exactly when some request is not a number. */
  method SumRequested(containers: Entities, key: string) returns (r: Option<int>)
    ensures r.Some? <==> Summable(containers, key)
    ensures r.Some? ==> r.value == Wrap64(TotalRequested(containers, containers.Keys, key))
  {
    var sum := 0;
    var done := {};
    while done != containers.Keys
      invariant done <= containers.Keys
      invariant forall id :: id in done && key in containers[id] ==> containers[id][key].Number?
      invariant sum == Wrap64(TotalRequested(containers, done, key))
      decreases containers.Keys - done
    {
      assert exists c :: c in containers && c !in done;
      var id :| id in containers && id !in done;
      if key in containers[id] {
        if !containers[id][key].Number? {
          return None;
        }
        sum := Wrap64(sum + containers[id][key].number);
      }
      TotalWithout(containers, done + {id}, id, key);
      assert done + {id} - {id} == done;
      done := done + {id};
    }
    return Some(sum);
  }

  // ---- running pods ------------------------------------------------------

  predicate IsRunning(record: RawMetrics) {
    "status" in record && record["status"] == Text("Running")
  }

  method CountRunningPods(pods: Entities) returns (count: nat)
    ensures count == |set p | p in pods && IsRunning(pods[p])|
  {
    count := 0;
    var done := {};
    while done != pods.Keys
      invariant done <= pods.Keys
      invariant count == |set p | p in done && IsRunning(pods[p])|
      decreases pods.Keys - done
    {
      assert exists p :: p in pods && p !in done;
      var id :| id in pods && id !in done;
      ghost var before := set p | p in done && IsRunning(pods[p]);
      ghost var after := set p | p in done + {id} && IsRunning(pods[p]);
      if IsRunning(pods[id]) {
        assert after == before + {id};
        count := count + 1;
      } else {
        assert after == before;
      }
      done := done + {id};
    }
  }

  // ---- node conditions ---------------------------------------------------

  /** Invalid is a status the API does not allow; it is skipped. */
  datatype ConditionStatus = True | False | Unknown | Invalid

  datatype Condition = Condition(kind: string, status: ConditionStatus)

  function Code(s: ConditionStatus): int {
    match s
    case True => 1
    case False => 0
    case _ => -1
  }

  method NodeConditions(conditions: seq<Condition>) returns (r: map<string, int>)
    ensures r == Conditions(conditions)
  {
    r := map[];
    for i := 0 to |conditions|
      invariant r == Conditions(conditions[..i])
    {
      var c := conditions[i];
      assert conditions[..i + 1][..i] == conditions[..i];
      if c.status.Invalid? {
        continue;
      }
      var value := Code(c.status);
      if c.kind in r && r[c.kind] != value {
        value := -1;
      }
      r := r[c.kind := value];
    }
    assert conditions[..|conditions|] == conditions;
  }

  function Conditions(conditions: seq<Condition>): map<string, int> {
    if conditions == [] then map[] else
      var r, c := Conditions(conditions[..|conditions| - 1]), conditions[|conditions| - 1];
      if c.status.Invalid? then r
      else r[c.kind := if c.kind in r && r[c.kind] != Code(c.status) then -1 else Code(c.status)]
  }

  /** A condition is 1 (0) exactly when all its valid reports are True (False), -1 when they
      disagree or one is Unknown, and absent when there are none. */
  lemma {:induction false} ConditionsExact(conditions: seq<Condition>, kind: string)
    ensures var r := Conditions(conditions);
            var true_, false_ := Condition(kind, True) in conditions, Condition(kind, False) in conditions;
            var unknown := Condition(kind, Unknown) in conditions;
            && (kind in r <==> true_ || false_ || unknown)
            && (kind in r ==> r[kind] == if true_ && !false_ && !unknown then 1
                                         else if false_ && !true_ && !unknown then 0
                                         else -1)
  {
    if conditions != [] {
      var front, c := conditions[..|conditions| - 1], conditions[|conditions| - 1];
      assert conditions == front + [c];
      ConditionsExact(front, kind);
      assert forall s :: Condition(kind, s) in conditions <==> Condition(kind, s) in front || c == Condition(kind, s);
    }
  }
}
