/** State over time: the cached namespace filter, the interface cache and the main loop that
    vacuums them (internal/discovery/namespace_cache.go, namespace_filter.go,
    cmd/nri-kubernetes/main.go). */
module ScrapeLoop {
  import opened RawData
  import opened Network

  const VACUUM_INTERVAL := 10
  const TWO_64: int := 0x1_0000_0000_0000_0000

  // ---- the namespace cache and filter ------------------------------------

  class NamespaceInMemoryStore {
    var cache: map<string, bool>

    constructor ()
      ensures cache == map[]
    {
      cache := map[];
    }

    method Put(namespace: string, match_: bool)
      modifies this
      ensures cache == old(cache)[namespace := match_]
    {
      cache := cache[namespace := match_];
    }

    method Match(namespace: string) returns (r: Option<bool>)
      ensures r == if namespace in cache then Some(cache[namespace]) else None
    {
      r := if namespace in cache then Some(cache[namespace]) else None;
    }

    method Vacuum()
      modifies this
      ensures cache == map[]
    {
      cache := map[];
    }
  }

  /** CachedNamespaceFilter; underlying is what the wrapped filter would answer now. */
  class CachedNamespaceFilter {
    const store: NamespaceInMemoryStore

    constructor (store: NamespaceInMemoryStore)
      ensures this.store == store
    {
      this.store := store;
    }

    method IsAllowed(namespace: string, underlying: bool) returns (allowed: bool)
      modifies store
      ensures allowed == Answer(old(store.cache), namespace, underlying)
      ensures store.cache == old(store.cache)[namespace := allowed]
    {
      var cached := store.Match(namespace);
      if cached.Some? {
        assert store.cache == store.cache[namespace := cached.value];
        return cached.value;
      }
      allowed := underlying;
      store.Put(namespace, allowed);
    }
  }

  function Answer(cache: map<string, bool>, namespace: string, underlying: bool): bool {
    if namespace in cache then cache[namespace] else underlying
  }

  // ---- runs --------------------------------------------------------------

  /** What scrapers ask of the shared state: the verdict on a namespace, or an interface
      metric on whatever groups were scraped. */
  datatype Request =
    | Check(namespace: string, underlying: bool)
    | Find(lookup: Lookup, groups: RawGroups)

  /** What happens to the shared state: a verdict is asked for and returned, an interface is
      cached, an iteration of the loop ends. */
  datatype Step =
    | Asked(namespace: string, underlying: bool, verdict: bool)
    | Put(entity: string, interfaceName: string)
    | EndScrape

  /** scrape numbers the current iteration from 1, without wrapping. */
  datatype State = State(scrape: nat, namespaces: map<string, bool>, interfaces: map<string, string>)

  const INITIAL := State(1, map[], map[])

  /** scrapeCount++ on a uint64. */
  function Bumped(count: nat): nat {
    if count + 1 == TWO_64 then 0 else count + 1
  }

  /** The counter during the scrape with the given number. */
  function CounterAt(scrape: nat): nat {
    if scrape == 0 then 0 else Bumped(CounterAt(scrape - 1))
  }

  predicate VacuumsInterfaces(scrape: nat) {
    CounterAt(scrape) % VACUUM_INTERVAL == 0
  }

  function Next(s: State, step: Step): State {
    match step
    case Asked(ns, underlying, _) => s.(namespaces := s.namespaces[ns := Answer(s.namespaces, ns, underlying)])
    case Put(entity, name) => s.(interfaces := s.interfaces[entity := name])
    case EndScrape =>
      State(s.scrape + 1, map[], if VacuumsInterfaces(s.scrape) then map[] else s.interfaces)
  }

  function After(steps: seq<Step>): State {
    if steps == [] then INITIAL else Next(After(steps[..|steps| - 1]), steps[|steps| - 1])
  }

  lemma AfterSnoc(steps: seq<Step>, step: Step)
    ensures After(steps + [step]) == Next(After(steps), step)
  {
    assert (steps + [step])[..|steps|] == steps;
  }

  /** The steps a request causes in a state. */
  ghost function StepsOf(r: Request, s: State): seq<Step> {
    match r
    case Check(ns, underlying) => [Asked(ns, underlying, Answer(s.namespaces, ns, underlying))]
    case Find(q, groups) =>
      if !Hit(q, groups, s.interfaces) && Stored(q, groups).Some? then [Put(q.entity, Stored(q, groups).value)] else []
  }

  /** The history after some more requests. */
  ghost function Extended(history: seq<Step>, requests: seq<Request>): seq<Step> {
    if requests == [] then history else
      var before := Extended(history, requests[..|requests| - 1]);
      before + StepsOf(requests[|requests| - 1], After(before))
  }

  /** The verdict the filter gives at step i. */
  ghost function AnswerAt(steps: seq<Step>, i: nat): bool
    requires i < |steps| && steps[i].Asked?
  {
    Answer(After(steps[..i]).namespaces, steps[i].namespace, steps[i].underlying)
  }

  /** Every verdict that was returned is the one the filter gives at that point. */
  ghost predicate Honest(steps: seq<Step>) {
    forall i :: 0 <= i < |steps| && steps[i].Asked? ==> steps[i].verdict == AnswerAt(steps, i)
  }

  lemma HonestMore(steps: seq<Step>, more: seq<Step>)
    requires Honest(steps) && |more| <= 1
    requires more != [] && more[0].Asked? ==>
               more[0].verdict == Answer(After(steps).namespaces, more[0].namespace, more[0].underlying)
    ensures Honest(steps + more)
  {
    var all := steps + more;
    forall i | 0 <= i < |all| && all[i].Asked? ensures all[i].verdict == AnswerAt(all, i) {
      if i < |steps| {
        assert all[..i] == steps[..i] && steps[i].verdict == AnswerAt(steps, i);
      } else {
        assert all[..i] == steps;
      }
    }
  }

  /** The main loop over shared cache objects. */
  class Loop {
    const namespaces: NamespaceInMemoryStore
    const filter: CachedNamespaceFilter
    const interfaces: InterfaceCache
    var scrapeCount: nat
    ghost var history: seq<Step>

    ghost predicate InStep()
      reads this, namespaces, interfaces
    {
      && filter.store == namespaces
      && namespaces.cache == After(history).namespaces
      && interfaces.cache == After(history).interfaces
    }

    ghost predicate Valid()
      reads this, namespaces, interfaces
    {
      InStep() && Honest(history) && After(history).scrape >= 1 && scrapeCount == CounterAt(After(history).scrape - 1)
    }

    constructor ()
      ensures Valid() && history == [] && fresh(namespaces) && fresh(interfaces)
    {
      var store := new NamespaceInMemoryStore();
      namespaces := store;
      filter := new CachedNamespaceFilter(store);
      interfaces := new InterfaceCache();
      scrapeCount := 0;
      history := [];
    }

    method Serve(r: Request)
      requires InStep()
      modifies `history, namespaces, interfaces
      ensures InStep() && history == old(history) + StepsOf(r, After(old(history)))
      ensures After(history).scrape == After(old(history)).scrape
    {
      ghost var steps := StepsOf(r, After(history));
      if steps != [] {
        AfterSnoc(history, steps[0]);
        assert steps == [steps[0]];
      } else {
        assert history + steps == history;
      }
      match r {
        case Check(ns, underlying) =>
          var verdict := filter.IsAllowed(ns, underlying);
          history := history + [Asked(ns, underlying, verdict)];
        case Find(q, groups) =>
          var _ := Fetch(q, groups, interfaces);
          history := history + steps;
      }
    }

    /** The scrapers' requests of one iteration. */
    method ServeAll(requests: seq<Request>)
      requires InStep() && Honest(history)
      modifies `history, namespaces, interfaces
      ensures InStep() && Honest(history) && history == Extended(old(history), requests)
      ensures After(history).scrape == After(old(history)).scrape
    {
      for i := 0 to |requests|
        invariant InStep() && Honest(history) && history == Extended(old(history), requests[..i])
        invariant After(history).scrape == After(old(history)).scrape
      {
        assert requests[..i + 1][..i] == requests[..i];
        HonestMore(history, StepsOf(requests[i], After(history)));
        Serve(requests[i]);
      }
      assert requests[..|requests|] == requests;
    }

    /** The vacuums that close an iteration. */
    method CloseScrape()
      requires InStep() && Honest(history) && scrapeCount == CounterAt(After(history).scrape)
      modifies `history, namespaces, interfaces
      ensures Valid() && history == old(history) + [EndScrape]
    {
      AfterSnoc(history, EndScrape);
      HonestMore(history, [EndScrape]);
      ghost var next := After(history + [EndScrape]);
      namespaces.Vacuum();
      if scrapeCount % VACUUM_INTERVAL == 0 {
        interfaces.Vacuum();
      }
      assert interfaces.cache == next.interfaces;
      history := history + [EndScrape];
    }

    /** One iteration: bump the counter, run the scrapers, vacuum. */
    method Scrape(requests: seq<Request>)
      requires Valid()
      modifies this, namespaces, interfaces
      ensures Valid() && history == Extended(old(history), requests) + [EndScrape]
    {
      scrapeCount := if scrapeCount + 1 == TWO_64 then 0 else scrapeCount + 1;
      ServeAll(requests);
      CloseScrape();
    }
  }

  // ---- one verdict per namespace and scrape ------------------------------

  /** Steps i and j belong to the same iteration. */
  ghost predicate SameScrape(steps: seq<Step>, i: int, j: int) {
    0 <= i <= j <= |steps| && forall k :: i <= k < j ==> !steps[k].EndScrape?
  }

  /** Step k is where the underlying filter was asked about the namespace. */
  ghost predicate Consulted(steps: seq<Step>, k: int, ns: string, verdict: bool) {
    0 <= k < |steps| && steps[k] == Asked(ns, verdict, verdict) && ns !in After(steps[..k]).namespaces
  }

  /** Every cached verdict was obtained from the underlying filter in the current scrape. */
  lemma {:induction false} CachedWasConsulted(steps: seq<Step>, n: nat, ns: string)
    requires Honest(steps) && n <= |steps| && ns in After(steps[..n]).namespaces
    ensures exists k :: k < n && Consulted(steps, k, ns, After(steps[..n]).namespaces[ns]) && SameScrape(steps, k, n)
  {
    var front, step := steps[..n - 1], steps[n - 1];
    assert steps[..n] == front + [step];
    AfterSnoc(front, step);
    var verdict := After(steps[..n]).namespaces[ns];
    assert !step.EndScrape?;
    if ns in After(front).namespaces {
      assert After(front).namespaces[ns] == verdict;
      CachedWasConsulted(steps, n - 1, ns);
      var k :| k < n - 1 && Consulted(steps, k, ns, verdict) && SameScrape(steps, k, n - 1);
      assert SameScrape(steps, k, n);
    } else {
      assert step.Asked? && step.namespace == ns && step.underlying == verdict;
      assert step.verdict == AnswerAt(steps, n - 1);
      assert Consulted(steps, n - 1, ns, verdict) && SameScrape(steps, n - 1, n);
    }
  }

  /** A cached verdict survives to the end of the scrape. */
  lemma {:induction false} VerdictStays(steps: seq<Step>, i: nat, j: nat, ns: string)
    requires i <= j && SameScrape(steps, i, j) && ns in After(steps[..i]).namespaces
    ensures ns in After(steps[..j]).namespaces && After(steps[..j]).namespaces[ns] == After(steps[..i]).namespaces[ns]
    decreases j - i
  {
    if i < j {
      assert SameScrape(steps, i, j - 1);
      VerdictStays(steps, i, j - 1, ns);
      assert steps[..j] == steps[..j - 1] + [steps[j - 1]];
      AfterSnoc(steps[..j - 1], steps[j - 1]);
    }
  }

  /** In every run, however the underlying filter changes, all lookups of a namespace in one
      scrape return one verdict, and it was obtained in that scrape. */
  lemma OneVerdictPerScrape(steps: seq<Step>, i: nat, j: nat)
    requires Honest(steps) && i <= j < |steps| && SameScrape(steps, i, j)
    requires steps[i].Asked? && steps[j].Asked? && steps[i].namespace == steps[j].namespace
    ensures steps[i].verdict == steps[j].verdict
    ensures exists k :: k <= i && Consulted(steps, k, steps[i].namespace, steps[i].verdict) && SameScrape(steps, k, i)
  {
    var ns := steps[i].namespace;
    assert steps[..i + 1] == steps[..i] + [steps[i]];
    AfterSnoc(steps[..i], steps[i]);
    if i < j {
      assert SameScrape(steps, i + 1, j);
      VerdictStays(steps, i + 1, j, ns);
    }
    if ns in After(steps[..i]).namespaces {
      CachedWasConsulted(steps, i, ns);
    } else {
      assert Consulted(steps, i, ns, steps[i].verdict) && SameScrape(steps, i, i);
    }
  }

  // ---- the age of cached interfaces --------------------------------------

  /** No interface vacuum happens at the end of scrapes m to n - 1. */
  ghost predicate NoVacuum(m: nat, n: nat) {
    m <= n && forall t :: m <= t < n ==> !VacuumsInterfaces(t)
  }

  /** Step k stored the interface, and nothing vacuumed since. */
  ghost predicate StoredAt(steps: seq<Step>, k: int, n: int, id: string, name: string) {
    && 0 <= k < n <= |steps| && steps[k] == Put(id, name)
    && NoVacuum(After(steps[..k]).scrape, After(steps[..n]).scrape)
  }

  /** A step that leaves an entry in place does not vacuum. */
  lemma StoredPersists(steps: seq<Step>, k: int, n: nat, id: string, name: string)
    requires 0 < n <= |steps| && StoredAt(steps, k, n - 1, id, name)
    requires id in After(steps[..n]).interfaces && !steps[n - 1].Put?
    ensures StoredAt(steps, k, n, id, name)
  {
    assert steps[..n] == steps[..n - 1] + [steps[n - 1]];
    AfterSnoc(steps[..n - 1], steps[n - 1]);
  }

  lemma {:induction false} EntryWasStored(steps: seq<Step>, n: nat, id: string)
    requires n <= |steps| && id in After(steps[..n]).interfaces
    ensures exists k :: StoredAt(steps, k, n, id, After(steps[..n]).interfaces[id])
  {
    var front, step := steps[..n - 1], steps[n - 1];
    assert steps[..n] == front + [step];
    AfterSnoc(front, step);
    if step == Put(id, After(steps[..n]).interfaces[id]) {
      assert StoredAt(steps, n - 1, n, id, step.interfaceName);
    } else {
      EntryWasStored(steps, n - 1, id);
      var k :| StoredAt(steps, k, n - 1, id, After(front).interfaces[id]);
      if step.Put? {
        assert StoredAt(steps, k, n, id, After(front).interfaces[id]);
      } else {
        StoredPersists(steps, k, n, id, After(front).interfaces[id]);
      }
    }
  }

  /** Without a vacuum the counter's last digit just counts up. */
  lemma {:induction false} LastDigitCounts(m: nat, n: nat)
    requires m < n && NoVacuum(m, n)
    ensures CounterAt(n - 1) % 10 == CounterAt(m) % 10 + (n - 1 - m)
  {
    if m < n - 1 {
      LastDigitCounts(m, n - 1);
      assert !VacuumsInterfaces(n - 1) && !VacuumsInterfaces(n - 2);
      assert CounterAt(n - 1) == CounterAt(n - 2) + 1;
    }
  }

  /** Ten scrapes in a row always contain a vacuum, even across counter wrap-around. */
  lemma VacuumWithinTen(m: nat, n: nat)
    requires NoVacuum(m, n)
    ensures n - m < VACUUM_INTERVAL
  {
    if m < n {
      LastDigitCounts(m, n);
      assert !VacuumsInterfaces(m);
    }
  }

  lemma {:induction false} CounterBeforeWrap(n: nat)
    requires n < TWO_64
    ensures CounterAt(n) == n
  {
    if n > 0 {
      CounterBeforeWrap(n - 1);
    }
  }

  /** Before the counter wraps, scrapes without a vacuum between them share a block of ten. */
  lemma SameBlock(m: nat, n: nat)
    requires NoVacuum(m, n) && 1 <= m && n <= TWO_64
    ensures (m - 1) / VACUUM_INTERVAL == (n - 1) / VACUUM_INTERVAL
  {
    if m < n {
      LastDigitCounts(m, n);
      assert !VacuumsInterfaces(m);
      CounterBeforeWrap(m);
      CounterBeforeWrap(n - 1);
    }
  }

  /** In every run, an interface cached in scrape n was put there less than ten scrapes
      earlier, in the same block of ten scrapes. */
  lemma EntriesAreRecent(steps: seq<Step>, id: string)
    requires id in After(steps).interfaces
    ensures exists k :: 0 <= k < |steps| && steps[k] == Put(id, After(steps).interfaces[id]) &&
                        Recent(After(steps[..k]).scrape, After(steps).scrape)
  {
    assert steps[..|steps|] == steps;
    EntryWasStored(steps, |steps|, id);
    var k :| StoredAt(steps, k, |steps|, id, After(steps).interfaces[id]);
    ScrapesFromOne(steps[..k]);
    RecentScrapes(After(steps[..k]).scrape, After(steps).scrape);
  }

  lemma RecentScrapes(m: nat, n: nat)
    requires 1 <= m && NoVacuum(m, n)
    ensures Recent(m, n)
  {
    VacuumWithinTen(m, n);
    if n <= TWO_64 {
      SameBlock(m, n);
    }
  }

  predicate Recent(m: nat, n: nat) {
    && m <= n < m + VACUUM_INTERVAL
    && (n <= TWO_64 ==> (m - 1) / VACUUM_INTERVAL == (n - 1) / VACUUM_INTERVAL)
  }

  lemma {:induction false} ScrapesFromOne(steps: seq<Step>)
    ensures After(steps).scrape >= 1
  {
    if steps != [] {
      ScrapesFromOne(steps[..|steps| - 1]);
    }
  }

  // ---- what every step does ----------------------------------------------

  lemma {:induction false} CounterIs(n: nat)
    ensures CounterAt(n) == n % TWO_64
  {
    if n > 0 {
      CounterIs(n - 1);
      var q, r := (n - 1) / TWO_64, (n - 1) % TWO_64;
      assert n == q * TWO_64 + (r + 1);
      if r + 1 == TWO_64 {
        assert n == (q + 1) * TWO_64;
      }
    }
  }

  /** The end of a scrape forgets all verdicts; it forgets all interfaces exactly if the scrape's
      number, in 64 bits, is a multiple of ten, and keeps them all otherwise. */
  lemma EndOfScrape(steps: seq<Step>)
    ensures var s, e := After(steps), After(steps + [EndScrape]);
            && e.scrape == s.scrape + 1 && e.namespaces == map[]
            && e.interfaces == if s.scrape % TWO_64 % 10 == 0 then map[] else s.interfaces
  {
    AfterSnoc(steps, EndScrape);
    CounterIs(After(steps).scrape);
  }

  function Ends(steps: seq<Step>): nat {
    if steps == [] then 0 else Ends(steps[..|steps| - 1]) + if steps[|steps| - 1].EndScrape? then 1 else 0
  }

  /** Scrapes are numbered by the iterations that have ended. */
  lemma {:induction false} ScrapesAreNumbered(steps: seq<Step>)
    ensures After(steps).scrape == 1 + Ends(steps)
  {
    if steps != [] {
      ScrapesAreNumbered(steps[..|steps| - 1]);
    }
  }

  /** Step j neither replaces the entry nor ends a tenth scrape. */
  ghost predicate Spares(steps: seq<Step>, j: nat, id: string)
    requires j < |steps|
  {
    && (steps[j].Put? ==> steps[j].entity != id)
    && (steps[j].EndScrape? ==> After(steps[..j]).scrape % TWO_64 % 10 != 0)
  }

  /** A cached interface stays until it is replaced or a tenth scrape ends. */
  lemma {:induction false} EntryStays(steps: seq<Step>, k: nat, n: nat, id: string, name: string)
    requires k < n <= |steps| && steps[k] == Put(id, name) && forall j :: k < j < n ==> Spares(steps, j, id)
    ensures id in After(steps[..n]).interfaces && After(steps[..n]).interfaces[id] == name
  {
    var front := steps[..n - 1];
    assert steps[..n] == front + [steps[n - 1]];
    AfterSnoc(front, steps[n - 1]);
    if k < n - 1 {
      EntryStays(steps, k, n - 1, id, name);
      assert Spares(steps, n - 1, id);
      EndOfScrape(front);
    }
  }

  /** A lookup leaves the interfaces as the cached fetch leaves its cache, and a check leaves the
      verdict it returned; neither touches anything else. */
  lemma RequestEffect(steps: seq<Step>, r: Request)
    ensures var s, e := After(steps), After(steps + StepsOf(r, After(steps)));
            && e.scrape == s.scrape
            && e.interfaces == (if r.Find? then CacheAfter(r.lookup, r.groups, s.interfaces) else s.interfaces)
            && e.namespaces ==
               (if r.Check? && r.namespace !in s.namespaces then s.namespaces[r.namespace := r.underlying]
                else s.namespaces)
  {
    var more := StepsOf(r, After(steps));
    if more == [] {
      assert steps + more == steps;
    } else {
      assert more == [more[0]];
      AfterSnoc(steps, more[0]);
    }
  }

  function CheckOf(r: Request): seq<(string, bool)> {
    if r.Check? then [(r.namespace, r.underlying)] else []
  }

  /** The checks among the requests, with what the underlying filter would answer. */
  function Checks(requests: seq<Request>): seq<(string, bool)> {
    if requests == [] then [] else
      Checks(requests[..|requests| - 1]) + CheckOf(requests[|requests| - 1])
  }

  function AskedIn(steps: seq<Step>): seq<(string, bool)> {
    if steps == [] then [] else
      var step := steps[|steps| - 1];
      AskedIn(steps[..|steps| - 1]) + if step.Asked? then [(step.namespace, step.underlying)] else []
  }

  lemma AskedSnoc(steps: seq<Step>, step: Step)
    ensures AskedIn(steps + [step]) ==
            AskedIn(steps) + if step.Asked? then [(step.namespace, step.underlying)] else []
  {
    assert (steps + [step])[..|steps|] == steps;
  }

  lemma RequestAsks(before: seq<Step>, r: Request, s: State)
    ensures AskedIn(before + StepsOf(r, s)) == AskedIn(before) + CheckOf(r)
  {
    var more := StepsOf(r, s);
    if more == [] {
      assert before + more == before;
    } else {
      assert more == [more[0]];
      AskedSnoc(before, more[0]);
    }
  }

  /** Every check of a scrape is answered, in order. */
  lemma {:induction false} EveryCheckIsAsked(history: seq<Step>, requests: seq<Request>)
    ensures AskedIn(Extended(history, requests)) == AskedIn(history) + Checks(requests)
  {
    if requests == [] {
      assert AskedIn(history) + [] == AskedIn(history);
    } else {
      var front, r := requests[..|requests| - 1], requests[|requests| - 1];
      var before := Extended(history, front);
      EveryCheckIsAsked(history, front);
      RequestAsks(before, r, After(before));
    }
  }
}
