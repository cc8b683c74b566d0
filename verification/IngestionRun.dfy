/** One run of one source: fetch within a budget, strip, store, summarize, reconcile. */
module IngestionRun {
  import opened Wrappers
  import opened Catalogue
  import opened Contracts
  import opened CatalogueStore
  import B = Boilerplate
  import P = Persistence
  import R = Reconciliation

  /** What validating and normalizing made of one raw record. */
  datatype Prepared = Normalized(record: Record) | Unusable(stage: Stage)

  /** How the client's walk ended, when the run let it. */
  datatype Ending = Finished | QuotaExceeded | Unreachable

  datatype Feed = Feed(pages: seq<seq<Prepared>>, ending: Ending, reachedTheEnd: bool)

  datatype Plan = Plan(
    reg: Registration,
    maxRecords: nat,
    retireUnseenAfter: Option<nat>,
    lexicon: B.Lexicon,
    policy: B.Policy)

  /** The clock readings a record is stored under: the run's and the database's. */
  datatype Tick = Tick(seenAt: Instant, now: Instant)

  function Flatten(pages: seq<seq<Prepared>>): seq<Prepared> {
    if pages == [] then [] else Flatten(pages[..|pages| - 1]) + pages[|pages| - 1]
  }

  /** The pages one after the other. */
  lemma {:induction false} PagesInOrder(pages: seq<seq<Prepared>>, more: seq<seq<Prepared>>)
    ensures Flatten([]) == []
    ensures forall page: seq<Prepared> :: Flatten([page]) == page
    ensures Flatten(pages + more) == Flatten(pages) + Flatten(more)
  {
    assert forall page: seq<Prepared> :: [page][..0] == [];
    if more == [] {
      assert pages + more == pages;
    } else {
      var last := |more| - 1;
      PagesInOrder(pages, more[..last]);
      assert (pages + more)[..|pages + more| - 1] == pages + more[..last];
    }
  }

  function RecordsOf(items: seq<Prepared>): seq<Record> {
    if items == [] then []
    else
      var last := items[|items| - 1];
      RecordsOf(items[..|items| - 1]) + if last.Normalized? then [last.record] else []
  }

  function RejectionsOf(items: seq<Prepared>): seq<Stage> {
    if items == [] then []
    else
      var last := items[|items| - 1];
      RejectionsOf(items[..|items| - 1]) + if last.Unusable? then [last.stage] else []
  }

  /** What the budget let the run take. */
  function Taken(feed: Feed, max: nat): seq<Prepared> {
    var all := Flatten(feed.pages);
    if |all| <= max then all else all[..max]
  }

  predicate OverBudget(feed: Feed, max: nat) {
    |Flatten(feed.pages)| > max
  }

  predicate StoppedAtBudget(feed: Feed, max: nat) {
    OverBudget(feed, max) || feed.ending == QuotaExceeded
  }

  /** A run takes what was fetched from the start, all of it or as much as the budget allows,
      and knows whether it was all. */
  lemma TakesUpToTheBudget(feed: Feed, max: nat)
    ensures Taken(feed, max) <= Flatten(feed.pages)
    ensures |Taken(feed, max)| == max || |Taken(feed, max)| == |Flatten(feed.pages)| < max
    ensures OverBudget(feed, max) <==> |Taken(feed, max)| < |Flatten(feed.pages)|
  {
  }

  function FetchFailures(feed: Feed, max: nat): seq<Stage> {
    RejectionsOf(Taken(feed, max))
    + if !OverBudget(feed, max) && feed.ending == Unreachable then [Fetch] else []
  }

  // ---------- Counting ----------

  function CountOf(reports: seq<P.Report>, outcome: P.Outcome): (n: nat)
    ensures n <= |reports|
  {
    if reports == [] then 0
    else CountOf(reports[..|reports| - 1], outcome) + if reports[|reports| - 1].outcome == outcome then 1 else 0
  }

  function StoreFailures(reports: seq<P.Report>): (failures: seq<Stage>)
    ensures |failures| <= |reports|
  {
    if reports == [] then []
    else StoreFailures(reports[..|reports| - 1]) + if reports[|reports| - 1].failed then [Stage.Store] else []
  }

  class RunTally {
    var fetched: nat
    var created: nat
    var updated: nat
    var skipped: nat

    constructor ()
      ensures fetched == created == updated == skipped == 0
    {
      fetched, created, updated, skipped := 0, 0, 0, 0;
    }

    method Count(outcome: P.Outcome)
      modifies this`created, this`updated, this`skipped
      ensures created == old(created) + if outcome == P.Created then 1 else 0
      ensures updated == old(updated) + if outcome == P.Updated then 1 else 0
      ensures skipped == old(skipped) + if outcome == P.Skipped then 1 else 0
    {
      match outcome
      case Created => created := created + 1;
      case Updated => updated := updated + 1;
      case Skipped => skipped := skipped + 1;
    }
  }

  function Summarize(plan: Plan, feed: Feed, reports: seq<P.Report>): Summary {
    Summary(
      plan.reg.key,
      |Taken(feed, plan.maxRecords)|,
      CountOf(reports, P.Created),
      CountOf(reports, P.Updated),
      CountOf(reports, P.Skipped),
      FetchFailures(feed, plan.maxRecords) + StoreFailures(reports),
      feed.reachedTheEnd,
      StoppedAtBudget(feed, plan.maxRecords),
      plan.retireUnseenAfter)
  }

  // ---------- The run as one function of the catalogue ----------

  function Employers(m: Matching, s: State): set<string> {
    set j | j in s.jobs :: m.normalizeCompany(s.jobs[j].company)
  }

  /** How many postings the catalogue holds for each employer. */
  function StoredPostings(m: Matching, s: State): map<string, nat> {
    map name | name in Employers(m, s) ::
      |set j | j in s.jobs && m.normalizeCompany(s.jobs[j].company) == name|
  }

  function PostingsOf(m: Matching, s: State, name: string): nat {
    if name in StoredPostings(m, s) then StoredPostings(m, s)[name] else 0
  }

  /** An empty catalogue holds none of anybody's, and each job counts once, for its employer. */
  lemma EachJobCountsOnce(m: Matching, s: State, j: JobId, job: Job, name: string)
    requires j !in s.jobs
    ensures PostingsOf(m, EMPTY, name) == 0
    ensures PostingsOf(m, s.(jobs := s.jobs[j := job]), name)
         == PostingsOf(m, s, name) + if m.normalizeCompany(job.company) == name then 1 else 0
  {
    var t := s.(jobs := s.jobs[j := job]);
    assert t.jobs[j] == job && forall i :: i in s.jobs ==> t.jobs[i] == s.jobs[i];
    if m.normalizeCompany(job.company) == name { assert PostingsHeld(m, t, name) == PostingsHeld(m, s, name) + {j}; }
    else { assert PostingsHeld(m, t, name) == PostingsHeld(m, s, name); }
    hide PostingsOf;
    HeldIs(m, EMPTY, name);
    HeldIs(m, s, name);
    HeldIs(m, t, name);
  }

  function PostingsHeld(m: Matching, s: State, name: string): set<JobId> {
    set j | j in s.jobs && m.normalizeCompany(s.jobs[j].company) == name
  }

  lemma HeldIs(m: Matching, s: State, name: string)
    ensures PostingsOf(m, s, name) == |PostingsHeld(m, s, name)|
  {
    assert PostingsHeld(m, s, name) == set j | j in s.jobs && m.normalizeCompany(s.jobs[j].company) == name;
    if name !in StoredPostings(m, s) { assert forall j :: j !in PostingsHeld(m, s, name); }
  }

  function StrippedRecords(plan: Plan, s: State, feed: Feed): (records: seq<Record>)
    ensures |records| == |RecordsOf(Taken(feed, plan.maxRecords))|
  {
    B.Strip(plan.lexicon, RecordsOf(Taken(feed, plan.maxRecords)), plan.policy,
            StoredPostings(plan.lexicon.matching, s))
  }

  /** Storing records one after the other: the final state and every report. */
  function StoreAll(
    m: Matching, s: State, reg: Registration, records: seq<Record>, clock: nat -> Tick): (State, seq<P.Report>)
    decreases |records|
  {
    if records == [] then (s, [])
    else
      var last := |records| - 1;
      var (t, reports) := StoreAll(m, s, reg, records[..last], clock);
      var (u, report) := P.Persist(m, t, reg, records[last], clock(last).seenAt, clock(last).now);
      (u, reports + [report])
  }

  // ---------- The loops ----------

  /** Take one page, until it ends or the budget is met with a record still to come. */
  method TakePage(
    page: seq<Prepared>, max: nat, fetched: nat, prepared: seq<Record>, failures: seq<Stage>,
    ghost before: seq<Prepared>)
    returns (fetched': nat, prepared': seq<Record>, failures': seq<Stage>, stopped: bool)
    requires fetched == |before| <= max
    requires prepared == RecordsOf(before) && failures == RejectionsOf(before)
    ensures stopped <==> |before + page| > max
    ensures fetched' == if stopped then max else |before + page|
    ensures prepared' == RecordsOf((before + page)[..fetched'])
    ensures failures' == RejectionsOf((before + page)[..fetched'])
  {
    fetched', prepared', failures', stopped := fetched, prepared, failures, false;
    ghost var all := before + page;
    assert all[..fetched'] == before;
    for i := 0 to |page|
      invariant !stopped && fetched' == fetched + i <= max
      invariant prepared' == RecordsOf(all[..fetched'])
      invariant failures' == RejectionsOf(all[..fetched'])
    {
      if fetched' >= max {
        stopped := true;
        return;
      }
      assert all[fetched'] == page[i];
      assert all[..fetched' + 1][..fetched'] == all[..fetched'];
      fetched' := fetched' + 1;
      match page[i] {
        case Normalized(record) => prepared' := prepared' + [record];
        case Unusable(stage) => failures' := failures' + [stage];
      }
    }
  }

  method Gather(feed: Feed, max: nat)
    returns (fetched: nat, prepared: seq<Record>, failures: seq<Stage>, stopped: bool)
    ensures fetched == |Taken(feed, max)|
    ensures prepared == RecordsOf(Taken(feed, max))
    ensures failures == FetchFailures(feed, max)
    ensures stopped == StoppedAtBudget(feed, max)
  {
    hide RecordsOf, RejectionsOf;
    fetched, prepared, failures, stopped := 0, [], [], false;
    NothingTaken();
    for p := 0 to |feed.pages|
      invariant !stopped && fetched == |Flatten(feed.pages[..p])| <= max
      invariant prepared == RecordsOf(Flatten(feed.pages[..p]))
      invariant failures == RejectionsOf(Flatten(feed.pages[..p]))
    {
      ghost var before := Flatten(feed.pages[..p]);
      fetched, prepared, failures, stopped := TakePage(feed.pages[p], max, fetched, prepared, failures, before);
      assert feed.pages[..p + 1][..p] == feed.pages[..p];
      assert Flatten(feed.pages[..p + 1]) == before + feed.pages[p];
      if stopped {
        FlattenExtends(feed.pages, p + 1);
        assert (before + feed.pages[p])[..max] == Flatten(feed.pages)[..max];
        return;
      }
      assert (before + feed.pages[p])[..fetched] == before + feed.pages[p];
    }
    assert feed.pages[..|feed.pages|] == feed.pages;
    if feed.ending == QuotaExceeded { stopped := true; }
    if feed.ending == Unreachable { failures := failures + [Fetch]; }
  }

  lemma NothingTaken()
    ensures Flatten([]) == [] && RecordsOf([]) == [] && RejectionsOf([]) == []
  {
  }

  /** What comes before a page is a prefix of the whole feed. */
  lemma {:induction false} FlattenExtends(pages: seq<seq<Prepared>>, p: nat)
    requires p <= |pages|
    ensures Flatten(pages[..p]) <= Flatten(pages)
  {
    if p == |pages| {
      assert pages[..p] == pages;
    } else {
      var last := |pages| - 1;
      FlattenExtends(pages[..last], p);
      assert pages[..last][..p] == pages[..p];
    }
  }

  predicate Tallied(created: nat, updated: nat, skipped: nat, reports: seq<P.Report>) {
    && created == CountOf(reports, P.Created)
    && updated == CountOf(reports, P.Updated)
    && skipped == CountOf(reports, P.Skipped)
  }

  lemma OneMoreReport(reports: seq<P.Report>, report: P.Report)
    ensures forall o :: CountOf(reports + [report], o) == CountOf(reports, o) + if report.outcome == o then 1 else 0
    ensures StoreFailures(reports + [report]) == StoreFailures(reports) + if report.failed then [Stage.Store] else []
  {
    assert (reports + [report])[..|reports|] == reports;
  }

  lemma OneMoreStored(
    m: Matching, s: State, reg: Registration, records: seq<Record>, clock: nat -> Tick, n: nat)
    requires n < |records|
    ensures var (t, reports) := StoreAll(m, s, reg, records[..n], clock);
            var (u, report) := P.Persist(m, t, reg, records[n], clock(n).seenAt, clock(n).now);
            StoreAll(m, s, reg, records[..n + 1], clock) == (u, reports + [report])
  {
    assert records[..n + 1][..n] == records[..n];
  }

  /** Store every record in order, counting outcomes and collecting failures. */
  method StoreRecords(store: Store, reg: Registration, records: seq<Record>, clock: nat -> Tick, tally: RunTally)
    returns (failures: seq<Stage>, ghost reports: seq<P.Report>)
    requires tally.created == tally.updated == tally.skipped == 0
    modifies store, tally
    ensures (store.View(), reports) == StoreAll(store.matching, old(store.View()), reg, records, clock)
    ensures Tallied(tally.created, tally.updated, tally.skipped, reports)
    ensures failures == StoreFailures(reports)
    ensures tally.fetched == old(tally.fetched)
  {
    hide P.Persist, StoreAll, CountOf, StoreFailures;
    ghost var start := store.View();
    failures, reports := [], [];
    NothingStored(store.matching, start, reg, records, clock);
    for n := 0 to |records|
      invariant tally.fetched == old(tally.fetched)
      invariant (store.View(), reports) == StoreAll(store.matching, start, reg, records[..n], clock)
      invariant Tallied(tally.created, tally.updated, tally.skipped, reports)
      invariant failures == StoreFailures(reports)
    {
      OneMoreStored(store.matching, start, reg, records, clock, n);
      var tick := clock(n);
      var report := store.PersistJob(reg, records[n], tick.seenAt, tick.now);
      tally.Count(report.outcome);
      OneMoreReport(reports, report);
      if report.failed { failures := failures + [Stage.Store]; }
      reports := reports + [report];
    }
    assert records[..|records|] == records;
  }

  lemma NothingStored(m: Matching, s: State, reg: Registration, records: seq<Record>, clock: nat -> Tick)
    ensures StoreAll(m, s, reg, records[..0], clock) == (s, [])
    ensures Tallied(0, 0, 0, []) && StoreFailures([]) == []
  {
  }

  /** The whole run against the catalogue: what it stored and what it says of itself. */
  method Execute(store: Store, plan: Plan, feed: Feed, clock: nat -> Tick) returns (summary: Summary)
    requires store.matching == plan.lexicon.matching
    modifies store
    ensures var records := StrippedRecords(plan, old(store.View()), feed);
            var (t, reports) := StoreAll(store.matching, old(store.View()), plan.reg, records, clock);
            && store.View() == t
            && summary == Summarize(plan, feed, reports)
  {
    hide B.Strip, StoreAll, Taken, StoppedAtBudget, StoredPostings, FetchFailures;
    var tally := new RunTally();
    var fetched, prepared, failures, stopped := Gather(feed, plan.maxRecords);
    tally.fetched := fetched;
    var known := StoredPostings(store.matching, store.View());
    var records, removal := B.StripEmployerBoilerplate(plan.lexicon, prepared, plan.policy, known);
    assert records == StrippedRecords(plan, old(store.View()), feed);
    var unwritten, reports := StoreRecords(store, plan.reg, records, clock, tally);
    summary := Summary(
      plan.reg.key, tally.fetched, tally.created, tally.updated, tally.skipped, failures + unwritten,
      feed.reachedTheEnd, stopped, plan.retireUnseenAfter);
  }
}
