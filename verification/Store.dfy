/** The catalogue as the service holds it: tables that each transaction changes in
    place, every operation tied to the rule it applies. */
module CatalogueStore {
  import opened Extremes
  import opened Wrappers
  import opened Catalogue
  import opened Contracts
  import opened Ownership
  import D = Deduplication
  import P = Persistence
  import R = Reconciliation
  import T = Retention
  import E = Effects
  import L = Lifecycle

  /** The age from which an inactive job is swept, the jobs each probe protects from
      deletion, and the largest page. */
  datatype RetentionPolicy = RetentionPolicy(grace: nat, references: seq<set<JobId>>, batchSize: nat)

  datatype RetentionResult = RetentionResult(deleted: nat, anonymised: nat, examined: nat)

  /** Everything some probe points at. */
  function Referenced(references: seq<set<JobId>>): set<JobId> {
    if references == [] then {}
    else Referenced(references[..|references| - 1]) + references[|references| - 1]
  }

  lemma {:induction false} ReferencedIff(references: seq<set<JobId>>, j: JobId)
    ensures j in Referenced(references) <==> E.PointedAt(references, j)
  {
    if references != [] {
      var last := |references| - 1;
      ReferencedIff(references[..last], j);
      assert E.PointedAt(references[..last], j) ==> E.PointedAt(references, j);
      assert E.PointedAt(references, j) ==> j in references[last] || E.PointedAt(references[..last], j) by {
        if i :| 0 <= i < |references| && j in references[i] {
          if i < last { assert references[..last][i] == references[i]; }
        }
      }
    }
  }

  class Store {
    const matching: Matching
    var jobs: map<JobId, Job>
    var rows: map<RowKey, Row>
    var sources: map<SourceKey, int>
    var companies: seq<string>
    var nextJob: JobId

    function View(): State
      reads this
    {
      State(jobs, rows, sources, companies, nextJob)
    }

    constructor (matching: Matching)
      ensures View() == EMPTY && this.matching == matching
    {
      this.matching := matching;
      jobs, rows, sources, companies, nextJob := map[], map[], map[], [], 0;
    }

    // ---------- Writing one record ----------

    method EnsureSource(reg: Registration)
      modifies this`sources
      ensures View() == P.Register(old(View()), reg)
    {
      sources := sources[reg.key := reg.precedence];
    }

    method EnsureCompany(name: string) returns (company: string)
      modifies this`companies
      ensures company == P.CompanyFor(matching, old(companies), name)
      ensures companies == P.WithCompany(old(companies), company)
    {
      var i := 0;
      while i < |companies|
        invariant 0 <= i <= |companies|
        invariant P.CompanyFor(matching, companies[i..], name) == P.CompanyFor(matching, companies, name)
      {
        if matching.normalizeCompany(companies[i]) == matching.normalizeCompany(name) {
          company := companies[i];
          return;
        }
        i := i + 1;
      }
      company := name;
      if name !in companies { companies := companies + [name]; }
    }

    method ObserveJobProvenance(j: JobId, r: Record, seenAt: Instant)
      modifies this`rows
      ensures rows == P.Observe(old(rows), r, j, seenAt)
    {
      var row := Row(j, r.url, seenAt, seenAt, None, StoredPayload(r));
      if r.Key() in rows {
        var held := rows[r.Key()];
        row := held.(
          url := r.url,
          firstSeen := Min(held.firstSeen, seenAt),
          lastSeen := Max(held.lastSeen, seenAt),
          payload := StoredPayload(r),
          retired := None);
      }
      rows := rows[r.Key() := row];
    }

    method Restore(savepoint: State)
      modifies this
      ensures View() == savepoint
    {
      jobs, rows, sources := savepoint.jobs, savepoint.rows, savepoint.sources;
      companies, nextJob := savepoint.companies, savepoint.nextJob;
    }

    /** Fold a record that differs into a known job, and list the job again. */
    method RefreshJob(j: JobId, differs: bool, reg: Registration, r: Record, seenAt: Instant, now: Instant)
      returns (outcome: P.Outcome)
      requires j in jobs
      modifies this`jobs
      ensures var was := old(jobs)[j];
        var outranks := IncomingOutranks(old(View()), j, reg, r, seenAt);
        var fields := if differs then Merge(was.fields, r.fields, outranks) else was.fields;
        var matchKey := if differs then matching.keyOf(was.company, fields.title) else was.matchKey;
        && jobs == old(jobs)[j := P.Revised(was, fields, matchKey, now)] && jobs[j].fields == fields
        && outcome == if (fields, matchKey) != (was.fields, was.matchKey) then P.Updated else P.Skipped
    {
      hide Merge, IncomingOutranks;
      outcome := P.Skipped;
      var job := jobs[j];
      if differs {
        var outranks := IncomingOutranks(View(), j, reg, r, seenAt);
        var fields := Merge(job.fields, r.fields, outranks);
        var matchKey := matching.keyOf(job.company, fields.title);
        if fields != job.fields || matchKey != job.matchKey { outcome := P.Updated; }
        job := job.(fields := fields, matchKey := matchKey);
      }
      if job.status == Removed { job := job.(status := Active); }
      if job != jobs[j] { job := job.(updatedAt := now); }
      jobs := jobs[j := job];
    }

    /** Write one record inside a savepoint, or report that it could not be written. */
    method PersistJob(reg: Registration, r: Record, seenAt: Instant, now: Instant) returns (report: P.Report)
      modifies this
      ensures View() == P.Persist(matching, old(View()), reg, r, seenAt, now).0
      ensures report == P.Persist(matching, old(View()), reg, r, seenAt, now).1
      ensures L.Valid(matching, old(View())) ==>
        E.Sent(matching, old(View()), View(), report, reg, r, seenAt, now)
    {
      hide Merge, IncomingOutranks, D.Candidates, P.CompanyFor, P.WithCompany, P.Observe, P.Revised, L.Valid, E.Sent;
      if L.Valid(matching, View()) { E.SendDoes(matching, View(), reg, r, seenAt, now); }
      if reg.key != r.source { return P.REFUSED; }
      var savepoint := View();
      var decision := D.Decide(matching, savepoint, r);
      if decision.Ambiguous? { return P.REFUSED; }
      EnsureSource(reg);
      var j := nextJob;
      if decision.New? {
        var company := EnsureCompany(r.company);
        jobs := jobs[j := Job(company, matching.keyOf(company, r.fields.title), r.fields, Active, now, None)];
        nextJob := nextJob + 1;
        report := P.Report(P.Created, Some(j), false);
      } else {
        j := decision.job;
        var outcome := RefreshJob(j, decision.Changed?, reg, r, seenAt, now);
        report := P.Report(outcome, Some(j), false);
      }
      ObserveJobProvenance(j, r, seenAt);
      if (decision.New? || decision.Changed?) && !jobs[j].fields.DatesInOrder() {
        Restore(savepoint);
        report := P.REFUSED;
      }
    }

    // ---------- Reconciliation ----------

    /** Mark removed every named job nobody lists, and count those this call changed. */
    method WithdrawJobsNobodyLists(ids: set<JobId>, now: Instant) returns (withdrawn: nat)
      modifies this`jobs
      ensures View() == R.Withdraw(old(View()), ids, now)
      ensures withdrawn == |set j | j in ids && R.Withdrawable(old(View()), j)|
    {
      hide R.Withdraw, Marked, Those;
      withdrawn := 0;
      var waiting := ids;
      ghost var before := View();
      NothingMarked(before, ids, now);
      while waiting != {}
        invariant waiting <= ids && View() == before.(jobs := Marked(before.jobs, Those(before, ids - waiting), now))
        invariant withdrawn == |Those(before, ids - waiting)|
        decreases waiting
      {
        var j :| j in waiting;
        MarkOne(before, ids, waiting, j, now);
        waiting := waiting - {j};
        if !Listed(View(), j) && j in jobs && jobs[j].status != Removed {
          jobs := jobs[j := jobs[j].(status := Removed, updatedAt := now)];
          withdrawn := withdrawn + 1;
        }
      }
      AllMarked(before, ids, now);
    }

    /** Which of them nobody lists. */
    static ghost function Those(s: State, ids: set<JobId>): set<JobId> {
      set j | j in ids && R.Withdrawable(s, j)
    }

    static function Marked(jobs: map<JobId, Job>, ids: set<JobId>, now: Instant): map<JobId, Job> {
      map j | j in jobs :: if j in ids then jobs[j].(status := Removed, updatedAt := now) else jobs[j]
    }

    static lemma NothingMarked(s: State, ids: set<JobId>, now: Instant)
      ensures Those(s, ids - ids) == {} && Marked(s.jobs, {}, now) == s.jobs
    {
    }

    static lemma AllMarked(s: State, ids: set<JobId>, now: Instant)
      ensures R.Withdraw(s, ids, now) == s.(jobs := Marked(s.jobs, Those(s, ids - {}), now))
      ensures Those(s, ids - {}) == set j | j in ids && R.Withdrawable(s, j)
    {
      hide Listed;
    }

    /** Marking changes no listing, so one job more is judged as it was before the call. */
    static lemma MarkOne(s: State, ids: set<JobId>, waiting: set<JobId>, j: JobId, now: Instant)
      requires waiting <= ids && j in waiting
      ensures var sofar, next := Those(s, ids - waiting), Those(s, ids - (waiting - {j}));
        && var t := s.(jobs := Marked(s.jobs, sofar, now));
        && j !in sofar && next == (if R.Withdrawable(t, j) then sofar + {j} else sofar)
        && (R.Withdrawable(t, j) ==>
              Marked(s.jobs, next, now) == t.jobs[j := t.jobs[j].(status := Removed, updatedAt := now)])
    {
      hide Listed;
      SameListing(s, s.(jobs := Marked(s.jobs, Those(s, ids - waiting), now)), j);
    }

    static lemma SameListing(s: State, t: State, j: JobId)
      requires s.rows == t.rows
      ensures Listed(s, j) == Listed(t, j)
    {
    }

    method RetireRows(unseen: set<RowKey>, at: Instant)
      requires unseen <= rows.Keys
      modifies this`rows
      ensures rows == R.Retire(old(rows), unseen, at)
    {
      var waiting := unseen;
      while waiting != {}
        invariant waiting <= unseen <= rows.Keys == old(rows).Keys
        invariant forall k :: k in rows ==>
          rows[k] == if k in unseen - waiting then old(rows)[k].(retired := Some(at)) else old(rows)[k]
        decreases waiting
      {
        var k :| k in waiting;
        rows := rows[k := rows[k].(retired := Some(at))];
        waiting := waiting - {k};
      }
    }

    /** What the run did not see is retired, and jobs left without a live row are withdrawn. */
    method Reconcile(summary: Summary, runStarted: Instant, now: Instant) returns (report: R.Report)
      modifies this
      ensures View() == R.Reconcile(old(View()), summary, runStarted, now).0
      ensures report == R.Reconcile(old(View()), summary, runStarted, now).1
      ensures L.Valid(matching, old(View())) ==> E.Reconciled(old(View()), View(), summary, runStarted, now)
    {
      hide R.Withdraw, Listed, R.WhyNot, R.MayAgeOut, R.Retire, E.Reconciled, L.Valid;
      if L.Valid(matching, View()) { E.ReconcileDoes(matching, View(), summary, runStarted, now); }
      var rule := R.RuleOf(summary);
      if rule == R.Refused { return R.Report(false, R.Refused, 0, 0); }
      if summary.source !in sources { return R.Report(true, rule, 0, 0); }
      var unseen := R.Unseen(rows, summary.source, R.UnseenBefore(summary, runStarted));
      if unseen == {} {
        NothingRetired(View(), runStarted, now);
        return R.Report(true, rule, 0, 0);
      }
      var ids := R.JobsOf(rows, unseen);
      RetireRows(unseen, runStarted);
      var withdrawn := WithdrawJobsNobodyLists(ids, now);
      report := R.Report(true, rule, |unseen|, withdrawn);
    }

    static lemma NothingRetired(s: State, at: Instant, now: Instant)
      ensures R.Retire(s.rows, {}, at) == s.rows
      ensures R.JobsOf(s.rows, {}) == {}
      ensures R.Withdraw(s, {}, now) == s
      ensures (set j | j in R.JobsOf(s.rows, {}) && R.Withdrawable(s, j)) == {}
    {
      assert R.Retire(s.rows, {}, at) == s.rows;
      assert R.Withdraw(s, {}, now).jobs == s.jobs;
    }

    /** Mark expired every job whose own stated date has passed. */
    method ExpireJobsPastTheirStatedDate(now: Instant, stamp: Instant) returns (expired: nat)
      modifies this`jobs
      ensures View() == R.Expire(old(View()), now, stamp).0
      ensures expired == R.Expire(old(View()), now, stamp).1
    {
      var lapsed := set j | j in jobs && R.Lapsed(jobs[j], now);
      ghost var before := jobs;
      var waiting := lapsed;
      while waiting != {}
        invariant waiting <= lapsed <= before.Keys && jobs.Keys == before.Keys
        invariant forall j :: j in before ==>
          jobs[j] == if j in lapsed - waiting then before[j].(status := Expired, updatedAt := stamp) else before[j]
        decreases waiting
      {
        var j :| j in waiting;
        jobs := jobs[j := jobs[j].(status := Expired, updatedAt := stamp)];
        waiting := waiting - {j};
      }
      assert lapsed == set j | j in old(View()).jobs && R.Lapsed(old(View()).jobs[j], now);
      expired := |lapsed|;
    }

    // ---------- Retention ----------

    /** Restates the whole predicate, then strips what still meets it. */
    method Anonymise(ids: set<JobId>, cutoff: Instant, at: Instant, stamp: Instant) returns (count: nat)
      modifies this`jobs, this`rows
      ensures View() == T.Anonymise(old(View()), ids, cutoff, at, stamp)
      ensures count == |ids * T.Candidates(old(View()), cutoff)|
    {
      var confirmed := ids * T.Candidates(View(), cutoff);
      jobs := map j | j in jobs :: if j in confirmed then T.Stripped(jobs[j], at, stamp) else jobs[j];
      rows := map k | k in rows ::
        if rows[k].job in confirmed then rows[k].(payload := Payload.Emptied(at)) else rows[k];
      count := |confirmed|;
    }

    /** Restates the whole predicate, then deletes what still meets it, rows first. */
    method Purge(ids: set<JobId>, cutoff: Instant) returns (count: nat)
      modifies this`jobs, this`rows
      ensures View() == T.Purge(old(View()), ids, cutoff)
      ensures count == |ids * T.Candidates(old(View()), cutoff)|
    {
      var confirmed := ids * T.Candidates(View(), cutoff);
      rows := map k | k in rows && rows[k].job !in confirmed :: rows[k];
      jobs := map j | j in jobs && j !in confirmed :: jobs[j];
      count := |confirmed|;
    }

    method Probe(references: seq<set<JobId>>, page: set<JobId>) returns (referenced: set<JobId>)
      ensures referenced == Referenced(references) * page
    {
      referenced := {};
      for i := 0 to |references|
        invariant referenced == Referenced(references[..i]) * page
      {
        referenced := referenced + references[i] * page;
        assert references[..i + 1][..i] == references[..i];
      }
      assert references[..|references|] == references;
    }

    /** Act on one page of candidates and say how much it did. */
    method SweepPage(page: set<JobId>, cutoff: Instant, now: Instant, stamp: Instant, references: seq<set<JobId>>)
      returns (deleted: nat, anonymised: nat)
      requires page <= T.Candidates(View(), cutoff)
      modifies this
      ensures View() == T.Swept(old(View()), page, Referenced(references), now, stamp)
      ensures deleted == |page - Referenced(references)| && anonymised == |page * Referenced(references)|
    {
      hide T.Swept, T.Page, T.Candidates, T.Anonymise, T.Purge;
      var referenced := Probe(references, page);
      anonymised := Anonymise(referenced, cutoff, now, stamp);
      deleted := Purge(page - referenced, cutoff);
      PageCounts(old(View()), page, Referenced(references), referenced, cutoff, now, stamp);
      T.PageIsASweep(old(View()), page, Referenced(references), cutoff, now, stamp);
    }

    /** One pass with nobody else writing, in pages: exactly the one-shot rule. Every job that
        is due is examined once; those a probe points at are anonymised, the others deleted
        with their rows, and nothing else changes. */
    method ApplyRetention(now: Instant, stamp: Instant, policy: RetentionPolicy) returns (result: RetentionResult)
      requires policy.batchSize >= 1
      modifies this
      ensures var candidates := T.Candidates(old(View()), now - policy.grace);
              var referenced := Referenced(policy.references);
              && View() == T.Swept(old(View()), candidates, referenced, now, stamp)
              && result == RetentionResult(
                   |candidates - referenced|, |candidates * referenced|, |candidates|)
      ensures E.Retained(old(View()), View(), old(jobs).Keys, policy.references, now - policy.grace, now, stamp)
      ensures result.deleted == |set j | j in old(jobs) && j !in jobs|
      ensures result.anonymised == |set j | j in jobs && jobs[j] != old(jobs)[j]|
    {
      hide T.Swept, T.Candidates, Referenced, E.Retained;
      PassDoes(View(), policy.references, now - policy.grace, now, stamp);
      result := SweepPages(now - policy.grace, now, stamp, policy);
    }

    /** Page after page, until none is left. */
    method SweepPages(cutoff: Instant, now: Instant, stamp: Instant, policy: RetentionPolicy)
      returns (result: RetentionResult)
      requires policy.batchSize >= 1
      modifies this
      ensures var candidates, referenced := T.Candidates(old(View()), cutoff), Referenced(policy.references);
              && View() == T.Swept(old(View()), candidates, referenced, now, stamp)
              && result == RetentionResult(|candidates - referenced|, |candidates * referenced|, |candidates|)
    {
      hide T.Swept, T.SelectPage, T.Candidates, TakenUpTo, Referenced;
      result := RetentionResult(0, 0, 0);
      var after: Option<T.PageKey> := None;
      ghost var start := View();
      ghost var candidates := T.Candidates(start, cutoff);
      ghost var referenced := Referenced(policy.references);
      ghost var done: set<JobId> := {};
      NothingSwept(start, referenced, now, stamp);
      NobodyPast(start, candidates);
      while true
        invariant done <= candidates && TakenUpTo(start, candidates, done, after)
        invariant View() == T.Swept(start, done, referenced, now, stamp)
        invariant result == RetentionResult(|done - referenced|, |done * referenced|, |done|)
        decreases candidates - done
      {
        var keys := T.SelectPage(View(), cutoff, policy.batchSize, after);
        if keys == [] {
          EndOfPass(start, done, referenced, cutoff, now, stamp, policy.batchSize, after);
          return;
        }
        var page := set k | k in keys :: k.id;
        NextPage(start, done, referenced, cutoff, now, stamp, policy.batchSize, after);
        PageExtends(start, done, page, referenced, cutoff, now, stamp);
        after := Some(keys[|keys| - 1]);
        var deleted, anonymised := SweepPage(page, cutoff, now, stamp, policy.references);
        done := done + page;
        result := RetentionResult(
          result.deleted + deleted, result.anonymised + anonymised, result.examined + |page|);
      }
    }

    static lemma PassDoes(s: State, references: seq<set<JobId>>, cutoff: Instant, now: Instant, stamp: Instant)
      ensures var candidates, referenced := T.Candidates(s, cutoff), Referenced(references);
        var t := T.Swept(s, candidates, referenced, now, stamp);
        && E.Retained(s, t, s.jobs.Keys, references, cutoff, now, stamp)
        && |candidates - referenced| == |set j | j in s.jobs && j !in t.jobs|
        && |candidates * referenced| == |set j | j in t.jobs && t.jobs[j] != s.jobs[j]|
    {
      hide E.PointedAt, Referenced, E.Retained, T.Eligible;
      forall j { ReferencedIff(references, j); }
      E.SweepDoes(s, Referenced(references), references, cutoff, now, stamp);
      SweepCounts(s, T.Candidates(s, cutoff), Referenced(references), cutoff, now, stamp);
    }

    static lemma SweepCounts(
      s: State, candidates: set<JobId>, referenced: set<JobId>, cutoff: Instant, now: Instant, stamp: Instant)
      requires candidates == T.Candidates(s, cutoff)
      ensures var t := T.Swept(s, candidates, referenced, now, stamp);
        && candidates - referenced == (set j | j in s.jobs && j !in t.jobs)
        && candidates * referenced == (set j | j in t.jobs && t.jobs[j] != s.jobs[j])
    {
      hide Listed;
      forall j | j in candidates ensures s.jobs[j].anonymisedAt.None? {
      }
    }

    static lemma EndOfPass(
      start: State, done: set<JobId>, referenced: set<JobId>, cutoff: Instant, now: Instant, stamp: Instant,
      size: nat, after: Option<T.PageKey>)
      requires size >= 1 && done <= T.Candidates(start, cutoff)
      requires TakenUpTo(start, T.Candidates(start, cutoff), done, after)
      requires T.SelectPage(T.Swept(start, done, referenced, now, stamp), cutoff, size, after) == []
      ensures done == T.Candidates(start, cutoff)
    {
      hide T.Swept, T.SelectPage, T.Candidates, TakenUpTo;
      T.CandidatesLeft(start, done, referenced, cutoff, now, stamp);
      NothingAhead(start, T.Swept(start, done, referenced, now, stamp), cutoff, size, after, done);
    }

    static lemma NextPage(
      start: State, done: set<JobId>, referenced: set<JobId>, cutoff: Instant, now: Instant, stamp: Instant,
      size: nat, after: Option<T.PageKey>)
      requires size >= 1 && done <= T.Candidates(start, cutoff)
      requires TakenUpTo(start, T.Candidates(start, cutoff), done, after)
      requires T.SelectPage(T.Swept(start, done, referenced, now, stamp), cutoff, size, after) != []
      ensures var t := T.Swept(start, done, referenced, now, stamp);
              var keys := T.SelectPage(t, cutoff, size, after);
              var page := set k | k in keys :: k.id;
              && page <= T.Candidates(t, cutoff) && page <= T.Candidates(start, cutoff) - done && page != {}
              && TakenUpTo(start, T.Candidates(start, cutoff), done + page, Some(keys[|keys| - 1]))
    {
      hide T.Swept, T.SelectPage, T.Candidates, TakenUpTo;
      T.CandidatesLeft(start, done, referenced, cutoff, now, stamp);
      PageAdvances(start, T.Swept(start, done, referenced, now, stamp), cutoff, size, after, done);
    }

    /** Taking a further page of candidates extends the sweep, its counts, and what is done. */
    static lemma PageExtends(
      start: State, done: set<JobId>, page: set<JobId>, referenced: set<JobId>,
      cutoff: Instant, now: Instant, stamp: Instant)
      requires done <= T.Candidates(start, cutoff) && page != {}
      requires page <= T.Candidates(start, cutoff) - done
      ensures T.Swept(T.Swept(start, done, referenced, now, stamp), page, referenced, now, stamp)
           == T.Swept(start, done + page, referenced, now, stamp)
      ensures |(done + page) - referenced| == |done - referenced| + |page - referenced|
      ensures |(done + page) * referenced| == |done * referenced| + |page * referenced|
      ensures |done + page| == |done| + |page|
      ensures done + page <= T.Candidates(start, cutoff)
      ensures T.Candidates(start, cutoff) - (done + page) < T.Candidates(start, cutoff) - done
    {
      hide T.Swept, T.Candidates;
      T.SweepsCompose(start, done, page, referenced, now, stamp);
      CountsAdd(done, page, referenced);
      var one :| one in page;
      assert one in T.Candidates(start, cutoff) - done;
    }

    /** The candidates taken so far are exactly those up to where the last page ended. */
    static predicate TakenUpTo(start: State, candidates: set<JobId>, done: set<JobId>, after: Option<T.PageKey>)
      requires candidates <= start.jobs.Keys
    {
      forall j :: j in candidates ==> (j in done <==> !T.Past(after, T.KeyOf(start, j)))
    }

    static lemma NobodyPast(start: State, candidates: set<JobId>)
      requires candidates <= start.jobs.Keys
      ensures TakenUpTo(start, candidates, {}, None)
    {
    }

    static lemma NothingSwept(s: State, referenced: set<JobId>, at: Instant, stamp: Instant)
      ensures T.Swept(s, {}, referenced, at, stamp) == s
    {
      assert T.Swept(s, {}, referenced, at, stamp).jobs == s.jobs;
      assert T.Swept(s, {}, referenced, at, stamp).rows == s.rows;
    }

    /** An empty page means every candidate has been taken. */
    static lemma NothingAhead(
      start: State, t: State, cutoff: Instant, size: nat, after: Option<T.PageKey>, done: set<JobId>)
      requires size >= 1 && T.SelectPage(t, cutoff, size, after) == []
      requires T.Candidates(t, cutoff) == T.Candidates(start, cutoff) - done && done <= T.Candidates(start, cutoff)
      requires forall j :: j in T.Candidates(t, cutoff) ==> T.KeyOf(t, j) == T.KeyOf(start, j)
      requires TakenUpTo(start, T.Candidates(start, cutoff), done, after)
      ensures done == T.Candidates(start, cutoff)
    {
      hide T.SelectPage, T.Candidates;
      forall j | j in T.Candidates(start, cutoff) ensures j in done {
        if j in T.Candidates(t, cutoff) {
          T.PageIsTheNextOnes(t, cutoff, size, after, T.KeyOf(t, j));
          AheadIs(t, cutoff, after, T.KeyOf(t, j));
        }
      }
    }

    /** A page takes candidates not yet taken, and moves the line exactly past them. */
    static lemma PageAdvances(
      start: State, t: State, cutoff: Instant, size: nat, after: Option<T.PageKey>, done: set<JobId>)
      requires size >= 1 && T.SelectPage(t, cutoff, size, after) != []
      requires T.Candidates(t, cutoff) == T.Candidates(start, cutoff) - done && done <= T.Candidates(start, cutoff)
      requires forall j :: j in T.Candidates(t, cutoff) ==> T.KeyOf(t, j) == T.KeyOf(start, j)
      requires TakenUpTo(start, T.Candidates(start, cutoff), done, after)
      ensures var keys := T.SelectPage(t, cutoff, size, after);
              var page := set k | k in keys :: k.id;
              && page <= T.Candidates(t, cutoff) && page != {}
              && TakenUpTo(start, T.Candidates(start, cutoff), done + page, Some(keys[|keys| - 1]))
    {
      hide T.SelectPage, T.Candidates, T.Ahead;
      var keys := T.SelectPage(t, cutoff, size, after);
      var page := set k | k in keys :: k.id;
      var last := keys[|keys| - 1];
      forall k | k in keys ensures k.id in T.Candidates(t, cutoff) && k == T.KeyOf(t, k.id) && T.Past(after, k)
      {
        T.PageIsTheNextOnes(t, cutoff, size, after, k);
        AheadIs(t, cutoff, after, k);
      }
      assert last in keys && last.id in page;
      forall j | j in T.Candidates(start, cutoff)
        ensures j in done + page <==> !T.Past(Some(last), T.KeyOf(start, j))
      {
        var k := T.KeyOf(start, j);
        T.PageIsTheNextOnes(t, cutoff, size, after, k);
        if j !in done {
          AheadIs(t, cutoff, after, k);
          if k in keys {
            var i :| 0 <= i < |keys| && keys[i] == k;
            assert j in page;
          }
        }
      }
    }

    static lemma AheadIs(t: State, cutoff: Instant, after: Option<T.PageKey>, k: T.PageKey)
      ensures k in T.Ahead(t, cutoff, after)
         <==> k.id in T.Candidates(t, cutoff) && k == T.KeyOf(t, k.id) && T.Past(after, k)
    {
      hide T.Candidates, T.Past;
    }

    static lemma PageCounts(
      t: State, page: set<JobId>, referencedAll: set<JobId>, referenced: set<JobId>,
      cutoff: Instant, at: Instant, stamp: Instant)
      requires page <= T.Candidates(t, cutoff) && referenced == referencedAll * page
      ensures T.Purge(T.Anonymise(t, referenced, cutoff, at, stamp), page - referenced, cutoff)
           == T.Page(t, page, referencedAll, cutoff, at, stamp)
      ensures referenced * T.Candidates(t, cutoff) == page * referencedAll
      ensures (page - referenced) * T.Candidates(T.Anonymise(t, referenced, cutoff, at, stamp), cutoff)
           == page - referencedAll
    {
      assert referenced == page * referencedAll;
      assert page - referenced == page - referencedAll;
      T.AnonymisedSweep(t, page, referencedAll, cutoff, at, stamp);
      T.CandidatesLeft(t, referenced, referencedAll, cutoff, at, stamp);
    }

    static lemma CountsAdd(done: set<JobId>, page: set<JobId>, referenced: set<JobId>)
      requires done !! page
      ensures |(done + page) - referenced| == |done - referenced| + |page - referenced|
      ensures |(done + page) * referenced| == |done * referenced| + |page * referenced|
      ensures |done + page| == |done| + |page|
    {
      assert (done + page) - referenced == (done - referenced) + (page - referenced);
      assert (done + page) * referenced == done * referenced + page * referenced;
    }
  }
}
