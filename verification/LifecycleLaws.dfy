/** What one transaction may and may not do, and what holds over whole runs of them. */
module LifecycleLaws {
  import opened Extremes
  import opened Wrappers
  import opened Catalogue
  import opened Contracts
  import opened Ownership
  import opened Lifecycle
  import D = Deduplication
  import P = Persistence
  import R = Reconciliation
  import T = Retention

  /** A source's absence retires only its own rows, and only those it had not shown
      since the line the rule draws; nothing else about any row changes. */
  lemma AbsenceIsPerSource(s: State, summary: Summary, started: Instant, now: Instant, k: RowKey)
    requires k in s.rows
    ensures var t := R.Reconcile(s, summary, started, now).0;
            && k in t.rows
            && (t.rows[k] != s.rows[k] ==>
                  && k.source == summary.source
                  && R.RuleOf(summary) != R.Refused
                  && s.rows[k].lastSeen < R.UnseenBefore(summary, started)
                  && s.rows[k].retired.None?
                  && t.rows[k] == s.rows[k].(retired := Some(started)))
  {
  }

  lemma ReconcileLeavesContents(s: State, summary: Summary, started: Instant, now: Instant, j: JobId)
    requires j in s.jobs
    ensures var t := R.Reconcile(s, summary, started, now).0;
            && j in t.jobs
            && (t.jobs[j] == s.jobs[j] || t.jobs[j] == s.jobs[j].(status := Removed, updatedAt := now))
  {
  }

  lemma NoRelisting(s: State, summary: Summary, started: Instant, now: Instant, j: JobId)
    requires Listed(R.Reconcile(s, summary, started, now).0, j)
    ensures Listed(s, j)
  {
    var t := R.Reconcile(s, summary, started, now).0;
    var k :| k in t.rows && t.rows[k].job == j && t.rows[k].retired.None?;
    assert k in s.rows;
  }

  /** A job is withdrawn by a reconciliation exactly when it lost its last live row,
      and no other job changes at all. */
  lemma WithdrawnIffLastListingLost(
    m: Matching, s: State, summary: Summary, started: Instant, now: Instant, j: JobId)
    requires Valid(m, s) && j in s.jobs
    ensures var t := R.Reconcile(s, summary, started, now).0;
            && j in t.jobs
            && (Listed(s, j) && !Listed(t, j) ==> t.jobs[j] == s.jobs[j].(status := Removed, updatedAt := now))
            && (!(Listed(s, j) && !Listed(t, j)) ==> t.jobs[j] == s.jobs[j])
  {
    hide Listed, R.Reconcile;
    ReconcileKeepsValid(m, s, summary, started, now);
    ReconcileLeavesContents(s, summary, started, now, j);
    if Listed(R.Reconcile(s, summary, started, now).0, j) { NoRelisting(s, summary, started, now, j); }
    if s.jobs[j].status == Removed { OnlyWithdrawableChange(s, summary, started, now, j); }
  }

  lemma OnlyWithdrawableChange(s: State, summary: Summary, started: Instant, now: Instant, j: JobId)
    requires j in s.jobs && s.jobs[j].status == Removed
    ensures R.Reconcile(s, summary, started, now).0.jobs[j] == s.jobs[j]
  {
  }

  /** The report counts exactly the rows retired and the jobs withdrawn. */
  lemma ReconcileCounts(m: Matching, s: State, summary: Summary, started: Instant, now: Instant)
    requires Valid(m, s)
    ensures var (t, report) := R.Reconcile(s, summary, started, now);
            && report.retired == |set k | k in s.rows && k in t.rows && s.rows[k] != t.rows[k]|
            && report.withdrawn == |set j | j in s.jobs && Listed(s, j) && !Listed(t, j)|
  {
    hide Listed, Valid, R.RuleOf, R.UnseenBefore, R.Retire, R.Unseen, R.JobsOf, R.Withdrawable, R.Withdraw;
    var t := R.Reconcile(s, summary, started, now).0;
    TablesAgree(m, s);
    if R.RuleOf(summary) == R.Refused || summary.source !in s.sources {
      NothingCounts(s);
    } else {
      var gone := R.Unseen(s.rows, summary.source, R.UnseenBefore(summary, started));
      UnseenAreLive(s.rows, summary.source, R.UnseenBefore(summary, started));
      RowsOfWithdraw(s.(rows := R.Retire(s.rows, gone, started)), R.JobsOf(s.rows, gone), now);
      RetiredAreTheChanged(s.rows, gone, started);
      WithdrawableAreTheLost(s, t, gone, started);
    }
  }

  lemma TablesAgree(m: Matching, s: State)
    requires Valid(m, s)
    ensures WithdrawnIffUnlisted(s) && RowsAndJobsAgree(s)
  {
  }

  lemma NothingCounts(s: State)
    ensures |set k | k in s.rows && k in s.rows && s.rows[k] != s.rows[k]| == 0
    ensures |set j | j in s.jobs && Listed(s, j) && !Listed(s, j)| == 0
  {
  }

  lemma UnseenAreLive(rows: map<RowKey, Row>, source: SourceKey, before: Instant)
    ensures var gone := R.Unseen(rows, source, before);
            gone <= rows.Keys && forall k :: k in gone ==> rows[k].retired.None?
  {
  }

  lemma RowsOfWithdraw(s: State, ids: set<JobId>, now: Instant)
    ensures R.Withdraw(s, ids, now).rows == s.rows
  {
  }

  lemma RetiredAreTheChanged(rows: map<RowKey, Row>, gone: set<RowKey>, at: Instant)
    requires gone <= rows.Keys && forall k :: k in gone ==> rows[k].retired.None?
    ensures var after := R.Retire(rows, gone, at);
            (set k | k in rows && k in after && rows[k] != after[k]) == gone
  {
  }

  lemma WithdrawableAreTheLost(s: State, t: State, gone: set<RowKey>, started: Instant)
    requires WithdrawnIffUnlisted(s) && RowsAndJobsAgree(s)
    requires t.rows == R.Retire(s.rows, gone, started) && gone <= s.rows.Keys
    requires forall k :: k in gone ==> s.rows[k].retired.None?
    ensures var retired := s.(rows := R.Retire(s.rows, gone, started));
            (set j | j in R.JobsOf(s.rows, gone) && R.Withdrawable(retired, j))
            == (set j | j in s.jobs && Listed(s, j) && !Listed(t, j))
  {
    var retired := s.(rows := R.Retire(s.rows, gone, started));
    forall j | j in s.jobs
      ensures j in R.JobsOf(s.rows, gone) && R.Withdrawable(retired, j) <==> Listed(s, j) && !Listed(t, j)
    {
      SameRowsSameListing(retired, t, j);
      RetireUnlists(s, gone, started, j);
      if Listed(s, j) && !Listed(t, j) {
        var k :| k in s.rows && s.rows[k].job == j && s.rows[k].retired.None?;
        assert k in gone;
      }
    }
  }

  /** Retention takes no job that anything lists, nor any of its rows. */
  lemma RetentionSparesTheListed(
    s: State, page: set<JobId>, referenced: set<JobId>, cutoff: Instant, at: Instant, now: Instant, j: JobId)
    requires j in s.jobs
    ensures var t := T.Page(s, page, referenced, cutoff, at, now);
            (Listed(s, j) || j !in page || s.jobs[j].status == Active || s.jobs[j].anonymisedAt.Some?
             || s.jobs[j].updatedAt >= cutoff) ==>
              && j in t.jobs && t.jobs[j] == s.jobs[j]
              && forall k :: k in s.rows && s.rows[k].job == j ==> k in t.rows && t.rows[k] == s.rows[k]
  {
    AnonymiseKeepsListing(s, page * referenced, cutoff, at, now, j);
  }

  // ---------- Skipping is sound ----------

  /** The unchanged shortcut writes what folding the record in would have written. */
  lemma SkippingIsFolding(m: Matching, s: State, reg: Registration, r: Record, seenAt: Instant, now: Instant)
    requires Valid(m, s) && reg.key == r.source && D.Decide(m, s, r).Unchanged?
    ensures P.Persist(m, s, reg, r, seenAt, now)
         == P.UpdateJob(m, s, D.Decide(m, s, r).job, reg, r, seenAt, now)
  {
    var j := D.Decide(m, s, r).job;
    assert s.jobs[j].fields == r.fields;
    SameFields(P.Folded(s, j, reg, r, seenAt), s.jobs[j].fields);
  }

  /** Every stored send that creates nothing folds its record into one known job. */
  lemma StoredSendFolds(m: Matching, s: State, reg: Registration, r: Record, seenAt: Instant, now: Instant)
    requires Valid(m, s)
    requires !P.Persist(m, s, reg, r, seenAt, now).1.failed
    requires P.Persist(m, s, reg, r, seenAt, now).1.outcome != P.Created
    ensures var (t, report) := P.Persist(m, s, reg, r, seenAt, now);
            && report.job.Some? && report.job.value in s.jobs
            && var j := report.job.value;
            && (r.Key() in s.rows ==> s.rows[r.Key()].job == j)
            && var fields := P.Folded(s, j, reg, r, seenAt);
            && fields.DatesInOrder() && reg.key == r.source
            && t == P.Land(P.Register(s, reg), j, fields, m.keyOf(s.jobs[j].company, fields.title), r, seenAt, now)
  {
    hide P.Land, P.Folded, P.Register;
    if D.Decide(m, s, r).Unchanged? { SkippingIsFolding(m, s, reg, r, seenAt, now); }
  }

  // ---------- Reappearance ----------

  /** A send that is not stored changes nothing and says so; a stored one leaves its
      row live and its job listed and not withdrawn, whatever had been concluded
      before. A record known by its own row keeps its job, and expiry is not undone
      unless the job had been withdrawn. */
  lemma ReappearanceUndoesBothConclusions(
    m: Matching, s: State, reg: Registration, r: Record, seenAt: Instant, now: Instant)
    requires Valid(m, s)
    ensures var (t, report) := P.Persist(m, s, reg, r, seenAt, now);
            if report.failed then t == s && report == P.REFUSED
            else
              && report.job.Some?
              && var j := report.job.value;
              && ChangesOnly(s, t, j, r.Key())
              && t.jobs[j].status != Removed
              && (r.Key() in s.rows ==> j == s.rows[r.Key()].job)
              && (j in s.jobs && s.jobs[j].status == Removed ==> t.jobs[j].status == Active)
              && (j in s.jobs && s.jobs[j].status != Removed ==> t.jobs[j].status == s.jobs[j].status)
              && (j !in s.jobs <==> report.outcome == P.Created)
              && (j !in s.jobs ==> j == s.nextJob && t.jobs[j].fields == r.fields && t.jobs[j].anonymisedAt.None?)
  {
    hide P.Persist, P.Land, P.Folded, P.Register, P.CreateJob, ChangesOnly, Valid;
    var (t, report) := P.Persist(m, s, reg, r, seenAt, now);
    NextIsNew(m, s);
    FailedOrCreated(m, s, reg, r, seenAt, now);
    if !report.failed && report.outcome == P.Created {
      CreateChangesOnly(m, s, reg, r, seenAt, now);
    } else if !report.failed {
      StoredSendFolds(m, s, reg, r, seenAt, now);
      var j := report.job.value;
      var fields := P.Folded(s, j, reg, r, seenAt);
      LandChangesOnly(s, reg, j, fields, m.keyOf(s.jobs[j].company, fields.title), r, seenAt, now);
      RegisteringKeepsTables(s, reg);
      LandRelists(P.Register(s, reg), j, fields, m.keyOf(s.jobs[j].company, fields.title), r, seenAt, now);
    }
  }

  lemma NextIsNew(m: Matching, s: State)
    requires Valid(m, s)
    ensures s.nextJob !in s.jobs && SeenInOrder(s)
  {
  }

  lemma FailedOrCreated(m: Matching, s: State, reg: Registration, r: Record, seenAt: Instant, now: Instant)
    requires Valid(m, s)
    ensures var (t, report) := P.Persist(m, s, reg, r, seenAt, now);
      && (report.failed ==> t == s && report == P.REFUSED)
      && (!report.failed && report.outcome == P.Created ==>
            && report.job == Some(s.nextJob) && r.Key() !in s.rows && r.fields.DatesInOrder()
            && t == P.CreateJob(m, s, reg, r, seenAt, now).0 && t.jobs[s.nextJob].anonymisedAt.None?)
  {
    hide P.Land, P.Folded, P.Register;
  }

  lemma LandRelists(
    s: State, j: JobId, fields: Canonical, matchKey: string, r: Record, seenAt: Instant, now: Instant)
    requires j in s.jobs
    ensures P.Land(s, j, fields, matchKey, r, seenAt, now).jobs[j].status
         == if s.jobs[j].status == Removed then Active else s.jobs[j].status
  {
  }

  lemma RegisteringKeepsTables(s: State, reg: Registration)
    ensures P.Register(s, reg).jobs == s.jobs && P.Register(s, reg).rows == s.rows
  {
  }

  // ---------- Rows stay where they are ----------

  lemma SendTouchesOneRow(
    m: Matching, s: State, reg: Registration, r: Record, seenAt: Instant, now: Instant, k: RowKey)
    requires Valid(m, s) && k in s.rows
    ensures var t := P.Persist(m, s, reg, r, seenAt, now).0;
            && k in t.rows
            && (k != r.Key() ==> t.rows[k] == s.rows[k])
            && t.rows[k].job == s.rows[k].job
            && t.rows[k].firstSeen <= s.rows[k].firstSeen
            && s.rows[k].lastSeen <= t.rows[k].lastSeen
  {
    hide P.Folded, Listed, P.Register;
    ReappearanceUndoesBothConclusions(m, s, reg, r, seenAt, now);
    if r.Key() == k { SentRow(m, s, reg, r, seenAt, now); }
  }

  /** A stored send refreshes the dates of the row it already has. */
  lemma SentRow(m: Matching, s: State, reg: Registration, r: Record, seenAt: Instant, now: Instant)
    requires r.Key() in s.rows
    ensures var t := P.Persist(m, s, reg, r, seenAt, now).0;
            && r.Key() in t.rows
            && t.rows[r.Key()].firstSeen <= s.rows[r.Key()].firstSeen
            && s.rows[r.Key()].lastSeen <= t.rows[r.Key()].lastSeen
  {
    hide P.Folded, Listed, D.Candidates, P.Revised;
  }

  /** A row retention takes goes with its job, which nobody listed. */
  lemma RetainedRow(
    s: State, page: set<JobId>, referenced: set<JobId>, cutoff: Instant, at: Instant, now: Instant, k: RowKey)
    requires k in s.rows
    ensures var t := T.Page(s, page, referenced, cutoff, at, now);
            if k in t.rows then
              t.rows[k] == s.rows[k].(payload := t.rows[k].payload)
            else s.rows[k].job !in t.jobs && !Listed(s, s.rows[k].job)
  {
    hide Listed;
    AnonymiseKeepsListing(s, page * referenced, cutoff, at, now, s.rows[k].job);
  }

  /** A row that survives a transaction still names its job, is dated no later at
      the front and no earlier at the back; one that goes, goes with its job, which
      nobody listed. */
  lemma RowsStayInPlace(m: Matching, s: State, step: Step, k: RowKey)
    requires Valid(m, s) && k in s.rows
    ensures var t := Apply(m, s, step);
            if k in t.rows then
              && t.rows[k].job == s.rows[k].job
              && t.rows[k].firstSeen <= s.rows[k].firstSeen
              && s.rows[k].lastSeen <= t.rows[k].lastSeen
            else
              step.Retain? && s.rows[k].job !in t.jobs && !Listed(s, s.rows[k].job)
  {
    hide P.Persist, R.Reconcile, T.Page, Listed;
    match step {
      case Send(reg, r, seenAt, now) => SendTouchesOneRow(m, s, reg, r, seenAt, now, k);
      case Reconcile(summary, started, now) => AbsenceIsPerSource(s, summary, started, now, k);
      case Expire(at, now) =>
      case Retain(page, referenced, cutoff, at, now) => RetainedRow(s, page, referenced, cutoff, at, now, k);
    }
  }

  // ---------- Silence never wins ----------

  /** An identifier once issued and gone never returns. */
  lemma {:induction false} GoneForGood(m: Matching, s: State, steps: seq<Step>, j: JobId)
    requires Valid(m, s) && j < s.nextJob && j !in s.jobs
    ensures j !in Run(m, s, steps).jobs
    decreases |steps|
  {
    if steps != [] {
      StepKeepsValid(m, s, steps[0]);
      StepIssuesNewIds(m, s, steps[0], j);
      GoneForGood(m, Apply(m, s, steps[0]), steps[1..], j);
    }
  }

  lemma StepIssuesNewIds(m: Matching, s: State, step: Step, j: JobId)
    requires Valid(m, s) && j < s.nextJob
    ensures j < Apply(m, s, step).nextJob
    ensures j !in s.jobs ==> j !in Apply(m, s, step).jobs
  {
    hide P.Persist, Listed;
    if step.Send? { ReappearanceUndoesBothConclusions(m, s, step.reg, step.record, step.seenAt, step.now); }
  }

  /** What one transaction does to a job that survives it: anonymised, or every
      stated field still stated and every known fact of anonymisation kept. */
  lemma StepKeepsStated(m: Matching, s: State, step: Step, j: JobId)
    requires Valid(m, s) && j in s.jobs && j in Apply(m, s, step).jobs
    ensures var a, b := s.jobs[j], Apply(m, s, step).jobs[j];
            || (b.anonymisedAt == a.anonymisedAt
                && forall f: Field :: IsStated(a.fields.At(f)) ==> IsStated(b.fields.At(f)))
            || (a.anonymisedAt.None? && b.anonymisedAt.Some?)
  {
    hide P.Persist, R.Reconcile, Listed, IsStated;
    match step {
      case Send(reg, r, seenAt, now) => SendKeepsStated(m, s, reg, r, seenAt, now, j);
      case Reconcile(summary, started, now) => ReconcileLeavesContents(s, summary, started, now, j);
      case Expire(at, now) =>
      case Retain(page, referenced, cutoff, at, now) =>
    }
  }

  lemma SendKeepsStated(
    m: Matching, s: State, reg: Registration, r: Record, seenAt: Instant, now: Instant, j: JobId)
    requires Valid(m, s) && j in s.jobs
    ensures var t := P.Persist(m, s, reg, r, seenAt, now).0;
            && j in t.jobs
            && t.jobs[j].anonymisedAt == s.jobs[j].anonymisedAt
            && forall f: Field :: IsStated(s.jobs[j].fields.At(f)) ==> IsStated(t.jobs[j].fields.At(f))
  {
    hide P.Persist, P.Land, P.Register;
    var (t, report) := P.Persist(m, s, reg, r, seenAt, now);
    ReappearanceUndoesBothConclusions(m, s, reg, r, seenAt, now);
    if !report.failed && report.job.value == j {
      StoredSendFolds(m, s, reg, r, seenAt, now);
      var fields := P.Folded(s, j, reg, r, seenAt);
      LandChangesOnly(s, reg, j, fields, m.keyOf(s.jobs[j].company, fields.title), r, seenAt, now);
    }
  }

  lemma {:induction false} AnonymisationIsForever(m: Matching, s: State, steps: seq<Step>, j: JobId)
    requires Valid(m, s) && j in s.jobs && s.jobs[j].anonymisedAt.Some?
    requires j in Run(m, s, steps).jobs
    ensures Run(m, s, steps).jobs[j].anonymisedAt == s.jobs[j].anonymisedAt
    decreases |steps|
  {
    if steps != [] {
      StepKeepsValid(m, s, steps[0]);
      StepIssuesNewIds(m, s, steps[0], j);
      var t := Apply(m, s, steps[0]);
      if j !in t.jobs { GoneForGood(m, t, steps[1..], j); }
      StepKeepsStated(m, s, steps[0], j);
      AnonymisationIsForever(m, t, steps[1..], j);
    }
  }

  /** Over any run, by any sources, a field a job states stays stated, unless
      retention stripped the job on the way. */
  lemma {:induction false} SilenceNeverWins(m: Matching, s: State, steps: seq<Step>, j: JobId, f: Field)
    requires Valid(m, s) && j in s.jobs && j in Run(m, s, steps).jobs
    requires Run(m, s, steps).jobs[j].anonymisedAt == s.jobs[j].anonymisedAt
    requires IsStated(s.jobs[j].fields.At(f))
    ensures IsStated(Run(m, s, steps).jobs[j].fields.At(f))
    decreases |steps|
  {
    if steps != [] {
      StepKeepsValid(m, s, steps[0]);
      StepIssuesNewIds(m, s, steps[0], j);
      var t := Apply(m, s, steps[0]);
      if j !in t.jobs { GoneForGood(m, t, steps[1..], j); }
      StepKeepsStated(m, s, steps[0], j);
      if t.jobs[j].anonymisedAt != s.jobs[j].anonymisedAt {
        AnonymisationIsForever(m, t, steps[1..], j);
      }
      SilenceNeverWins(m, t, steps[1..], j, f);
    }
  }

  /** The earliest listing a source has on a job is the same before its row is
      refreshed, counting the arriving record, and after. */
  lemma FirstListedStays(s: State, t: State, j: JobId, key: RowKey, seenAt: Instant, later: Instant)
    requires forall k :: k != key ==> (k in s.rows <==> k in t.rows) && (k in s.rows ==> s.rows[k] == t.rows[k])
    requires key in s.rows ==> s.rows[key].job == j
    requires key in t.rows && t.rows[key].job == j
    requires t.rows[key].firstSeen == if key in s.rows then Min(s.rows[key].firstSeen, seenAt) else seenAt
    requires seenAt <= later
    ensures FirstListedAt(t, j, key.source, later) == FirstListedAt(s, j, key.source, seenAt)
  {
    var before := set k | k in s.rows && k.source == key.source && s.rows[k].job == j :: s.rows[k].firstSeen;
    var after := set k | k in t.rows && k.source == key.source && t.rows[k].job == j :: t.rows[k].firstSeen;
    var first := FirstListedAt(s, j, key.source, seenAt);
    assert first in {seenAt} + before && forall x :: x in {seenAt} + before ==> first <= x;
    assert t.rows[key].firstSeen in after;
    assert key in s.rows ==> s.rows[key].firstSeen in before;
    assert first in after by {
      if first != t.rows[key].firstSeen {
        var k :| k in s.rows && k.source == key.source && s.rows[k].job == j && s.rows[k].firstSeen == first;
        assert k in t.rows && t.rows[k].firstSeen == first;
      }
    }
    forall x | x in after ensures first <= x {
      var k :| k in t.rows && k.source == key.source && t.rows[k].job == j && t.rows[k].firstSeen == x;
      if k != key { assert s.rows[k].firstSeen in before; }
    }
  }

  /** The ranking of a record does not depend on having been sent already. */
  lemma RankingIsSettledOnce(
    s: State, j: JobId, fields: Canonical, matchKey: string,
    reg: Registration, r: Record, seenAt: Instant, now: Instant, later: Instant)
    requires j in s.jobs && reg.key == r.source && seenAt <= later
    requires r.Key() in s.rows ==> s.rows[r.Key()].job == j
    ensures var t := P.Land(P.Register(s, reg), j, fields, matchKey, r, seenAt, now);
            IncomingOutranks(P.Register(t, reg), j, reg, r, later)
            == IncomingOutranks(P.Register(s, reg), j, reg, r, seenAt)
  {
    hide Outranks, FirstListedAt, RivalAccounts;
    var s1 := P.Register(s, reg);
    var t1 := P.Register(P.Land(s1, j, fields, matchKey, r, seenAt, now), reg);
    SameRivals(s1, t1, j, reg.key);
    FirstListedStays(s1, t1, j, r.Key(), seenAt, later);
  }

  /** Rivals are read off other sources' rows only. */
  lemma SameRivals(s: State, t: State, j: JobId, source: SourceKey)
    requires forall k :: k in s.rows && k.source != source ==> k in t.rows && t.rows[k] == s.rows[k]
    requires forall k :: k in t.rows && k.source != source ==> k in s.rows
    requires forall x :: x != source ==> (x in s.sources <==> x in t.sources)
                                         && (x in s.sources ==> s.sources[x] == t.sources[x])
    ensures RivalAccounts(s, j, source) == RivalAccounts(t, j, source)
  {
    forall a ensures a in RivalAccounts(s, j, source) <==> a in RivalAccounts(t, j, source) {
      if a in RivalAccounts(s, j, source) {
        var k :|
          k in s.rows && k.source in s.sources && s.rows[k].job == j && k.source != source && AccountOf(s, k) == a;
        assert k in t.rows && AccountOf(t, k) == a;
      }
      if a in RivalAccounts(t, j, source) {
        var k :|
          k in t.rows && k.source in t.sources && t.rows[k].job == j && k.source != source && AccountOf(t, k) == a;
        assert k in s.rows && AccountOf(s, k) == a;
      }
    }
  }

  /** A record that lands where it already was leaves the jobs as they were. */
  lemma LandingInPlace(t: State, reg: Registration, j: JobId, r: Record, seenAt: Instant, now: Instant)
    requires j in t.jobs && t.jobs[j].status != Removed
    ensures P.Land(P.Register(t, reg), j, t.jobs[j].fields, t.jobs[j].matchKey, r, seenAt, now).jobs == t.jobs
  {
  }

  /** A record known by its row, whose fold changes nothing, is skipped. */
  lemma NothingToFold(m: Matching, t: State, reg: Registration, r: Record, seenAt: Instant, now: Instant)
    requires Valid(m, t) && reg.key == r.source && r.Key() in t.rows
    requires var j := t.rows[r.Key()].job;
             t.jobs[j].status != Removed && P.Folded(t, j, reg, r, seenAt) == t.jobs[j].fields
    ensures var (u, report) := P.Persist(m, t, reg, r, seenAt, now);
            report == P.Report(P.Skipped, Some(t.rows[r.Key()].job), false) && u.jobs == t.jobs
  {
    hide P.Land, P.Folded;
    LandingInPlace(t, reg, t.rows[r.Key()].job, r, seenAt, now);
  }

  /** Folding a record that equals what is stored changes nothing, however it ranks. */
  lemma FoldingTheStored(s: State, j: JobId, reg: Registration, r: Record, seenAt: Instant)
    requires j in s.jobs && s.jobs[j].fields == r.fields
    ensures P.Folded(s, j, reg, r, seenAt) == s.jobs[j].fields
  {
    SameFields(P.Folded(s, j, reg, r, seenAt), s.jobs[j].fields);
  }

  /** Once a record is stored, sending it again with nothing in between is a skip
      that leaves every job as it was. */
  lemma ResendingIsASkip(
    m: Matching, s: State, reg: Registration, r: Record,
    seenAt: Instant, now: Instant, seenAgain: Instant, nowAgain: Instant)
    requires Valid(m, s) && seenAt <= seenAgain
    requires !P.Persist(m, s, reg, r, seenAt, now).1.failed
    ensures var (t, first) := P.Persist(m, s, reg, r, seenAt, now);
            var (u, second) := P.Persist(m, t, reg, r, seenAgain, nowAgain);
            second == P.Report(P.Skipped, first.job, false) && u.jobs == t.jobs
  {
    hide P.Persist, P.Land, P.Folded, P.Register;
    var (t, first) := P.Persist(m, s, reg, r, seenAt, now);
    SendKeepsValid(m, s, reg, r, seenAt, now);
    ReappearanceUndoesBothConclusions(m, s, reg, r, seenAt, now);
    FailsUnlessOwn(m, s, reg, r, seenAt, now);
    var j := first.job.value;
    if j !in s.jobs {
      FoldingTheStored(t, j, reg, r, seenAgain);
    } else {
      StoredSendFolds(m, s, reg, r, seenAt, now);
      FoldedTwice(m, s, j, reg, r, seenAt, now, seenAgain);
    }
    NothingToFold(m, t, reg, r, seenAgain, nowAgain);
  }

  lemma FailsUnlessOwn(m: Matching, s: State, reg: Registration, r: Record, seenAt: Instant, now: Instant)
    ensures !P.Persist(m, s, reg, r, seenAt, now).1.failed ==> reg.key == r.source
  {
  }

  lemma FoldedTwice(
    m: Matching, s: State, j: JobId, reg: Registration, r: Record, seenAt: Instant, now: Instant, later: Instant)
    requires Valid(m, s) && j in s.jobs && reg.key == r.source && seenAt <= later
    requires r.Key() in s.rows ==> s.rows[r.Key()].job == j
    ensures var fields := P.Folded(s, j, reg, r, seenAt);
            var t := P.Land(P.Register(s, reg), j, fields, m.keyOf(s.jobs[j].company, fields.title), r, seenAt, now);
            t.jobs[j].fields == fields && P.Folded(t, j, reg, r, later) == fields
  {
    hide IncomingOutranks, Merge;
    var fields := P.Folded(s, j, reg, r, seenAt);
    var matchKey := m.keyOf(s.jobs[j].company, fields.title);
    RankingIsSettledOnce(s, j, fields, matchKey, reg, r, seenAt, now, later);
    MergeIsIdempotent(s.jobs[j].fields, r.fields, IncomingOutranks(P.Register(s, reg), j, reg, r, seenAt));
  }
}
