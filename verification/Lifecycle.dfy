/** Every transaction that moves a job or a provenance row, and what all of them keep. */
module Lifecycle {
  import opened Wrappers
  import opened Catalogue
  import opened Contracts
  import opened Ownership
  import Deduplication
  import P = Persistence
  import R = Reconciliation
  import T = Retention

  datatype Step =
    | Send(reg: Registration, record: Record, seenAt: Instant, now: Instant)
    | Reconcile(summary: Summary, runStarted: Instant, now: Instant)
    | Expire(at: Instant, now: Instant)
    | Retain(page: set<JobId>, referenced: set<JobId>, cutoff: Instant, at: Instant, now: Instant)

  ghost function Apply(m: Matching, s: State, step: Step): State {
    match step
    case Send(reg, r, seenAt, now) => P.Persist(m, s, reg, r, seenAt, now).0
    case Reconcile(summary, started, now) => R.Reconcile(s, summary, started, now).0
    case Expire(at, now) => R.Expire(s, at, now).0
    case Retain(page, referenced, cutoff, at, now) => T.Page(s, page, referenced, cutoff, at, now)
  }

  ghost function Run(m: Matching, s: State, steps: seq<Step>): State
    decreases |steps|
  {
    if steps == [] then s else Run(m, Apply(m, s, steps[0]), steps[1..])
  }

  // ---------- The invariant ----------

  predicate RowsAndJobsAgree(s: State) {
    && (forall k :: k in s.rows ==> s.rows[k].job in s.jobs && k.source in s.sources)
    && (forall j :: j in s.jobs ==> HasRow(s, j))
  }

  predicate WithdrawnIffUnlisted(s: State) {
    forall j :: j in s.jobs ==> (s.jobs[j].status == Removed <==> !Listed(s, j))
  }

  predicate SeenInOrder(s: State) {
    forall k :: k in s.rows ==> s.rows[k].firstSeen <= s.rows[k].lastSeen
  }

  predicate JobsDescribed(m: Matching, s: State) {
    forall j :: j in s.jobs ==>
      && s.jobs[j].matchKey == m.keyOf(s.jobs[j].company, s.jobs[j].fields.title)
      && s.jobs[j].fields.DatesInOrder()
      && s.jobs[j].company in s.companies
      && j < s.nextJob
  }

  predicate Valid(m: Matching, s: State) {
    && RowsAndJobsAgree(s)
    && WithdrawnIffUnlisted(s)
    && SeenInOrder(s)
    && JobsDescribed(m, s)
  }

  /** A change confined to a row of job `j` leaves every other job as listed as it was. */
  lemma OtherRowsKeepListing(s: State, t: State, key: RowKey, j: JobId, i: JobId)
    requires i != j
    requires forall k :: k != key ==> (k in s.rows <==> k in t.rows) && (k in s.rows ==> s.rows[k] == t.rows[k])
    requires key in s.rows ==> s.rows[key].job == j
    requires key in t.rows ==> t.rows[key].job == j
    ensures Listed(t, i) <==> Listed(s, i)
  {
    if Listed(s, i) {
      var k :| k in s.rows && s.rows[k].job == i && s.rows[k].retired.None?;
      assert k in t.rows && t.rows[k] == s.rows[k];
    }
    if Listed(t, i) {
      var k :| k in t.rows && t.rows[k].job == i && t.rows[k].retired.None?;
      assert k in s.rows && t.rows[k] == s.rows[k];
    }
  }

  /** `t` differs from `s` only in job `j` and in the row `key`, which lists `j`. */
  predicate ChangesOnly(s: State, t: State, j: JobId, key: RowKey) {
    && t.jobs.Keys == s.jobs.Keys + {j}
    && (forall i :: i in s.jobs && i != j ==> t.jobs[i] == s.jobs[i])
    && t.rows.Keys == s.rows.Keys + {key}
    && (forall k :: k in s.rows && k != key ==> t.rows[k] == s.rows[k])
    && (key in s.rows ==> s.rows[key].job == j)
    && t.rows[key].job == j && t.rows[key].retired.None?
    && s.sources.Keys <= t.sources.Keys
    && s.companies <= t.companies
    && s.nextJob <= t.nextJob
  }

  lemma OtherJobsKeepTheirRows(s: State, t: State, j: JobId, key: RowKey, i: JobId)
    requires HasRow(s, i) && i != j && ChangesOnly(s, t, j, key)
    ensures HasRow(t, i)
  {
    var k :| k in s.rows && s.rows[k].job == i;
    assert k in t.rows && t.rows[k].job == i;
  }

  lemma ChangeKeepsAgreement(s: State, t: State, j: JobId, key: RowKey)
    requires RowsAndJobsAgree(s) && ChangesOnly(s, t, j, key) && key.source in t.sources
    ensures RowsAndJobsAgree(t)
  {
    hide HasRow;
    assert HasRow(t, j) by { KeyIsARowOf(t, j, key); }
    forall i | i in t.jobs && i != j ensures HasRow(t, i) {
      OtherJobsKeepTheirRows(s, t, j, key, i);
    }
  }

  lemma KeyIsARowOf(t: State, j: JobId, key: RowKey)
    requires key in t.rows && t.rows[key].job == j
    ensures HasRow(t, j)
  {
  }

  lemma ChangeKeepsWithdrawal(s: State, t: State, j: JobId, key: RowKey)
    requires WithdrawnIffUnlisted(s) && ChangesOnly(s, t, j, key)
    requires t.jobs[j].status != Removed
    ensures WithdrawnIffUnlisted(t)
  {
    assert Listed(t, j) by { assert key in t.rows; }
    forall i | i in t.jobs && i != j ensures Listed(t, i) <==> Listed(s, i) {
      OtherRowsKeepListing(s, t, key, j, i);
    }
  }

  lemma ChangeKeepsDescriptions(m: Matching, s: State, t: State, j: JobId, key: RowKey)
    requires JobsDescribed(m, s) && ChangesOnly(s, t, j, key)
    requires t.jobs[j].matchKey == m.keyOf(t.jobs[j].company, t.jobs[j].fields.title)
    requires t.jobs[j].fields.DatesInOrder() && t.jobs[j].company in t.companies && j < t.nextJob
    ensures JobsDescribed(m, t)
  {
  }

  lemma ChangeKeepsValid(m: Matching, s: State, t: State, j: JobId, key: RowKey)
    requires Valid(m, s) && ChangesOnly(s, t, j, key) && key.source in t.sources
    requires t.rows[key].firstSeen <= t.rows[key].lastSeen
    requires t.jobs[j].status != Removed
    requires t.jobs[j].matchKey == m.keyOf(t.jobs[j].company, t.jobs[j].fields.title)
    requires t.jobs[j].fields.DatesInOrder() && t.jobs[j].company in t.companies && j < t.nextJob
    ensures Valid(m, t)
  {
    hide Listed, HasRow;
    ChangeKeepsAgreement(s, t, j, key);
    ChangeKeepsWithdrawal(s, t, j, key);
    ChangeKeepsDescriptions(m, s, t, j, key);
    assert SeenInOrder(t);
  }

  lemma LandChangesOnly(
    s: State, reg: Registration, j: JobId, fields: Canonical, matchKey: string, r: Record,
    seenAt: Instant, now: Instant)
    requires j in s.jobs && SeenInOrder(s)
    requires r.Key() in s.rows ==> s.rows[r.Key()].job == j
    ensures var t := P.Land(P.Register(s, reg), j, fields, matchKey, r, seenAt, now);
            && ChangesOnly(s, t, j, r.Key())
            && t.rows[r.Key()].firstSeen <= t.rows[r.Key()].lastSeen
            && t.jobs[j].status != Removed
            && t.jobs[j].fields == fields && t.jobs[j].matchKey == matchKey
            && t.jobs[j].company == s.jobs[j].company
            && t.jobs[j].anonymisedAt == s.jobs[j].anonymisedAt
            && t.companies == s.companies && t.nextJob == s.nextJob
            && reg.key in t.sources
  {
  }

  /** A record landing on job `j`, whose row of that key, if any, already names `j`. */
  lemma LandKeepsValid(
    m: Matching, s: State, reg: Registration, j: JobId, fields: Canonical, r: Record,
    seenAt: Instant, now: Instant)
    requires Valid(m, s) && j in s.jobs && r.source == reg.key
    requires r.Key() in s.rows ==> s.rows[r.Key()].job == j
    requires fields.DatesInOrder()
    ensures Valid(m, P.Land(P.Register(s, reg), j, fields, m.keyOf(s.jobs[j].company, fields.title), r, seenAt, now))
  {
    var matchKey := m.keyOf(s.jobs[j].company, fields.title);
    LandChangesOnly(s, reg, j, fields, matchKey, r, seenAt, now);
    ChangeKeepsValid(m, s, P.Land(P.Register(s, reg), j, fields, matchKey, r, seenAt, now), j, r.Key());
  }

  lemma CreateChangesOnly(
    m: Matching, s: State, reg: Registration, r: Record, seenAt: Instant, now: Instant)
    requires s.nextJob !in s.jobs && r.Key() !in s.rows && r.fields.DatesInOrder()
    ensures var t := P.CreateJob(m, s, reg, r, seenAt, now).0;
            && ChangesOnly(s, t, s.nextJob, r.Key())
            && t.rows[r.Key()].firstSeen == t.rows[r.Key()].lastSeen == seenAt
            && t.jobs[s.nextJob].status == Active
            && t.jobs[s.nextJob].fields == r.fields
            && t.jobs[s.nextJob].matchKey == m.keyOf(t.jobs[s.nextJob].company, r.fields.title)
            && t.jobs[s.nextJob].company in t.companies
            && t.nextJob == s.nextJob + 1
            && reg.key in t.sources
  {
  }

  lemma CreateKeepsValid(
    m: Matching, s: State, reg: Registration, r: Record, seenAt: Instant, now: Instant)
    requires Valid(m, s) && r.source == reg.key && r.Key() !in s.rows
    ensures Valid(m, P.CreateJob(m, s, reg, r, seenAt, now).0)
  {
    if r.fields.DatesInOrder() {
      CreateChangesOnly(m, s, reg, r, seenAt, now);
      ChangeKeepsValid(m, s, P.CreateJob(m, s, reg, r, seenAt, now).0, s.nextJob, r.Key());
    }
  }

  /** Skipping an unchanged record is folding it in: the stored key already is the
      key of what is stored. */
  lemma SendKeepsValid(m: Matching, s: State, reg: Registration, r: Record, seenAt: Instant, now: Instant)
    requires Valid(m, s)
    ensures Valid(m, P.Persist(m, s, reg, r, seenAt, now).0)
  {
    if reg.key == r.source {
      match Deduplication.Decide(m, s, r) {
        case Ambiguous(_) =>
        case New => CreateKeepsValid(m, s, reg, r, seenAt, now);
        case Unchanged(j) =>
          LandKeepsValid(m, s, reg, j, s.jobs[j].fields, r, seenAt, now);
        case Changed(j) =>
          if P.Folded(s, j, reg, r, seenAt).DatesInOrder() {
            LandKeepsValid(m, s, reg, j, P.Folded(s, j, reg, r, seenAt), r, seenAt, now);
          }
      }
    }
  }

  /** Retiring the rows in `gone` unlists exactly the jobs all of whose live rows were in it. */
  lemma RetireUnlists(s: State, gone: set<RowKey>, at: Instant, j: JobId)
    ensures var t := s.(rows := R.Retire(s.rows, gone, at));
            Listed(t, j) <==>
            exists k :: k in s.rows && s.rows[k].job == j && s.rows[k].retired.None? && k !in gone
  {
    var t := s.(rows := R.Retire(s.rows, gone, at));
    if Listed(t, j) {
      var k :| k in t.rows && t.rows[k].job == j && t.rows[k].retired.None?;
      assert k in s.rows && k !in gone;
    }
    if k :| k in s.rows && s.rows[k].job == j && s.rows[k].retired.None? && k !in gone {
      assert k in t.rows && t.rows[k] == s.rows[k];
    }
  }

  lemma WithdrawnAfterRetiring(s: State, gone: set<RowKey>, at: Instant, now: Instant)
    requires WithdrawnIffUnlisted(s)
    ensures var t := s.(rows := R.Retire(s.rows, gone, at));
            WithdrawnIffUnlisted(R.Withdraw(t, R.JobsOf(s.rows, gone), now))
  {
    var t := s.(rows := R.Retire(s.rows, gone, at));
    var ids := R.JobsOf(s.rows, gone);
    var u := R.Withdraw(t, ids, now);
    forall j | j in u.jobs ensures u.jobs[j].status == Removed <==> !Listed(u, j) {
      SameRowsSameListing(u, t, j);
      RetireUnlists(s, gone, at, j);
      if Listed(s, j) && !Listed(t, j) {
        var k :| k in s.rows && s.rows[k].job == j && s.rows[k].retired.None?;
        assert k in gone;
        assert j in ids;
      }
    }
  }

  /** Rows that keep their keys and their jobs keep every job its row. */
  lemma SameKeysSameAgreement(s: State, t: State)
    requires RowsAndJobsAgree(s)
    requires t.jobs.Keys == s.jobs.Keys && t.sources == s.sources && t.rows.Keys == s.rows.Keys
    requires forall k :: k in s.rows ==> t.rows[k].job == s.rows[k].job
    ensures RowsAndJobsAgree(t)
  {
    forall j | j in t.jobs ensures HasRow(t, j) {
      assert HasRow(s, j);
      var k :| k in s.rows && s.rows[k].job == j;
      assert k in t.rows && t.rows[k].job == j;
    }
  }

  lemma ReconcileKeepsContents(m: Matching, s: State, summary: Summary, started: Instant, now: Instant)
    requires SeenInOrder(s) && JobsDescribed(m, s)
    ensures var u := R.Reconcile(s, summary, started, now).0;
            && SeenInOrder(u) && JobsDescribed(m, u)
            && u.jobs.Keys == s.jobs.Keys && u.sources == s.sources && u.rows.Keys == s.rows.Keys
            && forall k :: k in s.rows ==> u.rows[k].job == s.rows[k].job
  {
    hide Listed, JobsDescribed, R.RuleOf, R.UnseenBefore, R.Unseen, R.Withdraw, R.Retire, R.JobsOf;
    if R.RuleOf(summary) != R.Refused && summary.source in s.sources {
      var gone := R.Unseen(s.rows, summary.source, R.UnseenBefore(summary, started));
      RetiringKeepsRows(s, gone, started);
      WithdrawingKeepsJobs(m, s.(rows := R.Retire(s.rows, gone, started)), R.JobsOf(s.rows, gone), now);
      SameJobsDescribed(m, s, s.(rows := R.Retire(s.rows, gone, started)));
    }
  }

  lemma RetiringKeepsRows(s: State, gone: set<RowKey>, at: Instant)
    requires SeenInOrder(s)
    ensures var t := s.(rows := R.Retire(s.rows, gone, at));
      SeenInOrder(t) && t.rows.Keys == s.rows.Keys && forall k :: k in s.rows ==> t.rows[k].job == s.rows[k].job
  {
  }

  lemma WithdrawingKeepsJobs(m: Matching, s: State, ids: set<JobId>, now: Instant)
    ensures var u := R.Withdraw(s, ids, now);
      && u == s.(jobs := u.jobs) && u.jobs.Keys == s.jobs.Keys
      && (JobsDescribed(m, s) ==> JobsDescribed(m, u)) && (SeenInOrder(s) ==> SeenInOrder(u))
  {
    hide R.Withdrawable;
  }

  lemma SameJobsDescribed(m: Matching, s: State, t: State)
    requires JobsDescribed(m, s) && (t.jobs, t.companies, t.nextJob) == (s.jobs, s.companies, s.nextJob)
    ensures JobsDescribed(m, t)
  {
  }

  lemma ReconcileKeepsValid(m: Matching, s: State, summary: Summary, started: Instant, now: Instant)
    requires Valid(m, s)
    ensures Valid(m, R.Reconcile(s, summary, started, now).0)
  {
    hide RowsAndJobsAgree, WithdrawnIffUnlisted, SeenInOrder, JobsDescribed, R.RuleOf, R.Retire, R.Withdraw;
    ReconcileKeepsContents(m, s, summary, started, now);
    SameKeysSameAgreement(s, R.Reconcile(s, summary, started, now).0);
    if R.RuleOf(summary) != R.Refused && summary.source in s.sources {
      WithdrawnAfterRetiring(s, R.Unseen(s.rows, summary.source, R.UnseenBefore(summary, started)), started, now);
    }
  }

  lemma SameRowsSameListing(s: State, t: State, j: JobId)
    requires s.rows == t.rows
    ensures Listed(s, j) <==> Listed(t, j)
  {
  }

  lemma ExpireKeepsValid(m: Matching, s: State, at: Instant, now: Instant)
    requires Valid(m, s)
    ensures Valid(m, R.Expire(s, at, now).0)
  {
    var t := R.Expire(s, at, now).0;
    SameKeysSameAgreement(s, t);
    forall j | j in t.jobs ensures t.jobs[j].status == Removed <==> !Listed(t, j) {
      SameRowsSameListing(s, t, j);
    }
    assert JobsDescribed(m, t);
  }

  lemma AnonymiseKeepsListing(s: State, ids: set<JobId>, cutoff: Instant, at: Instant, now: Instant, j: JobId)
    ensures Listed(T.Anonymise(s, ids, cutoff, at, now), j) <==> Listed(s, j)
    ensures HasRow(T.Anonymise(s, ids, cutoff, at, now), j) <==> HasRow(s, j)
  {
    var t := T.Anonymise(s, ids, cutoff, at, now);
    assert forall k :: k in t.rows <==> k in s.rows;
    assert forall k :: k in t.rows ==> t.rows[k].job == s.rows[k].job && t.rows[k].retired == s.rows[k].retired;
    if Listed(s, j) {
      var k :| k in s.rows && s.rows[k].job == j && s.rows[k].retired.None?;
      assert k in t.rows;
    }
    if HasRow(s, j) {
      var k :| k in s.rows && s.rows[k].job == j;
      assert k in t.rows;
    }
  }

  lemma PurgeKeepsListing(s: State, ids: set<JobId>, cutoff: Instant, j: JobId)
    requires j !in ids * T.Candidates(s, cutoff)
    ensures Listed(T.Purge(s, ids, cutoff), j) <==> Listed(s, j)
    ensures HasRow(T.Purge(s, ids, cutoff), j) <==> HasRow(s, j)
  {
    var t := T.Purge(s, ids, cutoff);
    if Listed(s, j) {
      var k :| k in s.rows && s.rows[k].job == j && s.rows[k].retired.None?;
      assert k in t.rows;
    }
    if HasRow(s, j) {
      var k :| k in s.rows && s.rows[k].job == j;
      assert k in t.rows;
    }
  }

  lemma AnonymiseKeepsValid(m: Matching, s: State, ids: set<JobId>, cutoff: Instant, at: Instant, now: Instant)
    requires Valid(m, s)
    ensures Valid(m, T.Anonymise(s, ids, cutoff, at, now))
  {
    hide T.Anonymise, RowsAndJobsAgree, SeenInOrder, JobsDescribed, Listed;
    var t := T.Anonymise(s, ids, cutoff, at, now);
    AnonymiseKeepsContents(m, s, ids, cutoff, at, now);
    SameKeysSameAgreement(s, t);
    forall j | j in t.jobs ensures t.jobs[j].status == Removed <==> !Listed(t, j) {
      AnonymiseKeepsListing(s, ids, cutoff, at, now, j);
    }
  }

  lemma AnonymiseKeepsContents(m: Matching, s: State, ids: set<JobId>, cutoff: Instant, at: Instant, now: Instant)
    requires SeenInOrder(s) && JobsDescribed(m, s)
    ensures var t := T.Anonymise(s, ids, cutoff, at, now);
            && SeenInOrder(t) && JobsDescribed(m, t)
            && t.jobs.Keys == s.jobs.Keys && t.sources == s.sources && t.rows.Keys == s.rows.Keys
            && (forall k :: k in s.rows ==> t.rows[k].job == s.rows[k].job)
            && (forall j :: j in s.jobs ==> t.jobs[j].status == s.jobs[j].status)
  {
    hide Listed;
  }

  lemma PurgeKeepsValid(m: Matching, s: State, ids: set<JobId>, cutoff: Instant)
    requires Valid(m, s)
    ensures Valid(m, T.Purge(s, ids, cutoff))
  {
    var t := T.Purge(s, ids, cutoff);
    forall j | j in t.jobs
      ensures HasRow(t, j)
      ensures t.jobs[j].status == Removed <==> !Listed(t, j)
    {
      PurgeKeepsListing(s, ids, cutoff, j);
      assert HasRow(s, j);
    }
    assert JobsDescribed(m, t) && SeenInOrder(t);
  }

  lemma StepKeepsValid(m: Matching, s: State, step: Step)
    requires Valid(m, s)
    ensures Valid(m, Apply(m, s, step))
  {
    match step {
      case Send(reg, r, seenAt, now) => SendKeepsValid(m, s, reg, r, seenAt, now);
      case Reconcile(summary, started, now) => ReconcileKeepsValid(m, s, summary, started, now);
      case Expire(at, now) => ExpireKeepsValid(m, s, at, now);
      case Retain(page, referenced, cutoff, at, now) =>
        AnonymiseKeepsValid(m, s, page * referenced, cutoff, at, now);
        PurgeKeepsValid(m, T.Anonymise(s, page * referenced, cutoff, at, now), page - referenced, cutoff);
    }
  }

  /** From the empty catalogue, whatever sources, sweeps and retention pages do. */
  lemma {:induction false} EveryRunIsValid(m: Matching, s: State, steps: seq<Step>)
    requires Valid(m, s)
    ensures Valid(m, Run(m, s, steps))
    decreases |steps|
  {
    if steps != [] {
      StepKeepsValid(m, s, steps[0]);
      EveryRunIsValid(m, Apply(m, s, steps[0]), steps[1..]);
    }
  }

  lemma EmptyIsValid(m: Matching)
    ensures Valid(m, EMPTY)
  {
  }
}
