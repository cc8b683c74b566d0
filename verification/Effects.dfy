/** What each transaction on the catalogue leaves in its tables, column by column, told
    without the rules that compute it. */
module Effects {
  import opened Extremes
  import opened Wrappers
  import opened Catalogue
  import opened Contracts
  import opened Ownership
  import opened Lifecycle
  import opened LifecycleLaws
  import opened D = Deduplication
  import P = Persistence
  import R = Reconciliation
  import T = Retention

  // ---------- Reconciliation ----------

  /** A row this run's source should have shown and has not: since the run began if the run
      saw everything, else for the source's whole lifetime if it lost nothing. */
  predicate Unshown(s: State, summary: Summary, started: Instant, k: RowKey) {
    && k in s.rows && k.source == summary.source && summary.source in s.sources && s.rows[k].retired == None
    && if R.SawItAll(summary) then s.rows[k].lastSeen < started
       else R.LostNothing(summary) && s.rows[k].lastSeen + summary.retireUnseenAfter.value < started
  }

  /** Somebody listed the job, and only through rows that were not shown. */
  predicate LostItsLastListing(s: State, summary: Summary, started: Instant, j: JobId) {
    && (exists k :: k in s.rows && s.rows[k].job == j && s.rows[k].retired == None)
    && (forall k :: k in s.rows && s.rows[k].job == j && s.rows[k].retired == None ==> Unshown(s, summary, started, k))
  }

  predicate Reconciled(s: State, t: State, summary: Summary, started: Instant, now: Instant) {
    && t == s.(jobs := t.jobs, rows := t.rows) && t.rows.Keys == s.rows.Keys && t.jobs.Keys == s.jobs.Keys
    && (forall k :: k in s.rows ==>
          t.rows[k] == if Unshown(s, summary, started, k) then s.rows[k].(retired := Some(started)) else s.rows[k])
    && (forall j :: j in s.jobs ==>
          t.jobs[j] == if LostItsLastListing(s, summary, started, j)
                       then s.jobs[j].(status := Removed, updatedAt := now) else s.jobs[j])
  }

  /** A reconciliation retires exactly the rows that were not shown, withdraws exactly the
      jobs nobody lists any more because of it, and counts them. */
  lemma ReconcileDoes(m: Matching, s: State, summary: Summary, started: Instant, now: Instant)
    requires Valid(m, s)
    ensures var (t, report) := R.Reconcile(s, summary, started, now);
      && Reconciled(s, t, summary, started, now)
      && (report.ran <==> R.SawItAll(summary) || R.LostNothing(summary))
      && report.retired == |set k | k in s.rows && Unshown(s, summary, started, k)|
      && report.withdrawn == |set j | j in s.jobs && LostItsLastListing(s, summary, started, j)|
  {
    hide Valid, Listed, LostItsLastListing, Unshown, R.Reconcile, R.SawItAll, R.LostNothing;
    var (t, report) := R.Reconcile(s, summary, started, now);
    ReconciledRows(s, summary, started, now);
    ReconcileCounts(m, s, summary, started, now);
    forall j | j in s.jobs
      ensures LostItsLastListing(s, summary, started, j) <==> Listed(s, j) && !Listed(t, j)
    {
      LostIff(s, t, summary, started, j);
    }
    forall j | j in s.jobs { WithdrawnIffLastListingLost(m, s, summary, started, now, j); }
    assert (set k | k in s.rows && k in t.rows && s.rows[k] != t.rows[k])
        == set k | k in s.rows && Unshown(s, summary, started, k);
    assert (set j | j in s.jobs && Listed(s, j) && !Listed(t, j))
        == set j | j in s.jobs && LostItsLastListing(s, summary, started, j);
  }

  lemma ReconciledRows(s: State, summary: Summary, started: Instant, now: Instant)
    ensures var (t, report) := R.Reconcile(s, summary, started, now);
      && t == s.(jobs := t.jobs, rows := t.rows) && t.rows.Keys == s.rows.Keys && t.jobs.Keys == s.jobs.Keys
      && (report.ran <==> R.SawItAll(summary) || R.LostNothing(summary))
      && forall k :: k in s.rows ==>
          && t.rows[k] == (if Unshown(s, summary, started, k) then s.rows[k].(retired := Some(started)) else s.rows[k])
          && (t.rows[k] != s.rows[k] <==> Unshown(s, summary, started, k))
  {
    hide R.SawItAll, R.LostNothing, R.RuleOf;
    R.RulesOfASummary(summary);
  }

  lemma LostIff(s: State, t: State, summary: Summary, started: Instant, j: JobId)
    requires t.rows.Keys == s.rows.Keys
    requires forall k :: k in s.rows ==>
      t.rows[k] == if Unshown(s, summary, started, k) then s.rows[k].(retired := Some(started)) else s.rows[k]
    ensures LostItsLastListing(s, summary, started, j) <==> Listed(s, j) && !Listed(t, j)
  {
    hide R.SawItAll, R.LostNothing;
    if Listed(t, j) {
      var k :| k in t.rows && t.rows[k].job == j && t.rows[k].retired.None?;
      assert k in s.rows && s.rows[k].job == j && s.rows[k].retired == None && !Unshown(s, summary, started, k);
    }
    if k :| k in s.rows && s.rows[k].job == j && s.rows[k].retired == None && !Unshown(s, summary, started, k) {
      assert k in t.rows && t.rows[k].job == j && t.rows[k].retired.None?;
    }
  }

  // ---------- Expiry ----------

  /** Exactly the active jobs whose own stated date has passed expire. */
  lemma ExpireDoes(s: State, at: Instant, now: Instant)
    ensures var (t, count) := R.Expire(s, at, now);
      && t == s.(jobs := t.jobs) && t.jobs.Keys == s.jobs.Keys
      && (forall j :: j in s.jobs ==>
            var job := s.jobs[j];
            t.jobs[j] == match job.fields.expiresAt
              case Date(date) =>
                if date < at && job.status == Active then job.(status := Expired, updatedAt := now) else job
              case _ => job)
      && count == |set j | j in s.jobs && t.jobs[j].status == Expired && s.jobs[j].status != Expired|
  {
    var (t, count) := R.Expire(s, at, now);
    assert (set j | j in s.jobs && R.Lapsed(s.jobs[j], at))
        == set j | j in s.jobs && t.jobs[j].status == Expired && s.jobs[j].status != Expired;
  }

  // ---------- Retention ----------

  /** Expired or withdrawn, untouched since the cutoff, never stripped, and without a live row. */
  predicate Due(s: State, cutoff: Instant, j: JobId) {
    && j in s.jobs && s.jobs[j].status in {Expired, Removed} && s.jobs[j].updatedAt < cutoff
    && s.jobs[j].anonymisedAt == None
    && forall k :: k in s.rows && s.rows[k].job == j ==> s.rows[k].retired != None
  }

  predicate PointedAt(references: seq<set<JobId>>, j: JobId) {
    exists i :: 0 <= i < |references| && j in references[i]
  }

  ghost predicate Retained(
    s: State, t: State, page: set<JobId>, references: seq<set<JobId>>, cutoff: Instant, at: Instant, now: Instant)
  {
    && t == s.(jobs := t.jobs, rows := t.rows)
    && (forall j :: j in t.jobs <==> j in s.jobs && !(j in page && Due(s, cutoff, j) && !PointedAt(references, j)))
    && (forall k :: k in t.rows <==> k in s.rows && (s.rows[k].job in s.jobs ==> s.rows[k].job in t.jobs))
    && (forall j :: j in t.jobs ==>
          var was := s.jobs[j];
          t.jobs[j] ==
            if j in page && Due(s, cutoff, j) then
              Job(was.company, was.matchKey,
                  Canonical(was.fields.title, "Posting no longer available", Missing, was.fields.workplaceType,
                            was.fields.employmentType, "", was.fields.publishedAt, was.fields.expiresAt),
                  was.status, now, Some(at))
            else was)
    && (forall k :: k in t.rows ==>
          var was := s.rows[k];
          t.rows[k] ==
            if was.job in page && Due(s, cutoff, was.job) then
              Row(was.job, was.url, was.firstSeen, was.lastSeen, was.retired, Emptied(at))
            else was)
  }

  lemma DueIsEligible(s: State, cutoff: Instant, j: JobId)
    ensures Due(s, cutoff, j) <==> j in T.Candidates(s, cutoff)
  {
  }

  /** A pass over candidates does so to every job that is due, and to nothing else. */
  lemma SweepDoes(
    s: State, referenced: set<JobId>, references: seq<set<JobId>>, cutoff: Instant, at: Instant, now: Instant)
    requires forall j :: j in referenced <==> PointedAt(references, j)
    ensures var t := T.Swept(s, T.Candidates(s, cutoff), referenced, at, now);
            Retained(s, t, s.jobs.Keys, references, cutoff, at, now)
    ensures T.Candidates(s, cutoff) == set j | j in s.jobs && Due(s, cutoff, j)
  {
    hide Due, PointedAt, T.Candidates;
    forall j { DueIsEligible(s, cutoff, j); }
  }

  /** So does one page of any jobs at all, to those that are due. */
  lemma PageDoes(
    s: State, page: set<JobId>, referenced: set<JobId>, references: seq<set<JobId>>,
    cutoff: Instant, at: Instant, now: Instant)
    requires forall j :: j in page ==> (j in referenced <==> PointedAt(references, j))
    ensures Retained(s, T.Page(s, page, referenced, cutoff, at, now), page, references, cutoff, at, now)
  {
    hide Due, PointedAt, T.Candidates;
    forall j { DueIsEligible(s, cutoff, j); }
    var confirmed := page * T.Candidates(s, cutoff);
    PageOfCandidates(s, page, referenced, cutoff, at, now);
  }

  /** Who is no candidate is left out of a page anyway. */
  lemma PageOfCandidates(
    s: State, page: set<JobId>, referenced: set<JobId>, cutoff: Instant, at: Instant, now: Instant)
    ensures T.Page(s, page, referenced, cutoff, at, now)
         == T.Swept(s, page * T.Candidates(s, cutoff), referenced, at, now)
  {
    hide T.Candidates;
    var confirmed := page * T.Candidates(s, cutoff);
    T.PageIsASweep(s, confirmed, referenced, cutoff, at, now);
    assert page * referenced * T.Candidates(s, cutoff) == confirmed * referenced * T.Candidates(s, cutoff);
    var stripped := T.Anonymise(s, page * referenced, cutoff, at, now);
    assert stripped == T.Anonymise(s, confirmed * referenced, cutoff, at, now);
    T.AnonymisedSweep(s, confirmed, referenced, cutoff, at, now);
    T.CandidatesLeft(s, confirmed * referenced, referenced, cutoff, at, now);
    var left := T.Candidates(stripped, cutoff);
    assert (page - referenced) * left == (confirmed - referenced) * left;
  }

  // ---------- Writing one record ----------

  predicate Told(v: Value) {
    v !in {Missing, Text("unspecified")}
  }

  const OPTIONAL := {Location, WorkplaceType, EmploymentType, PublishedAt, ExpiresAt}

  /** Two different jobs are both the posting the record describes. */
  ghost predicate Undecided(m: Matching, s: State, r: Record) {
    exists i, j :: i != j && SamePosting(m, s, r, i) && SamePosting(m, s, r, j)
  }

  /** The fields of a job after a record has been folded into it. */
  ghost predicate FoldedInto(was: Canonical, told: Canonical, outranks: bool, became: Canonical) {
    forall f: Field ::
      became.At(f) ==
        if !Told(told.At(f)) then was.At(f)
        else if !Told(was.At(f)) || outranks then told.At(f) else was.At(f)
  }

  /** The row a record writes. */
  predicate RowWritten(s: State, r: Record, j: JobId, seenAt: Instant, row: Row) {
    && row.job == j && row.url == r.url && row.retired == None
    && (if r.Key() !in s.rows then row.firstSeen == row.lastSeen == seenAt
        else
          && var was := s.rows[r.Key()];
          && row.firstSeen == (if was.firstSeen < seenAt then was.firstSeen else seenAt)
          && row.lastSeen == (if was.lastSeen > seenAt then was.lastSeen else seenAt))
    && row.payload == Delivered(r.partial, |set f | f in OPTIONAL && Told(r.fields.At(f))|)
  }

  /** A known job after a record has landed on it: listed again if it had been withdrawn, its
      key that of its own company and title, its stamp moved if and only if something was. */
  ghost predicate JobWritten(m: Matching, was: Job, r: Record, outranks: bool, now: Instant, became: Job) {
    && FoldedInto(was.fields, r.fields, outranks, became.fields)
    && became.company == was.company && became.matchKey == m.keyOf(was.company, became.fields.title)
    && became.status == (if was.status == Removed then Active else was.status)
    && became.anonymisedAt == was.anonymisedAt
    && became.updatedAt == if became.fields == was.fields && became.status == was.status then was.updatedAt else now
  }

  /** A job a record creates, under the first stored company of its name. */
  ghost predicate JobCreated(m: Matching, companies: seq<string>, r: Record, now: Instant, became: Job) {
    && became == Job(became.company, m.keyOf(became.company, r.fields.title), r.fields, Active, now, None)
    && (if exists c :: c in companies && m.normalizeCompany(c) == m.normalizeCompany(r.company) then
          exists i :: 0 <= i < |companies| && companies[i] == became.company
            && m.normalizeCompany(companies[i]) == m.normalizeCompany(r.company)
            && forall k :: 0 <= k < i ==> m.normalizeCompany(companies[k]) != m.normalizeCompany(r.company)
        else became.company == r.company)
  }

  /** What a record that is stored leaves behind. */
  ghost predicate Stored(
    m: Matching, s: State, t: State, reg: Registration, r: Record, seenAt: Instant, now: Instant, j: JobId)
  {
    && t.sources == s.sources[reg.key := reg.precedence]
    && r.Key() in t.rows && t.rows == s.rows[r.Key() := t.rows[r.Key()]]
    && RowWritten(s, r, j, seenAt, t.rows[r.Key()])
    && j in t.jobs && t.jobs == s.jobs[j := t.jobs[j]]
    && if j in s.jobs then
         && JobWritten(m, s.jobs[j], r, IncomingOutranks(P.Register(s, reg), j, reg, r, seenAt), now, t.jobs[j])
         && t.companies == s.companies && t.nextJob == s.nextJob
       else
         && JobCreated(m, s.companies, r, now, t.jobs[j])
         && t.companies == (if t.jobs[j].company in s.companies then s.companies else s.companies + [r.company])
         && t.nextJob == s.nextJob + 1
  }

  /** Where a record belongs: on the job of its own row, or else on the only job that is the
      same posting. */
  ghost predicate Belongs(m: Matching, s: State, r: Record, j: JobId) {
    if r.Key() in s.rows then j == s.rows[r.Key()].job
    else forall i :: SamePosting(m, s, r, i) <==> i == j
  }

  lemma KnownJobs(m: Matching, s: State)
    requires Valid(m, s)
    ensures forall k :: k in s.rows ==> s.rows[k].job in s.jobs
  {
  }

  /** A decision is to join the job the record belongs on, to create one where it belongs on
      none, or to refuse where it might belong on several. */
  lemma DecidedByBelonging(m: Matching, s: State, r: Record)
    requires Valid(m, s)
    ensures var d := Decide(m, s, r);
      && (d.Changed? || d.Unchanged? ==>
            && d.job in s.jobs && Belongs(m, s, r, d.job)
            && (d.Unchanged? ==> s.jobs[d.job].fields == r.fields))
      && (d.New? ==> r.Key() !in s.rows && s.nextJob !in s.jobs && forall j :: !SamePosting(m, s, r, j))
      && (d.Ambiguous? <==> r.Key() !in s.rows && Undecided(m, s, r))
  {
    hide SamePosting, Decide, Valid;
    DecisionIs(m, s, r);
    NextIsNew(m, s);
    KnownJobs(m, s);
  }

  /** A stored record lands where it belongs, and on a new job only where it belongs nowhere. */
  lemma RecordsLandWhereTheyBelong(m: Matching, s: State, reg: Registration, r: Record, seenAt: Instant, now: Instant)
    requires Valid(m, s)
    ensures var (t, report) := P.Persist(m, s, reg, r, seenAt, now);
      !report.failed ==>
        && report.job.Some?
        && var j := report.job.value;
        if j in s.jobs then Belongs(m, s, r, j)
        else j == s.nextJob && r.Key() !in s.rows && forall i :: !SamePosting(m, s, r, i)
  {
    hide P.Land, P.Folded, P.Register, SamePosting, Belongs, Decide, Valid;
    DecidedByBelonging(m, s, r);
  }

  predicate OutOfOrder(c: Canonical) {
    c.publishedAt.Date? && c.expiresAt.Date? && c.expiresAt.at < c.publishedAt.at
  }

  lemma FoldedIs(s: State, j: JobId, reg: Registration, r: Record, seenAt: Instant)
    requires j in s.jobs
    ensures var outranks := IncomingOutranks(P.Register(s, reg), j, reg, r, seenAt);
      FoldedInto(s.jobs[j].fields, r.fields, outranks, P.Folded(s, j, reg, r, seenAt))
  {
    hide IncomingOutranks;
  }

  lemma OneFold(was: Canonical, told: Canonical, outranks: bool, a: Canonical, b: Canonical)
    requires FoldedInto(was, told, outranks, a) && FoldedInto(was, told, outranks, b)
    ensures a == b
  {
    SameFields(a, b);
  }

  /** Why a record is refused: it is not its source's own, it might belong on several jobs, or
      what the job would say expires before it was published. */
  lemma RefusedIff(m: Matching, s: State, reg: Registration, r: Record, seenAt: Instant, now: Instant)
    requires Valid(m, s)
    ensures P.Persist(m, s, reg, r, seenAt, now).1.failed <==>
      || reg.key != r.source
      || (r.Key() !in s.rows && Undecided(m, s, r))
      || (r.Key() !in s.rows && (forall j :: !SamePosting(m, s, r, j)) && OutOfOrder(r.fields))
      || exists j, became ::
          && Belongs(m, s, r, j) && j in s.jobs && OutOfOrder(became)
          && FoldedInto(s.jobs[j].fields, r.fields, IncomingOutranks(P.Register(s, reg), j, reg, r, seenAt), became)
  {
    hide SamePosting, Belongs, Decide, Valid, FoldedInto, IncomingOutranks, P.Land, P.Register, P.Folded;
    DecidedByBelonging(m, s, r);
    var d := Decide(m, s, r);
    if d.Changed? || d.Unchanged? {
      FoldedIs(s, d.job, reg, r, seenAt);
      InOrderAlready(m, s, d.job);
      if r.Key() !in s.rows { BelongsNowhere(m, s, r, d.job); }
      assert OutOfOrder(P.Folded(s, d.job, reg, r, seenAt)) <==> !P.Folded(s, d.job, reg, r, seenAt).DatesInOrder();
      if d.Unchanged? { FoldingTheStored(s, d.job, reg, r, seenAt); }
      forall j, became | Belongs(m, s, r, j) && j in s.jobs &&
          FoldedInto(s.jobs[j].fields, r.fields, IncomingOutranks(P.Register(s, reg), j, reg, r, seenAt), became)
        ensures j == d.job && became == P.Folded(s, d.job, reg, r, seenAt)
      {
        BelongsOnce(m, s, r, j, d.job);
        OneFold(s.jobs[j].fields, r.fields, IncomingOutranks(P.Register(s, reg), j, reg, r, seenAt),
                became, P.Folded(s, d.job, reg, r, seenAt));
      }
    } else {
      forall j | Belongs(m, s, r, j) ensures d.Ambiguous? || !d.New? {
        BelongsNowhere(m, s, r, j);
      }
    }
  }

  lemma InOrderAlready(m: Matching, s: State, j: JobId)
    requires Valid(m, s) && j in s.jobs
    ensures !OutOfOrder(s.jobs[j].fields)
  {
  }

  lemma BelongsOnce(m: Matching, s: State, r: Record, i: JobId, j: JobId)
    requires Belongs(m, s, r, i) && Belongs(m, s, r, j)
    ensures i == j
  {
    hide SamePosting;
    if r.Key() !in s.rows { assert SamePosting(m, s, r, i) <==> i == j; }
  }

  lemma BelongsNowhere(m: Matching, s: State, r: Record, j: JobId)
    requires Belongs(m, s, r, j) && r.Key() !in s.rows
    ensures SamePosting(m, s, r, j)
  {
    hide SamePosting;
  }

  lemma StatedFieldsCounted(c: Canonical)
    ensures StatedFieldCount(c) == |set f | f in OPTIONAL && Told(c.At(f))|
  {
    hide Told, Stated;
    assert ToldOf({}, c) == {} && ToldOf(OPTIONAL, c) == set f | f in OPTIONAL && Told(c.At(f));
    var one, two := {Location}, {Location, WorkplaceType};
    var three, four := two + {EmploymentType}, two + {EmploymentType} + {PublishedAt};
    WithField({}, one, Location, c);
    WithField(one, two, WorkplaceType, c);
    WithField(two, three, EmploymentType, c);
    WithField(three, four, PublishedAt, c);
    WithField(four, OPTIONAL, ExpiresAt, c);
  }

  /** Which of these fields are told. */
  function ToldOf(fields: set<Field>, c: Canonical): set<Field> {
    set f | f in fields && Told(c.At(f))
  }

  lemma WithField(fields: set<Field>, more: set<Field>, f: Field, c: Canonical)
    requires f !in fields && more == fields + {f}
    ensures |ToldOf(more, c)| == |ToldOf(fields, c)| + Stated(c.At(f))
  {
    assert ToldOf(more, c) == ToldOf(fields, c) + if Told(c.At(f)) then {f} else {};
  }

  lemma ObservedRow(s: State, r: Record, j: JobId, seenAt: Instant)
    requires r.Key() in s.rows ==> s.rows[r.Key()].job == j
    ensures var rows := P.Observe(s.rows, r, j, seenAt);
      r.Key() in rows && rows == s.rows[r.Key() := rows[r.Key()]] && RowWritten(s, r, j, seenAt, rows[r.Key()])
  {
    hide StatedFieldCount;
    StatedFieldsCounted(r.fields);
  }

  lemma LandedJob(
    m: Matching, s: State, reg: Registration, j: JobId, r: Record, seenAt: Instant, now: Instant)
    requires j in s.jobs && s.jobs[j].matchKey == m.keyOf(s.jobs[j].company, s.jobs[j].fields.title)
    requires r.Key() in s.rows ==> s.rows[r.Key()].job == j
    ensures var fields := P.Folded(s, j, reg, r, seenAt);
      var t := P.Land(P.Register(s, reg), j, fields, m.keyOf(s.jobs[j].company, fields.title), r, seenAt, now);
      Stored(m, s, t, reg, r, seenAt, now, j) && t.jobs[j].fields == fields
  {
    hide P.Folded, P.Observe, RowWritten, FoldedInto, IncomingOutranks;
    FoldedIs(s, j, reg, r, seenAt);
    ObservedRow(s, r, j, seenAt);
  }

  lemma CreatedJob(m: Matching, s: State, reg: Registration, r: Record, seenAt: Instant, now: Instant)
    requires s.nextJob !in s.jobs && r.Key() !in s.rows && r.fields.DatesInOrder()
    ensures Stored(m, s, P.CreateJob(m, s, reg, r, seenAt, now).0, reg, r, seenAt, now, s.nextJob)
  {
    hide P.CompanyFor, P.Observe, RowWritten, JobWritten;
    ObservedRow(s, r, s.nextJob, seenAt);
    CompanyOfRecord(m, s.companies, r, now);
  }

  lemma CompanyOfRecord(m: Matching, companies: seq<string>, r: Record, now: Instant)
    ensures var company := P.CompanyFor(m, companies, r.company);
      && JobCreated(m, companies, r, now, Job(company, m.keyOf(company, r.fields.title), r.fields, Active, now, None))
      && (company !in companies ==> company == r.company)
  {
    P.TheOldestMatchWins(m, companies, r.company);
    if i :| 0 <= i < |companies| && m.normalizeCompany(companies[i]) == m.normalizeCompany(r.company) {
      assert companies[i] in companies;
    }
    if c :| c in companies && m.normalizeCompany(c) == m.normalizeCompany(r.company) {
      var i :| 0 <= i < |companies| && companies[i] == c;
      assert m.normalizeCompany(companies[i]) == m.normalizeCompany(r.company);
    }
  }

  /** What is stored, in every column, and how it is reported. */
  lemma StoredRecords(m: Matching, s: State, reg: Registration, r: Record, seenAt: Instant, now: Instant)
    requires Valid(m, s)
    ensures var (t, report) := P.Persist(m, s, reg, r, seenAt, now);
      if report.failed then t == s && report == P.Report(P.Skipped, None, true)
      else
        && report.job.Some?
        && var j := report.job.value;
        && Stored(m, s, t, reg, r, seenAt, now, j)
        && report.outcome ==
          if j !in s.jobs then P.Created else if t.jobs[j].fields != s.jobs[j].fields then P.Updated else P.Skipped
  {
    hide P.Persist, P.Land, P.Folded, P.Register, P.CreateJob, Valid, Stored;
    var (t, report) := P.Persist(m, s, reg, r, seenAt, now);
    FailedOrCreated(m, s, reg, r, seenAt, now);
    NextIsNew(m, s);
    ReportedOutcome(m, s, reg, r, seenAt, now);
    if !report.failed && report.outcome == P.Created {
      CreatedJob(m, s, reg, r, seenAt, now);
    } else if !report.failed {
      StoredSendFolds(m, s, reg, r, seenAt, now);
      KeyOfItsTitle(m, s, report.job.value);
      LandedJob(m, s, reg, report.job.value, r, seenAt, now);
    }
  }

  lemma KeyOfItsTitle(m: Matching, s: State, j: JobId)
    requires Valid(m, s) && j in s.jobs
    ensures s.jobs[j].matchKey == m.keyOf(s.jobs[j].company, s.jobs[j].fields.title)
  {
  }

  lemma ReportedOutcome(m: Matching, s: State, reg: Registration, r: Record, seenAt: Instant, now: Instant)
    requires Valid(m, s)
    ensures var report := P.Persist(m, s, reg, r, seenAt, now).1;
      !report.failed && report.outcome != P.Created ==>
        && report.job.Some? && report.job.value in s.jobs
        && (report.outcome == P.Updated
            <==> P.Folded(s, report.job.value, reg, r, seenAt) != s.jobs[report.job.value].fields)
  {
    hide P.Land, P.Folded, P.Register, D.Candidates;
    var d := Decide(m, s, r);
    if d.Unchanged? {
      MaterialIsAny(s.jobs[d.job].fields, r.fields);
      FoldingTheStored(s, d.job, reg, r, seenAt);
    }
  }

  /** All that one record does: nothing if it is refused, and otherwise what it leaves on the
      job it belongs on. */
  ghost predicate Sent(
    m: Matching, s: State, t: State, report: P.Report, reg: Registration, r: Record, seenAt: Instant, now: Instant)
  {
    if report.failed then t == s
    else
      && report.job.Some?
      && Stored(m, s, t, reg, r, seenAt, now, report.job.value)
      && if report.job.value in s.jobs then Belongs(m, s, r, report.job.value)
         else r.Key() !in s.rows && forall i :: !SamePosting(m, s, r, i)
  }

  lemma SendDoes(m: Matching, s: State, reg: Registration, r: Record, seenAt: Instant, now: Instant)
    requires Valid(m, s)
    ensures var (t, report) := P.Persist(m, s, reg, r, seenAt, now);
            Sent(m, s, t, report, reg, r, seenAt, now)
  {
    hide P.Persist, Stored, Belongs, SamePosting, Valid;
    StoredRecords(m, s, reg, r, seenAt, now);
    RecordsLandWhereTheyBelong(m, s, reg, r, seenAt, now);
  }
}
