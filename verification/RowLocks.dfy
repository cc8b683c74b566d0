/** Retention pages and writing transactions side by side, under row locks. A page
    locks jobs first and then their rows, skipping what others hold; a writer locks
    rows and jobs in any order and waits, and an inserted row shares a lock on its job.
    Statements read what is committed, and a transaction's changes land at commit. */
module RowLocks {
  import opened Catalogue
  import L = Lifecycle
  import T = Retention

  type TxId = nat

  /** How far a page has come. */
  datatype Stage =
    | Selecting
    | Selected(page: set<JobId>)
    | HasRead(page: set<JobId>, listed: set<RowKey>)
    | Locked(page: set<JobId>)
    | Stripping(rest: set<JobId>, stripped: set<JobId>)
    | Purged(stripped: set<JobId>, deleted: set<JobId>)

  /** A page holds its jobs for update; a writer holds the jobs it updates, shares the
      jobs its inserted rows name, and keeps its changes to itself until it commits. */
  datatype Tx =
    | Page(stage: Stage, cutoff: Instant, at: Instant, stamp: Instant, jobLocks: set<JobId>, rowLocks: set<RowKey>)
    | Writer(
        jobLocks: set<JobId>, shares: set<JobId>, rowLocks: set<RowKey>,
        rows: map<RowKey, Row>, jobs: map<JobId, Job>)

  datatype Database = Database(committed: State, txs: map<TxId, Tx>)

  function Shares(tx: Tx): set<JobId> { if tx.Writer? then tx.shares else {} }

  // ---------- Who may take which lock ----------

  predicate RowFree(d: Database, t: TxId, k: RowKey) {
    forall u :: u in d.txs && u != t ==> k !in d.txs[u].rowLocks
  }

  /** Nobody else updates, references or holds the job. */
  predicate JobFree(d: Database, t: TxId, j: JobId) {
    forall u :: u in d.txs && u != t ==> j !in d.txs[u].jobLocks && j !in Shares(d.txs[u])
  }

  /** Nobody else updates the job or holds it for update; references do not conflict. */
  predicate JobUpdatable(d: Database, t: TxId, j: JobId) {
    forall u :: u in d.txs && u != t ==> j !in d.txs[u].jobLocks
  }

  /** No page holds the job: a reference conflicts with nothing else. */
  predicate JobSharable(d: Database, t: TxId, j: JobId) {
    forall u :: u in d.txs && u != t && d.txs[u].Page? ==> j !in d.txs[u].jobLocks
  }

  function RowsOf(s: State, ids: set<JobId>): set<RowKey> {
    set k | k in s.rows && s.rows[k].job in ids
  }

  // ---------- The steps ----------

  datatype Action =
    | BeginPage(cutoff: Instant, at: Instant, stamp: Instant)
    | Select(chosen: set<JobId>)
    | ReadRows
    | LockRows
    | Strip(referenced: set<JobId>)
    | Purge
    | CommitPage
    | BeginWriter
    | WriteRow(k: RowKey, row: Row)
    | WriteJob(j: JobId, job: Job)
    | CommitWriter
    | Abort

  predicate Enabled(d: Database, t: TxId, a: Action) {
    match a
    case BeginPage(_, _, _) => t !in d.txs
    case BeginWriter => t !in d.txs
    case Select(chosen) =>
      t in d.txs && d.txs[t].Page? && d.txs[t].stage.Selecting?
      && (forall j :: j in chosen ==> T.Eligible(d.committed, d.txs[t].cutoff, j) && JobFree(d, t, j))
    case ReadRows => t in d.txs && d.txs[t].Page? && d.txs[t].stage.Selected?
    case LockRows => t in d.txs && d.txs[t].Page? && d.txs[t].stage.HasRead?
    case Strip(_) =>
      t in d.txs && d.txs[t].Page? && d.txs[t].stage.Locked?
    case Purge =>
      t in d.txs && d.txs[t].Page? && d.txs[t].stage.Stripping?
    case CommitPage => t in d.txs && d.txs[t].Page? && d.txs[t].stage.Purged?
    case WriteRow(k, row) =>
      && t in d.txs && d.txs[t].Writer? && RowFree(d, t, k)
      && if k in d.txs[t].rows then row.job == d.txs[t].rows[k].job
         else if k in d.committed.rows then row.job == d.committed.rows[k].job
         else row.job in d.txs[t].jobs || (row.job in d.committed.jobs && JobSharable(d, t, row.job))
    case WriteJob(j, job) => t in d.txs && d.txs[t].Writer? && JobUpdatable(d, t, j)
    case CommitWriter => t in d.txs && d.txs[t].Writer?
    case Abort => t in d.txs
  }

  function Do(d: Database, t: TxId, a: Action): Database
    requires Enabled(d, t, a)
  {
    match a
    case BeginPage(cutoff, at, stamp) => d.(txs := d.txs[t := Page(Selecting, cutoff, at, stamp, {}, {})])
    case BeginWriter => d.(txs := d.txs[t := Writer({}, {}, {}, map[], map[])])
    case Select(chosen) => d.(txs := d.txs[t := d.txs[t].(stage := Selected(chosen), jobLocks := chosen)])
    case ReadRows =>
      var page := d.txs[t].stage.page;
      d.(txs := d.txs[t := d.txs[t].(stage := HasRead(page, RowsOf(d.committed, page)))])
    case LockRows =>
      var stage := d.txs[t].stage;
      var locked := set k | k in RowsOf(d.committed, stage.page) && RowFree(d, t, k);
      var held := set k | k in stage.listed && k !in locked && k in d.committed.rows :: d.committed.rows[k].job;
      d.(txs := d.txs[t := d.txs[t].(stage := Locked(stage.page - held), rowLocks := locked)])
    case Strip(referenced) =>
      var page := d.txs[t].stage.page;
      var stripped := page * referenced * T.Candidates(d.committed, d.txs[t].cutoff);
      d.(txs := d.txs[t := d.txs[t].(stage := Stripping(page - referenced, stripped))])
    case Purge =>
      var stage := d.txs[t].stage;
      var deleted := stage.rest * T.Candidates(d.committed, d.txs[t].cutoff);
      d.(txs := d.txs[t := d.txs[t].(stage := Purged(stage.stripped, deleted))])
    case CommitPage =>
      var tx := d.txs[t];
      Database(
        T.Swept(d.committed, tx.stage.stripped + tx.stage.deleted, tx.stage.stripped, tx.at, tx.stamp),
        d.txs - {t})
    case WriteRow(k, row) =>
      var tx := d.txs[t];
      var inserted := k !in tx.rows && k !in d.committed.rows && row.job !in tx.jobs;
      d.(txs := d.txs[t := tx.(
        rows := tx.rows[k := row],
        rowLocks := tx.rowLocks + {k},
        shares := if inserted then tx.shares + {row.job} else tx.shares)])
    case WriteJob(j, job) =>
      var tx := d.txs[t];
      d.(txs := d.txs[t := tx.(jobs := tx.jobs[j := job], jobLocks := tx.jobLocks + {j})])
    case CommitWriter =>
      var tx := d.txs[t];
      Database(
        d.committed.(jobs := d.committed.jobs + tx.jobs, rows := d.committed.rows + tx.rows),
        d.txs - {t})
    case Abort => d.(txs := d.txs - {t})
  }

  // ---------- What every interleaving keeps ----------

  predicate NoOrphans(s: State) {
    forall k :: k in s.rows ==> s.rows[k].job in s.jobs
  }

  /** Locks exclude what they should. */
  predicate Exclusive(a: Tx, b: Tx) {
    && a.rowLocks !! b.rowLocks
    && a.jobLocks !! b.jobLocks
    && (a.Page? ==> a.jobLocks !! Shares(b))
    && (b.Page? ==> b.jobLocks !! Shares(a))
  }

  predicate PageSound(s: State, tx: Tx)
    requires tx.Page?
  {
    match tx.stage
    case Selecting => tx.jobLocks == {} && tx.rowLocks == {}
    case Selected(page) => page <= tx.jobLocks && page <= s.jobs.Keys
    case HasRead(page, listed) => page <= tx.jobLocks && page <= s.jobs.Keys && listed == RowsOf(s, page)
    case Locked(page) => page <= tx.jobLocks && page <= s.jobs.Keys && RowsOf(s, page) <= tx.rowLocks
    case Stripping(rest, stripped) =>
      && rest + stripped <= tx.jobLocks && rest + stripped <= s.jobs.Keys && rest !! stripped
      && RowsOf(s, rest + stripped) <= tx.rowLocks
      && (forall j :: j in stripped ==> T.Eligible(s, tx.cutoff, j))
    case Purged(stripped, deleted) =>
      && stripped + deleted <= tx.jobLocks && stripped !! deleted
      && RowsOf(s, stripped + deleted) <= tx.rowLocks
      && (forall j :: j in stripped + deleted ==> T.Eligible(s, tx.cutoff, j))
  }

  predicate WriterSound(s: State, tx: Tx)
    requires tx.Writer?
  {
    && tx.rows.Keys <= tx.rowLocks
    && tx.jobs.Keys <= tx.jobLocks
    && tx.shares <= s.jobs.Keys
    && (forall k :: k in tx.rows ==>
          if k in s.rows then tx.rows[k].job == s.rows[k].job
          else tx.rows[k].job in tx.jobs || tx.rows[k].job in tx.shares)
  }

  predicate Sound(d: Database) {
    && NoOrphans(d.committed)
    && (forall t, u :: t in d.txs && u in d.txs && t != u ==> Exclusive(d.txs[t], d.txs[u]))
    && (forall t :: t in d.txs ==>
          if d.txs[t].Page? then PageSound(d.committed, d.txs[t]) else WriterSound(d.committed, d.txs[t]))
  }

  function AfterWriter(s: State, w: Tx): State
    requires w.Writer?
  {
    s.(jobs := s.jobs + w.jobs, rows := s.rows + w.rows)
  }

  function AfterPage(s: State, p: Tx): State
    requires p.Page? && p.stage.Purged?
  {
    T.Swept(s, p.stage.stripped + p.stage.deleted, p.stage.stripped, p.at, p.stamp)
  }

  /** A writer's commit moves no row onto or off a job another page holds, and changes
      none of that job's rows the page has locked. */
  lemma WriterCommitLeavesHeld(s: State, w: Tx, p: Tx, ids: set<JobId>)
    requires w.Writer? && p.Page? && WriterSound(s, w) && Exclusive(w, p)
    requires ids <= p.jobLocks
    ensures RowsOf(AfterWriter(s, w), ids) == RowsOf(s, ids)
    ensures forall j :: j in ids && j in s.jobs ==>
              j in AfterWriter(s, w).jobs && AfterWriter(s, w).jobs[j] == s.jobs[j]
    ensures RowsOf(s, ids) <= p.rowLocks ==>
              forall k :: k in RowsOf(s, ids) ==> AfterWriter(s, w).rows[k] == s.rows[k]
  {
    var u := AfterWriter(s, w);
    forall k ensures k in RowsOf(u, ids) <==> k in RowsOf(s, ids) {
      if k in w.rows && k !in s.rows { assert w.rows[k].job !in ids; }
    }
  }

  lemma SameHeldSameListing(s: State, t: State, j: JobId)
    requires RowsOf(s, {j}) == RowsOf(t, {j})
    requires forall k :: k in RowsOf(s, {j}) ==> s.rows[k] == t.rows[k]
    ensures Listed(s, j) <==> Listed(t, j)
  {
    if Listed(s, j) {
      var k :| k in s.rows && s.rows[k].job == j && s.rows[k].retired.None?;
      assert k in RowsOf(s, {j});
    }
    if Listed(t, j) {
      var k :| k in t.rows && t.rows[k].job == j && t.rows[k].retired.None?;
      assert k in RowsOf(t, {j});
    }
  }

  lemma HeldStayEligible(s: State, t: State, ids: set<JobId>, cutoff: Instant)
    requires RowsOf(s, ids) == RowsOf(t, ids)
    requires forall k :: k in RowsOf(s, ids) ==> s.rows[k] == t.rows[k]
    requires forall j :: j in ids && j in s.jobs ==> j in t.jobs && t.jobs[j] == s.jobs[j]
    ensures forall j :: j in ids && T.Eligible(s, cutoff, j) ==> T.Eligible(t, cutoff, j)
  {
    forall j | j in ids && T.Eligible(s, cutoff, j) ensures T.Eligible(t, cutoff, j) {
      assert RowsOf(s, {j}) == RowsOf(t, {j}) by {
        assert forall k :: k in RowsOf(s, {j}) ==> k in RowsOf(s, ids);
        assert forall k :: k in RowsOf(t, {j}) ==> k in RowsOf(t, ids);
        assert forall k :: k in RowsOf(s, ids) ==> (s.rows[k].job == j <==> t.rows[k].job == j);
      }
      assert forall k :: k in RowsOf(s, {j}) ==> k in RowsOf(s, ids);
      SameHeldSameListing(s, t, j);
    }
  }

  /** What a page works on, at whatever stage. */
  function Reach(stage: Stage): set<JobId> {
    match stage
    case Selecting => {}
    case Selected(page) => page
    case HasRead(page, _) => page
    case Locked(page) => page
    case Stripping(rest, stripped) => rest + stripped
    case Purged(stripped, deleted) => stripped + deleted
  }

  lemma PageSoundIsLocal(s: State, t: State, p: Tx)
    requires p.Page? && PageSound(s, p)
    requires RowsOf(t, Reach(p.stage)) == RowsOf(s, Reach(p.stage))
    requires forall j :: j in Reach(p.stage) && j in s.jobs ==> j in t.jobs && t.jobs[j] == s.jobs[j]
    requires RowsOf(s, Reach(p.stage)) <= p.rowLocks ==>
               forall k :: k in RowsOf(s, Reach(p.stage)) ==> t.rows[k] == s.rows[k]
    ensures PageSound(t, p)
  {
    if p.stage.Stripping? || p.stage.Purged? {
      hide T.Eligible;
      HeldStayEligible(s, t, Reach(p.stage), p.cutoff);
    }
  }

  lemma WriterCommitKeepsPage(s: State, w: Tx, p: Tx)
    requires w.Writer? && p.Page? && WriterSound(s, w) && PageSound(s, p) && Exclusive(w, p)
    ensures PageSound(AfterWriter(s, w), p)
  {
    hide T.Eligible, AfterWriter;
    assert Reach(p.stage) <= p.jobLocks;
    WriterCommitLeavesHeld(s, w, p, Reach(p.stage));
    PageSoundIsLocal(s, AfterWriter(s, w), p);
  }

  lemma WriterCommitKeepsWriter(s: State, w: Tx, v: Tx)
    requires w.Writer? && v.Writer? && WriterSound(s, w) && WriterSound(s, v) && Exclusive(w, v)
    ensures WriterSound(AfterWriter(s, w), v)
  {
  }

  /** A page's commit takes only jobs and rows it holds. */
  lemma PageCommitTakesOwn(s: State, p: Tx)
    requires p.Page? && p.stage.Purged? && PageSound(s, p)
    ensures var t := AfterPage(s, p);
            && (forall j :: j !in p.jobLocks ==>
                  (j in t.jobs <==> j in s.jobs) && (j in s.jobs ==> t.jobs[j] == s.jobs[j]))
            && (forall k :: k !in p.rowLocks ==>
                  (k in t.rows <==> k in s.rows) && (k in s.rows ==> t.rows[k] == s.rows[k]))
            && (forall k :: k in t.rows ==> k in s.rows && t.rows[k].job == s.rows[k].job)
            && (forall j :: j in t.jobs ==> j in s.jobs)
            && (forall k :: k in s.rows && k !in t.rows ==> s.rows[k].job in p.stage.deleted)
            && (forall k :: k in t.rows ==> s.rows[k].job !in p.stage.deleted)
            && (forall j :: j in s.jobs && j !in t.jobs ==> j in p.stage.deleted)
            && (forall k :: k in s.rows && s.rows[k].job !in p.stage.stripped + p.stage.deleted ==>
                  t.rows[k] == s.rows[k])
  {
    hide T.Eligible;
    assert p.stage.stripped !! p.stage.deleted;
    assert forall k :: k in s.rows && s.rows[k].job in p.stage.stripped + p.stage.deleted ==>
        k in RowsOf(s, p.stage.stripped + p.stage.deleted);
  }

  lemma PageCommitKeepsPage(s: State, p: Tx, q: Tx)
    requires p.Page? && p.stage.Purged? && PageSound(s, p)
    requires q.Page? && PageSound(s, q) && Exclusive(p, q)
    ensures PageSound(AfterPage(s, p), q)
  {
    hide T.Eligible, AfterPage;
    PageCommitTakesOwn(s, p);
    var t := AfterPage(s, p);
    var ids := Reach(q.stage);
    assert ids <= q.jobLocks;
    assert p.stage.stripped + p.stage.deleted <= p.jobLocks;
    forall k ensures k in RowsOf(t, ids) <==> k in RowsOf(s, ids) {
    }
    PageSoundIsLocal(s, t, q);
  }

  lemma PageCommitKeepsWriter(s: State, p: Tx, w: Tx)
    requires p.Page? && p.stage.Purged? && PageSound(s, p)
    requires w.Writer? && WriterSound(s, w) && Exclusive(p, w)
    ensures WriterSound(AfterPage(s, p), w)
  {
    hide T.Eligible, AfterPage;
    PageCommitTakesOwn(s, p);
  }

  lemma CommitKeepsNoOrphans(s: State, tx: Tx)
    requires NoOrphans(s)
    requires if tx.Page? then tx.stage.Purged? && PageSound(s, tx) else WriterSound(s, tx)
    ensures NoOrphans(if tx.Page? then AfterPage(s, tx) else AfterWriter(s, tx))
  {
    hide T.Eligible;
    if tx.Page? {
      hide AfterPage;
      PageCommitTakesOwn(s, tx);
    }
  }

  // ---------- Each step ----------

  lemma CommitKeepsSound(d: Database, t: TxId, a: Action)
    requires Sound(d) && Enabled(d, t, a) && (a.CommitPage? || a.CommitWriter?)
    ensures Sound(Do(d, t, a))
  {
    hide T.Eligible, PageSound, WriterSound, Exclusive, AfterPage, AfterWriter, NoOrphans;
    var tx := d.txs[t];
    var s := d.committed;
    var u := if tx.Page? then AfterPage(s, tx) else AfterWriter(s, tx);
    CommittedIs(d, t, a);
    CommitKeepsNoOrphans(s, tx);
    forall v | v in d.txs && v != t
      ensures if d.txs[v].Page? then PageSound(u, d.txs[v]) else WriterSound(u, d.txs[v])
    {
      if tx.Page? {
        if d.txs[v].Page? { PageCommitKeepsPage(s, tx, d.txs[v]); } else { PageCommitKeepsWriter(s, tx, d.txs[v]); }
      } else {
        if d.txs[v].Page? { WriterCommitKeepsPage(s, tx, d.txs[v]); } else { WriterCommitKeepsWriter(s, tx, d.txs[v]); }
      }
    }
  }

  lemma CommittedIs(d: Database, t: TxId, a: Action)
    requires Enabled(d, t, a) && (a.CommitPage? || a.CommitWriter?)
    ensures Do(d, t, a)
         == Database(if d.txs[t].Page? then AfterPage(d.committed, d.txs[t]) else AfterWriter(d.committed, d.txs[t]),
                     d.txs - {t})
  {
    hide T.Swept;
  }

  /** A step inside one transaction keeps everything sound when that transaction stays
      sound and exclusive of each other one. */
  lemma OneTxChanges(d: Database, t: TxId, tx: Tx)
    requires Sound(d)
    requires if tx.Page? then PageSound(d.committed, tx) else WriterSound(d.committed, tx)
    requires forall u :: u in d.txs && u != t ==> Exclusive(tx, d.txs[u])
    ensures Sound(d.(txs := d.txs[t := tx]))
  {
    hide PageSound, WriterSound, NoOrphans;
    forall u | u in d.txs && u != t ensures Exclusive(d.txs[u], tx) { ExclusiveIsSymmetric(tx, d.txs[u]); }
  }

  lemma ExclusiveIsSymmetric(a: Tx, b: Tx)
    requires Exclusive(a, b)
    ensures Exclusive(b, a)
  {
  }

  lemma PageStepKeepsSound(d: Database, t: TxId, a: Action)
    requires Sound(d) && Enabled(d, t, a)
    requires a.BeginPage? || a.Select? || a.ReadRows? || a.LockRows? || a.Strip? || a.Purge?
    ensures Sound(Do(d, t, a))
  {
    var tx := Do(d, t, a).txs[t];
    PageStepIsSound(d, t, a);
    hide T.Eligible, PageSound, WriterSound, NoOrphans;
    OneTxChanges(d, t, tx);
  }

  lemma PageStepIsSound(d: Database, t: TxId, a: Action)
    requires Sound(d) && Enabled(d, t, a)
    requires a.BeginPage? || a.Select? || a.ReadRows? || a.LockRows? || a.Strip? || a.Purge?
    ensures var tx := Do(d, t, a).txs[t];
            && tx.Page? && PageSound(d.committed, tx)
            && Do(d, t, a) == d.(txs := d.txs[t := tx])
            && forall u :: u in d.txs && u != t ==> Exclusive(tx, d.txs[u])
  {
    hide Listed, WriterSound, NoOrphans;
  }

  lemma WriterStepIsSound(d: Database, t: TxId, a: Action)
    requires Sound(d) && Enabled(d, t, a) && (a.BeginWriter? || a.WriteRow? || a.WriteJob?)
    ensures var tx := Do(d, t, a).txs[t];
            && tx.Writer? && WriterSound(d.committed, tx)
            && Do(d, t, a) == d.(txs := d.txs[t := tx])
            && forall u :: u in d.txs && u != t ==> Exclusive(tx, d.txs[u])
  {
    hide T.Eligible, PageSound;
  }

  lemma StepKeepsSound(d: Database, t: TxId, a: Action)
    requires Sound(d) && Enabled(d, t, a)
    ensures Sound(Do(d, t, a))
  {
    hide T.Eligible, PageSound, WriterSound, NoOrphans, Enabled, Do;
    if a.CommitPage? || a.CommitWriter? {
      CommitKeepsSound(d, t, a);
    } else if a.BeginWriter? || a.WriteRow? || a.WriteJob? {
      WriterStepIsSound(d, t, a);
      OneTxChanges(d, t, Do(d, t, a).txs[t]);
    } else if a.Abort? {
      AbortIs(d, t, a);
    } else {
      PageStepKeepsSound(d, t, a);
    }
  }

  lemma AbortIs(d: Database, t: TxId, a: Action)
    requires Enabled(d, t, a) && a.Abort?
    ensures Do(d, t, a) == d.(txs := d.txs - {t})
  {
  }

  // ---------- Over whole interleavings ----------

  datatype Event = Event(tx: TxId, action: Action)

  /** A schedule: each event enabled where it happens. */
  predicate Schedule(d: Database, events: seq<Event>)
    decreases |events|
  {
    events != [] ==>
      && Enabled(d, events[0].tx, events[0].action)
      && Schedule(Do(d, events[0].tx, events[0].action), events[1..])
  }

  function After(d: Database, events: seq<Event>): Database
    requires Schedule(d, events)
    decreases |events|
  {
    if events == [] then d else After(Do(d, events[0].tx, events[0].action), events[1..])
  }

  lemma {:induction false} EveryInterleavingIsSound(d: Database, events: seq<Event>)
    requires Sound(d) && Schedule(d, events)
    ensures Sound(After(d, events))
    decreases |events|
  {
    if events != [] {
      hide Sound, Enabled, Do;
      StepKeepsSound(d, events[0].tx, events[0].action);
      EveryInterleavingIsSound(Do(d, events[0].tx, events[0].action), events[1..]);
    }
  }

  lemma QuietIsSound(s: State)
    requires NoOrphans(s)
    ensures Sound(Database(s, map[]))
  {
  }

  /** What a page's commit does to one job: nothing, unless the job is a candidate at
      that moment. */
  lemma CommitTakesCandidates(d: Database, t: TxId, j: JobId)
    requires Sound(d) && Enabled(d, t, CommitPage) && j in d.committed.jobs
    ensures var after := Do(d, t, CommitPage).committed;
            T.Eligible(d.committed, d.txs[t].cutoff, j)
            || (j in after.jobs && after.jobs[j] == d.committed.jobs[j]
                && forall k :: k in d.committed.rows && d.committed.rows[k].job == j ==>
                     k in after.rows && after.rows[k] == d.committed.rows[k])
  {
    hide AfterPage, Do, T.Eligible, WriterSound, T.Swept;
    CommittedIs(d, t, CommitPage);
    assert PageSound(d.committed, d.txs[t]);
    TakesOnlyReach(d.committed, d.txs[t]);
  }

  /** After any interleaving: every row has its job, and a page that commits next
      deletes or anonymises only jobs that are candidates at that very moment, so none
      with a committed live row; every other job keeps its content and its rows. */
  lemma NoListedJobIsTaken(d: Database, events: seq<Event>, t: TxId, j: JobId)
    requires Sound(d) && Schedule(d, events) && Enabled(After(d, events), t, CommitPage)
    requires j in After(d, events).committed.jobs
    ensures var before := After(d, events);
            var after := Do(before, t, CommitPage).committed;
            && NoOrphans(before.committed) && NoOrphans(after)
            && (if T.Eligible(before.committed, before.txs[t].cutoff, j) then !Listed(before.committed, j)
                else
                  && j in after.jobs && after.jobs[j] == before.committed.jobs[j]
                  && forall k :: k in before.committed.rows && before.committed.rows[k].job == j ==>
                       k in after.rows && after.rows[k] == before.committed.rows[k])
  {
    EveryInterleavingIsSound(d, events);
    var before := After(d, events);
    hide After, Schedule, Do, T.Eligible, PageSound, WriterSound, Exclusive;
    StepKeepsSound(before, t, CommitPage);
    CommitTakesCandidates(before, t, j);
    EligibleIsUnlisted(before.committed, before.txs[t].cutoff, j);
  }

  /** What a page commits is one page of the retention rule on what is committed by then: the
      jobs it stripped as the referenced ones, and those it deleted as the others. */
  lemma CommitIsAPage(d: Database, t: TxId)
    requires Sound(d) && Enabled(d, t, CommitPage)
    ensures var tx := d.txs[t];
            Do(d, t, CommitPage).committed
            == T.Page(d.committed, tx.stage.stripped + tx.stage.deleted, tx.stage.stripped, tx.cutoff, tx.at, tx.stamp)
  {
    hide T.Page, T.Swept, T.Eligible, WriterSound, Exclusive;
    var tx := d.txs[t];
    assert PageSound(d.committed, tx);
    var page := tx.stage.stripped + tx.stage.deleted;
    EligibleAreCandidates(d.committed, page, tx.cutoff);
    T.PageIsASweep(d.committed, page, tx.stage.stripped, tx.cutoff, tx.at, tx.stamp);
  }

  lemma EligibleAreCandidates(s: State, page: set<JobId>, cutoff: Instant)
    requires forall j :: j in page ==> T.Eligible(s, cutoff, j)
    ensures page <= T.Candidates(s, cutoff)
  {
  }

  /** The writers of a schedule are transactions of the lifecycle: each commit keeps its invariant. */
  predicate WritersKeepValid(m: Matching, d: Database, events: seq<Event>)
    requires Schedule(d, events)
    decreases |events|
  {
    events != [] ==>
      var next := Do(d, events[0].tx, events[0].action);
      && (events[0].action.CommitWriter? && L.Valid(m, d.committed) ==> L.Valid(m, next.committed))
      && WritersKeepValid(m, next, events[1..])
  }

  lemma StepKeepsValid(m: Matching, d: Database, t: TxId, a: Action)
    requires Sound(d) && Enabled(d, t, a) && L.Valid(m, d.committed)
    requires a.CommitWriter? ==> L.Valid(m, Do(d, t, a).committed)
    ensures L.Valid(m, Do(d, t, a).committed)
  {
    hide L.Valid, Sound, T.Page, T.Swept, T.Eligible, L.Apply;
    if a.CommitPage? {
      CommitIsAPage(d, t);
      var tx := d.txs[t];
      var page := tx.stage.stripped + tx.stage.deleted;
      PageIsAStep(m, d.committed, page, tx.stage.stripped, tx.cutoff, tx.at, tx.stamp);
    }
  }

  lemma PageIsAStep(
    m: Matching, s: State, page: set<JobId>, referenced: set<JobId>, cutoff: Instant, at: Instant, stamp: Instant)
    requires L.Valid(m, s)
    ensures L.Valid(m, T.Page(s, page, referenced, cutoff, at, stamp))
  {
    hide L.Valid, T.Page;
    L.StepKeepsValid(m, s, L.Retain(page, referenced, cutoff, at, stamp));
  }

  /** Pages interleaved statement by statement with such writers keep the lifecycle invariant. */
  lemma {:induction false} InterleavedPagesKeepValid(m: Matching, d: Database, events: seq<Event>)
    requires Sound(d) && Schedule(d, events) && WritersKeepValid(m, d, events) && L.Valid(m, d.committed)
    ensures L.Valid(m, After(d, events).committed)
    decreases |events|
  {
    if events != [] {
      hide Sound, Enabled, Do, L.Valid;
      StepKeepsSound(d, events[0].tx, events[0].action);
      StepKeepsValid(m, d, events[0].tx, events[0].action);
      InterleavedPagesKeepValid(m, Do(d, events[0].tx, events[0].action), events[1..]);
    }
  }

  lemma EligibleIsUnlisted(s: State, cutoff: Instant, j: JobId)
    ensures T.Eligible(s, cutoff, j) ==> !Listed(s, j)
  {
  }

  lemma TakesOnlyReach(s: State, p: Tx)
    requires p.Page? && p.stage.Purged?
    ensures var t := AfterPage(s, p);
            forall j :: j in s.jobs && j !in Reach(p.stage) ==>
              j in t.jobs && t.jobs[j] == s.jobs[j]
              && forall k :: k in s.rows && s.rows[k].job == j ==> k in t.rows && t.rows[k] == s.rows[k]
  {
  }

  /** What the next statement of a page updates or deletes: stripping may update any of
      its jobs, purging deletes from what is left, and committing holds on to both. Its
      two selects skip what others hold, so they touch nothing they could wait for. */
  function Touches(stage: Stage): (touched: set<JobId>)
    ensures touched <= Reach(stage)
  {
    match stage
    case Locked(page) => page
    case Stripping(rest, stripped) => rest + stripped
    case Purged(stripped, deleted) => stripped + deleted
    case _ => {}
  }

  /** `u` holds something the next statement of page `t` must have before it can finish:
      one of the jobs it touches, or one of their rows. */
  predicate PageWaitsFor(d: Database, t: TxId, u: TxId)
    requires t in d.txs && u in d.txs && d.txs[t].Page?
  {
    var touched := Touches(d.txs[t].stage);
    || !(touched !! d.txs[u].jobLocks)
    || !(touched !! Shares(d.txs[u]))
    || !(RowsOf(d.committed, touched) !! d.txs[u].rowLocks)
  }

  /** The page after any interleaving has a next step of its own, and waits for nobody:
      whoever else waits, no circle of waiting passes through a page. */
  lemma PagesNeverWait(d: Database, events: seq<Event>, t: TxId)
    requires Sound(d) && Schedule(d, events)
    requires t in After(d, events).txs && After(d, events).txs[t].Page?
    ensures var now := After(d, events);
            && (forall u :: u in now.txs && u != t ==> !PageWaitsFor(now, t, u))
            && Enabled(now, t, NextOfPage(now.txs[t].stage))
  {
    EveryInterleavingIsSound(d, events);
    var now := After(d, events);
    hide T.Eligible, WriterSound, After, Schedule;
    assert PageSound(now.committed, now.txs[t]);
    forall u | u in now.txs && u != t ensures !PageWaitsFor(now, t, u) {
      assert Exclusive(now.txs[t], now.txs[u]);
      assert Touches(now.txs[t].stage) <= now.txs[t].jobLocks;
      assert RowsOf(now.committed, Touches(now.txs[t].stage)) <= now.txs[t].rowLocks;
    }
  }

  /** From a catalogue at rest, with no transaction open, every interleaving of pages and
      writers leaves no row without its job, and every page that is open in it spares
      the listed jobs when it commits and waits for nobody until then. */
  lemma BesideIngestion(s: State, events: seq<Event>)
    requires NoOrphans(s) && Schedule(Database(s, map[]), events)
    ensures var now := After(Database(s, map[]), events);
            && NoOrphans(now.committed)
            && (forall t, u :: t in now.txs && u in now.txs && t != u && now.txs[t].Page? ==> !PageWaitsFor(now, t, u))
            && (forall t, j :: Enabled(now, t, CommitPage) && j in now.committed.jobs && Listed(now.committed, j) ==>
                  && j in Do(now, t, CommitPage).committed.jobs
                  && Do(now, t, CommitPage).committed.jobs[j] == now.committed.jobs[j])
  {
    var d := Database(s, map[]);
    QuietIsSound(s);
    EveryInterleavingIsSound(d, events);
    var now := After(d, events);
    hide After, Schedule, Sound, Enabled, Do, PageWaitsFor, Listed;
    SoundHasNoOrphans(now);
    forall t, u | t in now.txs && u in now.txs && t != u && now.txs[t].Page? ensures !PageWaitsFor(now, t, u) {
      PagesNeverWait(d, events, t);
    }
    forall t, j | Enabled(now, t, CommitPage) && j in now.committed.jobs && Listed(now.committed, j)
      ensures j in Do(now, t, CommitPage).committed.jobs
      ensures Do(now, t, CommitPage).committed.jobs[j] == now.committed.jobs[j]
    {
      CommitTakesCandidates(now, t, j);
      EligibleIsUnlisted(now.committed, now.txs[t].cutoff, j);
    }
  }

  lemma SoundHasNoOrphans(d: Database)
    requires Sound(d)
    ensures NoOrphans(d.committed)
  {
  }

  /** The statement a page runs next; it may always select nothing and strip nothing. */
  function NextOfPage(stage: Stage): Action {
    match stage
    case Selecting => Select({})
    case Selected(_) => ReadRows
    case HasRead(_, _) => LockRows
    case Locked(_) => Strip({})
    case Stripping(_, _) => Purge
    case Purged(_, _) => CommitPage
  }

  // ---------- What a page and a writer get done ----------

  /** The jobs of a page none of whose rows anybody else holds. */
  function Unheld(d: Database, t: TxId, page: set<JobId>): set<JobId> {
    set j | j in page && forall k :: k in d.committed.rows && d.committed.rows[k].job == j ==> RowFree(d, t, k)
  }

  function PageEvents(
    t: TxId, cutoff: Instant, at: Instant, stamp: Instant, chosen: set<JobId>, referenced: set<JobId>): seq<Event>
  {
    [Event(t, BeginPage(cutoff, at, stamp)), Event(t, Select(chosen)), Event(t, ReadRows), Event(t, LockRows),
     Event(t, Strip(referenced)), Event(t, Purge), Event(t, CommitPage)]
  }

  /** Locking passes over exactly the jobs with a row somebody else holds. */
  lemma LocksWhatIsUnheld(d: Database, t: TxId)
    requires Enabled(d, t, LockRows) && d.txs[t].stage.listed == RowsOf(d.committed, d.txs[t].stage.page)
    ensures var page := d.txs[t].stage.page;
      var rows := set k | k in RowsOf(d.committed, page) && RowFree(d, t, k);
      Do(d, t, LockRows)
      == d.(txs := d.txs[t := d.txs[t].(stage := Locked(Unheld(d, t, page)), rowLocks := rows)])
  {
    var page := d.txs[t].stage.page;
    var locked := set k | k in RowsOf(d.committed, page) && RowFree(d, t, k);
    var held := set k | k in d.txs[t].stage.listed && k !in locked && k in d.committed.rows :: d.committed.rows[k].job;
    assert page - held == Unheld(d, t, page);
  }

  lemma Prepend(d: Database, e: Event, rest: seq<Event>, end: Database)
    requires Enabled(d, e.tx, e.action)
    requires Schedule(Do(d, e.tx, e.action), rest) && After(Do(d, e.tx, e.action), rest) == end
    ensures Schedule(d, [e] + rest) && After(d, [e] + rest) == end
  {
    assert ([e] + rest)[1..] == rest;
  }

  /** What a transaction sees of the others does not depend on itself. */
  lemma SameOthers(d: Database, now: Database, t: TxId)
    requires t !in d.txs && now.committed == d.committed && t in now.txs && now.txs == d.txs[t := now.txs[t]]
    ensures forall k :: RowFree(now, t, k) <==> RowFree(d, t, k)
    ensures forall j :: JobFree(now, t, j) <==> JobFree(d, t, j)
    ensures forall page :: Unheld(now, t, page) == Unheld(d, t, page)
  {
    assert forall u :: u in now.txs && u != t <==> u in d.txs;
  }

  /** A page nobody interrupts does the retention rule to all the jobs it chose that nobody
      holds a row of, whatever other transactions are open. */
  lemma UninterruptedPage(
    d: Database, t: TxId, cutoff: Instant, at: Instant, stamp: Instant, chosen: set<JobId>, referenced: set<JobId>)
    requires t !in d.txs && forall j :: j in chosen ==> T.Eligible(d.committed, cutoff, j) && JobFree(d, t, j)
    ensures var events := PageEvents(t, cutoff, at, stamp, chosen, referenced);
      && Schedule(d, events)
      && After(d, events)
         == Database(T.Page(d.committed, Unheld(d, t, chosen), referenced, cutoff, at, stamp), d.txs)
  {
    var locked := PageLocks(d, t, cutoff, at, stamp, chosen);
    var tail := PageActs(d, locked, t, Unheld(d, t, chosen), referenced);
    var end := After(locked, tail);
    var begun := Do(d, t, BeginPage(cutoff, at, stamp));
    SameOthers(d, begun, t);
    var selected := Do(begun, t, Select(chosen));
    var read := Do(selected, t, ReadRows);
    hide Enabled, Do, After, Schedule, T.Eligible, T.Page;
    Prepend(read, Event(t, LockRows), tail, end);
    Prepend(selected, Event(t, ReadRows), [Event(t, LockRows)] + tail, end);
    Prepend(begun, Event(t, Select(chosen)), [Event(t, ReadRows)] + ([Event(t, LockRows)] + tail), end);
    Prepend(d, Event(t, BeginPage(cutoff, at, stamp)),
            [Event(t, Select(chosen))] + ([Event(t, ReadRows)] + ([Event(t, LockRows)] + tail)), end);
    assert PageEvents(t, cutoff, at, stamp, chosen, referenced)
        == [Event(t, BeginPage(cutoff, at, stamp))]
           + ([Event(t, Select(chosen))] + ([Event(t, ReadRows)] + ([Event(t, LockRows)] + tail)));
  }

  lemma PageLocks(d: Database, t: TxId, cutoff: Instant, at: Instant, stamp: Instant, chosen: set<JobId>)
    returns (locked: Database)
    requires t !in d.txs && forall j :: j in chosen ==> T.Eligible(d.committed, cutoff, j) && JobFree(d, t, j)
    ensures Enabled(d, t, BeginPage(cutoff, at, stamp))
    ensures var begun := Do(d, t, BeginPage(cutoff, at, stamp));
      && Enabled(begun, t, Select(chosen))
      && var selected := Do(begun, t, Select(chosen));
      && Enabled(selected, t, ReadRows)
      && var read := Do(selected, t, ReadRows);
      && Enabled(read, t, LockRows) && locked == Do(read, t, LockRows)
    ensures t in locked.txs && locked == Database(d.committed, d.txs[t := locked.txs[t]])
    ensures var p := locked.txs[t];
      p.Page? && p.stage == Locked(Unheld(d, t, chosen)) && (p.cutoff, p.at, p.stamp) == (cutoff, at, stamp)
  {
    hide T.Eligible, Unheld;
    var begun := Do(d, t, BeginPage(cutoff, at, stamp));
    SameOthers(d, begun, t);
    var selected := Do(begun, t, Select(chosen));
    SameOthers(d, selected, t);
    var read := Do(selected, t, ReadRows);
    SameOthers(d, read, t);
    LocksWhatIsUnheld(read, t);
    locked := Do(read, t, LockRows);
  }

  lemma PageActs(d: Database, locked: Database, t: TxId, page: set<JobId>, referenced: set<JobId>)
    returns (events: seq<Event>)
    requires t !in d.txs && t in locked.txs && locked == Database(d.committed, d.txs[t := locked.txs[t]])
    requires locked.txs[t].Page? && locked.txs[t].stage == Locked(page)
    requires forall j :: j in page ==> T.Eligible(d.committed, locked.txs[t].cutoff, j)
    ensures events == [Event(t, Strip(referenced)), Event(t, Purge), Event(t, CommitPage)] && Schedule(locked, events)
    ensures var p := locked.txs[t];
      After(locked, events) == Database(T.Page(d.committed, page, referenced, p.cutoff, p.at, p.stamp), d.txs)
  {
    hide T.Page, T.Swept, T.Eligible, T.Candidates;
    var p := locked.txs[t];
    EligibleAreCandidates(d.committed, page, p.cutoff);
    T.PageIsASweep(d.committed, page, referenced, p.cutoff, p.at, p.stamp);
    var stripping := Do(locked, t, Strip(referenced));
    assert page * referenced * T.Candidates(d.committed, p.cutoff) == page * referenced;
    var purged := Do(stripping, t, Purge);
    assert (page - referenced) * T.Candidates(d.committed, p.cutoff) == page - referenced;
    var end := Do(purged, t, CommitPage);
    assert page * referenced + (page - referenced) == page;
    SameSweep(d.committed, page, page * referenced, referenced, p.at, p.stamp);
    assert end.txs == d.txs;
    assert After(end, []) == end;
    Prepend(purged, Event(t, CommitPage), [], end);
    Prepend(stripping, Event(t, Purge), [Event(t, CommitPage)] + [], end);
    Prepend(locked, Event(t, Strip(referenced)), [Event(t, Purge)] + ([Event(t, CommitPage)] + []), end);
    events := [Event(t, Strip(referenced))] + ([Event(t, Purge)] + ([Event(t, CommitPage)] + []));
  }

  lemma SameSweep(s: State, page: set<JobId>, a: set<JobId>, b: set<JobId>, at: Instant, stamp: Instant)
    requires page - a == page - b
    ensures T.Swept(s, page, a, at, stamp) == T.Swept(s, page, b, at, stamp)
  {
  }

  predicate IsWrite(a: Action) { a.WriteRow? || a.WriteJob? }

  /** The writes applied to the tables one after the other. */
  function Landed(s: State, writes: seq<Action>): State
    decreases |writes|
  {
    if writes == [] then s else Landed(Write(s, writes[0]), writes[1..])
  }

  function Write(s: State, a: Action): State {
    match a
    case WriteRow(k, row) => s.(rows := s.rows[k := row])
    case WriteJob(j, job) => s.(jobs := s.jobs[j := job])
    case _ => s
  }

  function WriterEvents(t: TxId, writes: seq<Action>): seq<Event> {
    if writes == [] then [Event(t, CommitWriter)] else [Event(t, writes[0])] + WriterEvents(t, writes[1..])
  }

  /** A writer nobody interrupts does what its writes do one after the other, the last one to
      each row and each job counting. */
  lemma {:induction false} UninterruptedWriter(d: Database, t: TxId, writes: seq<Action>)
    requires t in d.txs && d.txs[t].Writer? && forall i :: 0 <= i < |writes| ==> IsWrite(writes[i])
    requires Schedule(d, WriterEvents(t, writes))
    ensures After(d, WriterEvents(t, writes))
         == Database(Landed(AfterWriter(d.committed, d.txs[t]), writes), d.txs - {t})
    decreases |writes|
  {
    hide Enabled;
    if writes == [] {
      Ended(d, t);
    } else {
      var next := Do(d, t, writes[0]);
      assert WriterEvents(t, writes)[1..] == WriterEvents(t, writes[1..]);
      UninterruptedWriter(next, t, writes[1..]);
      OneWrite(d, t, writes[0]);
    }
  }

  /** So does one that begins where no transaction of its name is open. */
  lemma FreshWriter(d: Database, t: TxId, writes: seq<Action>)
    requires t !in d.txs && forall i :: 0 <= i < |writes| ==> IsWrite(writes[i])
    ensures Enabled(d, t, BeginWriter)
    ensures var events := [Event(t, BeginWriter)] + WriterEvents(t, writes);
      Schedule(d, events) ==> After(d, events) == Database(Landed(d.committed, writes), d.txs)
  {
    var begun := Do(d, t, BeginWriter);
    var events := [Event(t, BeginWriter)] + WriterEvents(t, writes);
    assert events[1..] == WriterEvents(t, writes);
    assert AfterWriter(d.committed, begun.txs[t]) == d.committed;
    assert begun.txs - {t} == d.txs;
    if Schedule(d, events) { UninterruptedWriter(begun, t, writes); }
  }

  lemma Ended(d: Database, t: TxId)
    requires t in d.txs && d.txs[t].Writer? && Schedule(d, [Event(t, CommitWriter)])
    ensures After(d, [Event(t, CommitWriter)]) == Database(AfterWriter(d.committed, d.txs[t]), d.txs - {t})
  {
    assert [Event(t, CommitWriter)][1..] == [];
    assert After(Do(d, t, CommitWriter), []) == Do(d, t, CommitWriter);
  }

  lemma OneWrite(d: Database, t: TxId, a: Action)
    requires t in d.txs && d.txs[t].Writer? && IsWrite(a) && Enabled(d, t, a)
    ensures var next := Do(d, t, a);
      && t in next.txs && next.txs[t].Writer? && next.committed == d.committed && next.txs - {t} == d.txs - {t}
      && AfterWriter(next.committed, next.txs[t]) == Write(AfterWriter(d.committed, d.txs[t]), a)
  {
    var tx := d.txs[t];
    match a {
      case WriteRow(k, row) =>
        WrittenRow(d.committed, tx, Do(d, t, a).txs[t], k, row);
        OthersStay(d, Do(d, t, a), t);
      case WriteJob(j, job) =>
        WrittenJob(d.committed, tx, Do(d, t, a).txs[t], j, job);
        OthersStay(d, Do(d, t, a), t);
    }
  }

  lemma WrittenRow(s: State, w: Tx, v: Tx, k: RowKey, row: Row)
    requires w.Writer? && v.Writer? && v.rows == w.rows[k := row] && v.jobs == w.jobs
    ensures AfterWriter(s, v) == Write(AfterWriter(s, w), WriteRow(k, row))
  {
    assert AfterWriter(s, v).rows == AfterWriter(s, w).rows[k := row];
  }

  lemma WrittenJob(s: State, w: Tx, v: Tx, j: JobId, job: Job)
    requires w.Writer? && v.Writer? && v.jobs == w.jobs[j := job] && v.rows == w.rows
    ensures AfterWriter(s, v) == Write(AfterWriter(s, w), WriteJob(j, job))
  {
    assert AfterWriter(s, v).jobs == AfterWriter(s, w).jobs[j := job];
  }

  lemma OthersStay(d: Database, next: Database, t: TxId)
    requires t in next.txs && next.txs == d.txs[t := next.txs[t]]
    ensures next.txs - {t} == d.txs - {t}
  {
  }
}
