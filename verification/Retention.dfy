/** Which jobs leave the catalogue, and what becomes of them, as a rule on sets. */
module Retention {
  import opened Wrappers
  import opened Sorting
  import opened Catalogue

  const ANONYMISED_DESCRIPTION := "Posting no longer available"

  /** The candidate predicate every statement of the pass restates. */
  predicate Eligible(s: State, cutoff: Instant, j: JobId) {
    && j in s.jobs
    && (s.jobs[j].status == Expired || s.jobs[j].status == Removed)
    && s.jobs[j].updatedAt < cutoff
    && s.jobs[j].anonymisedAt.None?
    && !Listed(s, j)
  }

  function Candidates(s: State, cutoff: Instant): (ids: set<JobId>)
    ensures ids <= s.jobs.Keys
  {
    set j | j in s.jobs && Eligible(s, cutoff, j)
  }

  function Stripped(job: Job, at: Instant, stamp: Instant): Job {
    job.(
      fields := job.fields.(
        description := ANONYMISED_DESCRIPTION, location := Missing, applicationUrl := ""),
      anonymisedAt := Some(at),
      updatedAt := stamp)
  }

  /** Strip what the still-eligible jobs said, and empty their payloads. */
  function Anonymise(s: State, ids: set<JobId>, cutoff: Instant, at: Instant, stamp: Instant): State {
    var confirmed := ids * Candidates(s, cutoff);
    s.(
      jobs := map j | j in s.jobs :: if j in confirmed then Stripped(s.jobs[j], at, stamp) else s.jobs[j],
      rows := map k | k in s.rows ::
        if s.rows[k].job in confirmed then s.rows[k].(payload := Payload.Emptied(at)) else s.rows[k])
  }

  /** Delete the still-eligible jobs with everything that hangs off them. */
  function Purge(s: State, ids: set<JobId>, cutoff: Instant): State {
    var confirmed := ids * Candidates(s, cutoff);
    s.(
      jobs := map j | j in s.jobs && j !in confirmed :: s.jobs[j],
      rows := map k | k in s.rows && s.rows[k].job !in confirmed :: s.rows[k])
  }

  /** One page: anonymise the referenced jobs, then delete the others. */
  function Page(
    s: State, page: set<JobId>, referenced: set<JobId>, cutoff: Instant, at: Instant, stamp: Instant): State
  {
    Purge(Anonymise(s, page * referenced, cutoff, at, stamp), page - referenced, cutoff)
  }

  // ---------- Paging ----------

  /** Where a job sits in a pass: oldest change first, then by identifier. */
  datatype PageKey = PageKey(updatedAt: Instant, id: JobId)

  predicate Earlier(a: PageKey, b: PageKey) {
    a.updatedAt < b.updatedAt || (a.updatedAt == b.updatedAt && a.id < b.id)
  }

  predicate Past(after: Option<PageKey>, k: PageKey) {
    after.Some? ==> Earlier(after.value, k)
  }

  function KeyOf(s: State, j: JobId): PageKey
    requires j in s.jobs
  {
    PageKey(s.jobs[j].updatedAt, j)
  }

  lemma EarlierIsTotal()
    ensures StrictTotal(Earlier)
  {
  }

  function Ahead(s: State, cutoff: Instant, after: Option<PageKey>): set<PageKey> {
    set j | j in Candidates(s, cutoff) && Past(after, KeyOf(s, j)) :: KeyOf(s, j)
  }

  /** The next candidates past `after`, oldest first, at most `size` of them. */
  function SelectPage(s: State, cutoff: Instant, size: nat, after: Option<PageKey>): seq<PageKey> {
    EarlierIsTotal();
    var sorted := Sorted(Ahead(s, cutoff, after), Earlier);
    if |sorted| <= size then sorted else sorted[..size]
  }

  /** A page holds candidates past its start, each once and in order, and leaves a
      candidate behind only when it is full and that candidate comes after all of it. */
  lemma PageIsTheNextOnes(s: State, cutoff: Instant, size: nat, after: Option<PageKey>, k: PageKey)
    ensures var page := SelectPage(s, cutoff, size, after);
            && |page| <= size
            && (forall i, j :: 0 <= i < j < |page| ==> Earlier(page[i], page[j]))
            && (k in page ==> k in Ahead(s, cutoff, after))
            && (k in Ahead(s, cutoff, after) && k !in page ==>
                  |page| == size && forall p :: p in page ==> Earlier(p, k))
  {
    hide Ahead;
    EarlierIsTotal();
    var keys := Ahead(s, cutoff, after);
    if |keys| > size && k in keys && k !in SelectPage(s, cutoff, size, after) {
      PrefixComesFirst(Sorted(keys, Earlier), Earlier, size, k);
    }
  }

  // ---------- The one-shot rule ----------

  /** The rule over any set of candidates at once: the unreferenced go with their
      rows, the referenced stay without their content. */
  function Swept(s: State, done: set<JobId>, referenced: set<JobId>, at: Instant, stamp: Instant): State {
    s.(
      jobs := map j | j in s.jobs && j !in done - referenced ::
        if j in done then Stripped(s.jobs[j], at, stamp) else s.jobs[j],
      rows := map k | k in s.rows && s.rows[k].job !in done - referenced ::
        if s.rows[k].job in done then s.rows[k].(payload := Payload.Emptied(at)) else s.rows[k])
  }

  lemma SweptRows(s: State, done: set<JobId>, referenced: set<JobId>, at: Instant, stamp: Instant, j: JobId)
    requires j !in done
    ensures Listed(Swept(s, done, referenced, at, stamp), j) <==> Listed(s, j)
  {
    var t := Swept(s, done, referenced, at, stamp);
    if Listed(s, j) {
      var k :| k in s.rows && s.rows[k].job == j && s.rows[k].retired.None?;
      assert k in t.rows && t.rows[k] == s.rows[k];
    }
    if Listed(t, j) {
      var k :| k in t.rows && t.rows[k].job == j && t.rows[k].retired.None?;
      assert k in s.rows;
    }
  }

  /** What has been swept is a candidate no longer; the rest still are, in their places. */
  lemma CandidatesLeft(
    s: State, done: set<JobId>, referenced: set<JobId>, cutoff: Instant, at: Instant, stamp: Instant)
    requires done <= Candidates(s, cutoff)
    ensures var t := Swept(s, done, referenced, at, stamp);
            && Candidates(t, cutoff) == Candidates(s, cutoff) - done
            && forall j :: j in Candidates(t, cutoff) ==> KeyOf(t, j) == KeyOf(s, j)
  {
    var t := Swept(s, done, referenced, at, stamp);
    forall j | j in s.jobs && j !in done ensures j in Candidates(t, cutoff) <==> j in Candidates(s, cutoff) {
      SweptRows(s, done, referenced, at, stamp, j);
    }
  }

  lemma AnonymisedSweep(
    t: State, page: set<JobId>, referenced: set<JobId>, cutoff: Instant, at: Instant, stamp: Instant)
    requires page <= Candidates(t, cutoff)
    ensures Anonymise(t, page * referenced, cutoff, at, stamp) == Swept(t, page * referenced, referenced, at, stamp)
  {
    assert page * referenced * Candidates(t, cutoff) == page * referenced;
    assert page * referenced - referenced == {};
  }

  /** One page does to its candidates what the one-shot rule does. */
  lemma PageIsASweep(
    t: State, page: set<JobId>, referenced: set<JobId>, cutoff: Instant, at: Instant, stamp: Instant)
    requires page <= Candidates(t, cutoff)
    ensures Page(t, page, referenced, cutoff, at, stamp) == Swept(t, page, referenced, at, stamp)
  {
    var stripped := page * referenced;
    AnonymisedSweep(t, page, referenced, cutoff, at, stamp);
    CandidatesLeft(t, stripped, referenced, cutoff, at, stamp);
    var u := Swept(t, stripped, referenced, at, stamp);
    assert (page - referenced) * Candidates(u, cutoff) == page - referenced;
    var v := Page(t, page, referenced, cutoff, at, stamp);
    assert v.jobs == Swept(t, page, referenced, at, stamp).jobs;
    assert v.rows == Swept(t, page, referenced, at, stamp).rows;
  }

  /** Sweeping in two parts is sweeping once. */
  lemma SweepsCompose(
    s: State, done: set<JobId>, page: set<JobId>, referenced: set<JobId>, at: Instant, stamp: Instant)
    requires done !! page
    ensures Swept(Swept(s, done, referenced, at, stamp), page, referenced, at, stamp)
         == Swept(s, done + page, referenced, at, stamp)
  {
    var t := Swept(Swept(s, done, referenced, at, stamp), page, referenced, at, stamp);
    var u := Swept(s, done + page, referenced, at, stamp);
    assert t.jobs == u.jobs;
    assert t.rows == u.rows;
  }
}
