/** Applying one deduplication decision to the catalogue, as one transaction. */
module Persistence {
  import opened Extremes
  import opened Wrappers
  import opened Catalogue
  import opened Ownership
  import opened Deduplication

  datatype Outcome = Created | Updated | Skipped

  /** What happened to one record. `failed` marks a record that could not be written. */
  datatype Report = Report(outcome: Outcome, job: Option<JobId>, failed: bool)

  const REFUSED := Report(Skipped, None, true)

  function Register(s: State, reg: Registration): State {
    s.(sources := s.sources[reg.key := reg.precedence])
  }

  /** The stored company of this normalized name, the oldest if several. */
  function CompanyFor(m: Matching, companies: seq<string>, name: string): (company: string)
    ensures m.normalizeCompany(company) == m.normalizeCompany(name)
    ensures company in companies || company == name
  {
    if companies == [] then name
    else if m.normalizeCompany(companies[0]) == m.normalizeCompany(name) then companies[0]
    else CompanyFor(m, companies[1..], name)
  }

  /** The oldest of the companies that match is taken, and a new one only where none does. */
  lemma {:induction false} TheOldestMatchWins(m: Matching, companies: seq<string>, name: string)
    ensures if exists i :: 0 <= i < |companies| && m.normalizeCompany(companies[i]) == m.normalizeCompany(name) then
              exists i :: 0 <= i < |companies| && companies[i] == CompanyFor(m, companies, name)
                && forall k :: 0 <= k < i ==> m.normalizeCompany(companies[k]) != m.normalizeCompany(name)
            else CompanyFor(m, companies, name) == name
  {
    if companies != [] && m.normalizeCompany(companies[0]) != m.normalizeCompany(name) {
      var rest := companies[1..];
      TheOldestMatchWins(m, rest, name);
      if i :| 0 <= i < |rest| && rest[i] == CompanyFor(m, rest, name)
              && forall k :: 0 <= k < i ==> m.normalizeCompany(rest[k]) != m.normalizeCompany(name) {
        assert companies[i + 1] == rest[i];
        assert forall k :: 1 <= k < i + 1 ==> companies[k] == rest[k - 1];
      }
      if i :| 0 <= i < |companies| && m.normalizeCompany(companies[i]) == m.normalizeCompany(name) {
        assert rest[i - 1] == companies[i];
      }
    }
  }

  function WithCompany(companies: seq<string>, company: string): (all: seq<string>)
    ensures company in all && companies <= all
  {
    if company in companies then companies else companies + [company]
  }

  /** Insert the row, or refresh the one already there; either way it is live. */
  function Observe(rows: map<RowKey, Row>, r: Record, j: JobId, seenAt: Instant): map<RowKey, Row> {
    var row :=
      if r.Key() in rows then
        var before := rows[r.Key()];
        before.(
          url := r.url,
          firstSeen := Min(before.firstSeen, seenAt),
          lastSeen := Max(before.lastSeen, seenAt),
          payload := StoredPayload(r),
          retired := None)
      else Row(j, r.url, seenAt, seenAt, None, StoredPayload(r));
    rows[r.Key() := row]
  }

  /** The job with new fields and key, no longer withdrawn. The change stamp moves
      exactly when something else did. */
  function Revised(job: Job, fields: Canonical, matchKey: string, now: Instant): Job {
    var status := if job.status == Removed then Active else job.status;
    var revised := job.(fields := fields, matchKey := matchKey, status := status);
    if revised == job then job else revised.(updatedAt := now)
  }

  /** The record lands on stored job `j`, whose fields become `fields`. */
  function Land(
    s: State, j: JobId, fields: Canonical, matchKey: string, r: Record, seenAt: Instant, now: Instant): State
    requires j in s.jobs
  {
    s.(
      jobs := s.jobs[j := Revised(s.jobs[j], fields, matchKey, now)],
      rows := Observe(s.rows, r, j, seenAt))
  }

  function CreateJob(
    m: Matching, s: State, reg: Registration, r: Record, seenAt: Instant, now: Instant): (State, Report)
  {
    var company := CompanyFor(m, s.companies, r.company);
    var job := Job(company, m.keyOf(company, r.fields.title), r.fields, Active, now, None);
    if !r.fields.DatesInOrder() then (s, REFUSED)
    else
      (Register(s, reg).(
         jobs := s.jobs[s.nextJob := job],
         rows := Observe(s.rows, r, s.nextJob, seenAt),
         companies := WithCompany(s.companies, company),
         nextJob := s.nextJob + 1),
       Report(Created, Some(s.nextJob), false))
  }

  /** The fields the job would hold after folding the record in. */
  function Folded(
    s: State, j: JobId, reg: Registration, r: Record, seenAt: Instant): Canonical
    requires j in s.jobs
  {
    Merge(s.jobs[j].fields, r.fields, IncomingOutranks(Register(s, reg), j, reg, r, seenAt))
  }

  function UpdateJob(
    m: Matching, s: State, j: JobId, reg: Registration, r: Record, seenAt: Instant, now: Instant): (State, Report)
    requires j in s.jobs
  {
    var fields := Folded(s, j, reg, r, seenAt);
    var matchKey := m.keyOf(s.jobs[j].company, fields.title);
    var outcome :=
      if fields != s.jobs[j].fields || matchKey != s.jobs[j].matchKey then Updated else Skipped;
    if !fields.DatesInOrder() then (s, REFUSED)
    else (Land(Register(s, reg), j, fields, matchKey, r, seenAt, now), Report(outcome, Some(j), false))
  }

  /** One record, in one savepoint: the whole effect, or none and a failure. */
  function Persist(
    m: Matching, s: State, reg: Registration, r: Record, seenAt: Instant, now: Instant): (State, Report)
  {
    if reg.key != r.source then (s, REFUSED)
    else
      match Decide(m, s, r)
      case Ambiguous(_) => (s, REFUSED)
      case New => CreateJob(m, s, reg, r, seenAt, now)
      case Unchanged(j) =>
        (Land(Register(s, reg), j, s.jobs[j].fields, s.jobs[j].matchKey, r, seenAt, now),
         Report(Skipped, Some(j), false))
      case Changed(j) => UpdateJob(m, s, j, reg, r, seenAt, now)
  }
}
