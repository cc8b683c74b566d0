/** Deciding whether an incoming record is already stored. Nothing here writes. */
module Deduplication {
  import opened Wrappers
  import opened Catalogue

  datatype Decision =
    | New
    | Unchanged(job: JobId)
    | Changed(job: JobId)
    | Ambiguous(candidates: set<JobId>)

  predicate HasMaterialChange(stored: Canonical, incoming: Canonical) {
    || stored.title != incoming.title
    || stored.description != incoming.description
    || stored.location != incoming.location
    || stored.workplaceType != incoming.workplaceType
    || stored.employmentType != incoming.employmentType
    || stored.applicationUrl != incoming.applicationUrl
    || stored.publishedAt != incoming.publishedAt
    || stored.expiresAt != incoming.expiresAt
  }

  function Compare(s: State, j: JobId, r: Record): Decision
    requires j in s.jobs
  {
    if HasMaterialChange(s.jobs[j].fields, r.fields) then Changed(j) else Unchanged(j)
  }

  /** Any of the job's rows, retired or not, came from a snippet. */
  predicate PartiallyDescribed(s: State, j: JobId) {
    exists k :: k in s.rows && s.rows[k].job == j
                && s.rows[k].payload.Delivered? && s.rows[k].payload.partial
  }

  predicate DescribesTheSamePosting(m: Matching, stored: Job, r: Record, storedIsPartial: bool) {
    if !m.samePlace(stored.fields.location, r.fields.location) then false
    else if storedIsPartial || r.partial then false
    else m.readsTheSame(stored.fields.description, r.fields.description)
  }

  function Candidates(m: Matching, s: State, r: Record): set<JobId> {
    set j | j in s.jobs
            && s.jobs[j].matchKey == m.keyOf(r.company, r.fields.title)
            && DescribesTheSamePosting(m, s.jobs[j], r, PartiallyDescribed(s, j))
  }

  function TheOnly(s: set<JobId>): (j: JobId)
    requires |s| == 1
    ensures s == {j}
  {
    assert exists j :: j in s && s == {j} by {
      var j :| j in s;
      assert |s - {j}| == 0;
      assert s == {j};
    }
    var j :| j in s && s == {j};
    j
  }

  predicate KnownByProvenance(s: State, r: Record) {
    r.Key() in s.rows && s.rows[r.Key()].job in s.jobs
  }

  /** Provenance first, then identity; refuse to choose among several. */
  function Decide(m: Matching, s: State, r: Record): (d: Decision)
    ensures d.Unchanged? || d.Changed? ==> d.job in s.jobs
  {
    if KnownByProvenance(s, r) then Compare(s, s.rows[r.Key()].job, r)
    else
      var candidates := Candidates(m, s, r);
      if candidates == {} then New
      else if |candidates| > 1 then Ambiguous(candidates)
      else
        assert |candidates| == 1;
        Compare(s, TheOnly(candidates), r)
  }

  lemma MaterialIsAny(stored: Canonical, incoming: Canonical)
    ensures HasMaterialChange(stored, incoming) <==> stored != incoming
  {
  }

  /** When a stored job is the posting a record describes: the same employer and role, one
      place, both told in full by everyone who told them, and texts that read the same. */
  ghost predicate SamePosting(m: Matching, s: State, r: Record, j: JobId) {
    && j in s.jobs
    && s.jobs[j].matchKey == m.keyOf(r.company, r.fields.title)
    && m.samePlace(s.jobs[j].fields.location, r.fields.location)
    && !r.partial
    && (forall k, stated :: k in s.rows && s.rows[k].job == j ==> s.rows[k].payload != Delivered(true, stated))
    && m.readsTheSame(s.jobs[j].fields.description, r.fields.description)
  }

  lemma CandidateIff(m: Matching, s: State, r: Record, j: JobId)
    ensures j in Candidates(m, s, r) <==> SamePosting(m, s, r, j)
  {
    if PartiallyDescribed(s, j) {
      var k :| k in s.rows && s.rows[k].job == j && s.rows[k].payload.Delivered? && s.rows[k].payload.partial;
      assert s.rows[k].payload == Delivered(true, s.rows[k].payload.stated);
    }
  }

  /** What a decision says: the job of the record's own row if it has one; otherwise the only
      job that is the same posting, new without one and ambiguous with several. An unchanged
      job says exactly what the record says, a changed one does not. */
  lemma DecisionIs(m: Matching, s: State, r: Record)
    ensures var d, known := Decide(m, s, r), r.Key() in s.rows && s.rows[r.Key()].job in s.jobs;
      && (d.New? <==> !known && forall j :: !SamePosting(m, s, r, j))
      && (d.Ambiguous? <==> !known && exists i, j :: SamePosting(m, s, r, i) && SamePosting(m, s, r, j) && i != j)
      && (d.Ambiguous? ==> forall j :: j in d.candidates <==> SamePosting(m, s, r, j))
      && (d.Changed? || d.Unchanged? ==>
            && d.job in s.jobs
            && (if known then d.job == s.rows[r.Key()].job else forall j :: SamePosting(m, s, r, j) <==> j == d.job)
            && (d.Unchanged? <==> s.jobs[d.job].fields == r.fields))
  {
    hide DescribesTheSamePosting, Candidates, HasMaterialChange, SamePosting;
    forall j { CandidateIff(m, s, r, j); }
    var d, candidates := Decide(m, s, r), Candidates(m, s, r);
    if d.Changed? || d.Unchanged? { MaterialIsAny(s.jobs[d.job].fields, r.fields); }
    if d.Ambiguous? {
      var i :| i in candidates;
      assert candidates != {i};
    }
    if i, j :| i in candidates && j in candidates && i != j {
      assert candidates != {i} && candidates - {i} != {};
    }
  }
}
