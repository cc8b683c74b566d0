/** Concluding, from what a run did not see, that postings are gone. */
module Reconciliation {
  import opened Wrappers
  import opened Catalogue
  import opened Contracts

  datatype Refusal = EmptyRun | StoppedAtBudget | EndNotReached | HadFailures | Unfinished

  /** The first ground, in this order, on which the run proves nothing about absence. */
  function WhyNot(summary: Summary): Option<Refusal> {
    if summary.fetched == 0 then Some(EmptyRun)
    else if summary.stoppedAtBudget then Some(StoppedAtBudget)
    else if !summary.reachedTheEnd then Some(EndNotReached)
    else if summary.failures != [] then Some(HadFailures)
    else if !summary.ProcessingComplete() then Some(Unfinished)
    else None
  }

  predicate MayAgeOut(summary: Summary) {
    && summary.retireUnseenAfter.Some?
    && summary.fetched > 0
    && !summary.stoppedAtBudget
    && summary.AccountedFor()
  }

  datatype Rule = Refused | Exhausted | Aged

  function RuleOf(summary: Summary): Rule {
    if WhyNot(summary).None? then Exhausted
    else if MayAgeOut(summary) then Aged
    else Refused
  }

  /** The run saw something, reached the end within its budget, failed at nothing and stored
      or skipped all of it. */
  predicate SawItAll(summary: Summary) {
    && summary.fetched > 0 && summary.reachedTheEnd && !summary.stoppedAtBudget && summary.failures == []
    && summary.fetched == summary.created + summary.updated + summary.skipped
  }

  /** The source has a lifetime, and the run saw something, kept within its budget and lost
      nothing without a rejection to show for it. */
  predicate LostNothing(summary: Summary) {
    && summary.retireUnseenAfter.Some? && summary.fetched > 0 && !summary.stoppedAtBudget
    && summary.fetched == summary.created + summary.updated + summary.skipped
       + |set i | 0 <= i < |summary.failures| && summary.failures[i] in {Validate, Normalize}|
  }

  /** A run is licensed by exhaustion exactly when it saw everything, and by lifetime when it
      did not but lost nothing; otherwise it concludes nothing. */
  lemma RulesOfASummary(summary: Summary)
    ensures RuleOf(summary) == Exhausted <==> SawItAll(summary)
    ensures RuleOf(summary) == Aged <==> LostNothing(summary) && !SawItAll(summary)
    ensures SawItAll(summary) <==> summary.fetched > 0 && summary.SourceExhausted()
    ensures summary.SourceExhausted() ==> summary.ProcessingComplete() && summary.AccountedFor()
  {
    RejectionsCounted(summary.failures);
  }

  lemma {:induction false} RejectionsCounted(failures: seq<Stage>)
    ensures Rejected(failures) == |set i | 0 <= i < |failures| && failures[i] in {Validate, Normalize}|
  {
    if failures != [] {
      var last := |failures| - 1;
      var before := failures[..last];
      RejectionsCounted(before);
      assert failures == before + [failures[last]];
      RejectedOfConcat(before, [failures[last]]);
      var earlier := set i | 0 <= i < |before| && before[i] in {Validate, Normalize};
      assert (set i | 0 <= i < |failures| && failures[i] in {Validate, Normalize})
          == earlier + if failures[last] in {Validate, Normalize} then {last} else {};
    }
  }

  /** What counts as unseen: last seen before the run, or a lifetime before it. */
  function UnseenBefore(summary: Summary, runStarted: Instant): (line: Instant)
    requires RuleOf(summary) != Refused
    ensures line <= runStarted
    ensures SawItAll(summary) ==> line == runStarted
    ensures !SawItAll(summary) ==>
      summary.retireUnseenAfter.Some? && line + summary.retireUnseenAfter.value == runStarted
  {
    if RuleOf(summary) == Exhausted then runStarted else runStarted - summary.retireUnseenAfter.value
  }

  function Unseen(rows: map<RowKey, Row>, source: SourceKey, before: Instant): set<RowKey> {
    set k | k in rows && k.source == source && rows[k].retired.None? && rows[k].lastSeen < before
  }

  function Retire(rows: map<RowKey, Row>, gone: set<RowKey>, at: Instant): map<RowKey, Row> {
    map k | k in rows :: if k in gone then rows[k].(retired := Some(at)) else rows[k]
  }

  predicate Withdrawable(s: State, j: JobId) {
    j in s.jobs && !Listed(s, j) && s.jobs[j].status != Removed
  }

  /** Mark removed every named job that no source lists any more. */
  function Withdraw(s: State, ids: set<JobId>, now: Instant): State {
    s.(jobs := map j | j in s.jobs ::
      if j in ids && Withdrawable(s, j) then s.jobs[j].(status := Removed, updatedAt := now) else s.jobs[j])
  }

  datatype Report = Report(ran: bool, rule: Rule, retired: nat, withdrawn: nat)

  function JobsOf(rows: map<RowKey, Row>, keys: set<RowKey>): set<JobId> {
    set k | k in keys && k in rows :: rows[k].job
  }

  function Reconcile(s: State, summary: Summary, runStarted: Instant, now: Instant): (State, Report) {
    var rule := RuleOf(summary);
    if rule == Refused then (s, Report(false, Refused, 0, 0))
    else if summary.source !in s.sources then (s, Report(true, rule, 0, 0))
    else
      var gone := Unseen(s.rows, summary.source, UnseenBefore(summary, runStarted));
      var retired := s.(rows := Retire(s.rows, gone, runStarted));
      var ids := JobsOf(s.rows, gone);
      var withdrawn := set j | j in ids && Withdrawable(retired, j);
      (Withdraw(retired, ids, now), Report(true, rule, |gone|, |withdrawn|))
  }

  predicate Lapsed(job: Job, now: Instant) {
    job.fields.expiresAt.Date? && job.fields.expiresAt.at < now && job.status == Active
  }

  /** Mark expired every active job whose own stated date has passed. */
  function Expire(s: State, now: Instant, stamp: Instant): (State, nat) {
    var lapsed := set j | j in s.jobs && Lapsed(s.jobs[j], now);
    (s.(jobs := map j | j in s.jobs ::
       if j in lapsed then s.jobs[j].(status := Expired, updatedAt := stamp) else s.jobs[j]),
     |lapsed|)
  }
}
