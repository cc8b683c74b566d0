/** What a run may conclude: its own view of the source against the catalogue, with
    every other source, sweep and retention page free to interleave. */
module WholeRun {
  import opened Wrappers
  import opened Catalogue
  import opened Contracts
  import opened Lifecycle
  import opened LifecycleLaws
  import opened IngestionRun
  import B = Boilerplate
  import CatalogueStore
  import P = Persistence
  import R = Reconciliation
  import T = Retention

  // ---------- A licensed run stored everything ----------

  lemma {:induction false} NoneUnusable(items: seq<Prepared>)
    requires RejectionsOf(items) == []
    ensures |RecordsOf(items)| == |items|
    ensures forall i :: 0 <= i < |items| ==> items[i] == Normalized(RecordsOf(items)[i])
  {
    if items != [] {
      NoneUnusable(items[..|items| - 1]);
    }
  }

  lemma {:induction false} NoneFailed(reports: seq<P.Report>)
    requires StoreFailures(reports) == []
    ensures forall i :: 0 <= i < |reports| ==> !reports[i].failed
  {
    if reports != [] {
      NoneFailed(reports[..|reports| - 1]);
    }
  }

  /** When the exhausted rule fires, the run took the whole feed, every record in it
      was usable, and every one of them was stored. */
  lemma ExhaustedRunStoredEverything(plan: Plan, feed: Feed, reports: seq<P.Report>)
    requires R.RuleOf(Summarize(plan, feed, reports)) == R.Exhausted
    ensures var all := Flatten(feed.pages);
            && Taken(feed, plan.maxRecords) == all && all != []
            && feed.ending != QuotaExceeded && feed.ending != Unreachable && feed.reachedTheEnd
            && |RecordsOf(all)| == |all|
            && (forall i :: 0 <= i < |all| ==> all[i] == Normalized(RecordsOf(all)[i]))
            && forall i :: 0 <= i < |reports| ==> !reports[i].failed
  {
    var taken := Taken(feed, plan.maxRecords);
    var failures := FetchFailures(feed, plan.maxRecords) + StoreFailures(reports);
    assert failures == [];
    assert FetchFailures(feed, plan.maxRecords) == [] && StoreFailures(reports) == [];
    assert RejectionsOf(taken) == [];
    NoneUnusable(taken);
    NoneFailed(reports);
  }

  /** Every run's counts add up: each record taken was stored, skipped or rejected
      with a failure to show for it. */
  lemma RunsAreAccountedFor(plan: Plan, feed: Feed, reports: seq<P.Report>)
    requires |reports| == |RecordsOf(Taken(feed, plan.maxRecords))|
    requires forall i :: 0 <= i < |Taken(feed, plan.maxRecords)| && Taken(feed, plan.maxRecords)[i].Unusable? ==>
               RejectedBeforeStoring(Taken(feed, plan.maxRecords)[i].stage)
    ensures Summarize(plan, feed, reports).AccountedFor()
  {
    var taken := Taken(feed, plan.maxRecords);
    OutcomesCover(reports);
    TakenSplits(taken);
    StoreFailuresAreNotRejections(reports);
    var tail: seq<Stage> := if !OverBudget(feed, plan.maxRecords) && feed.ending == Unreachable then [Fetch] else [];
    RejectedOfConcat(RejectionsOf(taken), tail);
    RejectedOfConcat(RejectionsOf(taken) + tail, StoreFailures(reports));
    assert Rejected(tail) == 0;
  }

  lemma {:induction false} OutcomesCover(reports: seq<P.Report>)
    ensures CountOf(reports, P.Created) + CountOf(reports, P.Updated) + CountOf(reports, P.Skipped) == |reports|
  {
    if reports != [] { OutcomesCover(reports[..|reports| - 1]); }
  }

  lemma OneRejection(item: Prepared)
    ensures item.Unusable? && RejectedBeforeStoring(item.stage) ==> Rejected([item.stage]) == 1
  {
    if item.Unusable? { assert [item.stage][1..] == []; }
  }

  lemma {:induction false} TakenSplits(items: seq<Prepared>)
    requires forall i :: 0 <= i < |items| && items[i].Unusable? ==> RejectedBeforeStoring(items[i].stage)
    ensures |RecordsOf(items)| + |RejectionsOf(items)| == |items|
    ensures Rejected(RejectionsOf(items)) == |RejectionsOf(items)|
  {
    if items != [] {
      hide Rejected;
      var last := |items| - 1;
      TakenSplits(items[..last]);
      OneRejection(items[last]);
      if items[last].Unusable? { RejectedOfConcat(RejectionsOf(items[..last]), [items[last].stage]); }
      else { assert RejectionsOf(items) == RejectionsOf(items[..last]); }
    }
  }

  lemma {:induction false} StoreFailuresAreNotRejections(reports: seq<P.Report>)
    ensures Rejected(StoreFailures(reports)) == 0
  {
    if reports != [] {
      var last := |reports| - 1;
      StoreFailuresAreNotRejections(reports[..last]);
      if reports[last].failed { RejectedOfConcat(StoreFailures(reports[..last]), [Stage.Store]); }
      else { assert StoreFailures(reports) == StoreFailures(reports[..last]); }
    }
  }

  // ---------- The run among everything else ----------

  /** A transaction that is not this source's: another source's send or sweep, an
      expiry, or a retention page. */
  predicate Foreign(step: Step, source: SourceKey) {
    match step
    case Send(reg, _, _, _) => reg.key != source
    case Reconcile(summary, _, _) => summary.source != source
    case Expire(_, _) => true
    case Retain(_, _, _, _, _) => true
  }

  predicate OwnSend(step: Step, reg: Registration, started: Instant) {
    step.Send? && step.reg == reg && step.seenAt >= started
  }

  /** The run's sends, at times not before it started, among foreign transactions. */
  predicate DuringRun(steps: seq<Step>, reg: Registration, started: Instant) {
    forall i :: 0 <= i < |steps| ==> Foreign(steps[i], reg.key) || OwnSend(steps[i], reg, started)
  }

  function Sent(steps: seq<Step>, reg: Registration): seq<Record> {
    if steps == [] then []
    else (if steps[0].Send? && steps[0].reg.key == reg.key then [steps[0].record] else []) + Sent(steps[1..], reg)
  }

  ghost function Reports(m: Matching, s: State, steps: seq<Step>, reg: Registration): seq<P.Report>
    decreases |steps|
  {
    if steps == [] then []
    else
      (if steps[0].Send? && steps[0].reg.key == reg.key
       then [P.Persist(m, s, reg, steps[0].record, steps[0].seenAt, steps[0].now).1] else [])
      + Reports(m, Apply(m, s, steps[0]), steps[1..], reg)
  }

  ghost function StoredKeys(m: Matching, s: State, steps: seq<Step>, reg: Registration): set<RowKey>
    decreases |steps|
  {
    if steps == [] then {}
    else
      (if steps[0].Send? && steps[0].reg.key == reg.key
          && !P.Persist(m, s, reg, steps[0].record, steps[0].seenAt, steps[0].now).1.failed
       then {steps[0].record.Key()} else {})
      + StoredKeys(m, Apply(m, s, steps[0]), steps[1..], reg)
  }

  function KeysOf(records: seq<Record>): set<RowKey> {
    set r | r in records :: r.Key()
  }

  /** What the run has stored is live and dated since it began; what it has not is
      dated before. */
  predicate Tracked(s: State, source: SourceKey, started: Instant, seen: set<RowKey>) {
    && (forall k :: k in seen ==>
          k.source == source && k in s.rows && s.rows[k].retired.None? && started <= s.rows[k].lastSeen)
    && (forall k :: k in s.rows && k.source == source && k !in seen ==> s.rows[k].lastSeen < started)
  }

  /** What tracking needs of a transaction: rows seen by the run stay as live and as
      late, and no row of the source becomes later or appears. */
  predicate KeepsOwnRows(s: State, t: State, source: SourceKey) {
    && (forall k :: k in s.rows && k.source == source && s.rows[k].retired.None? ==>
          k in t.rows && t.rows[k].retired.None? && t.rows[k].lastSeen == s.rows[k].lastSeen)
    && (forall k :: k in t.rows && k.source == source ==>
          k in s.rows && t.rows[k].lastSeen == s.rows[k].lastSeen)
  }

  lemma KeptRowsStayTracked(s: State, t: State, source: SourceKey, started: Instant, seen: set<RowKey>)
    requires Tracked(s, source, started, seen) && KeepsOwnRows(s, t, source)
    ensures Tracked(t, source, started, seen)
  {
  }

  lemma RetentionKeepsLiveRows(
    s: State, page: set<JobId>, referenced: set<JobId>, cutoff: Instant, at: Instant, now: Instant, source: SourceKey)
    requires forall k :: k in s.rows ==> s.rows[k].job in s.jobs
    ensures KeepsOwnRows(s, T.Page(s, page, referenced, cutoff, at, now), source)
  {
    hide T.Page, Listed;
    RetainedRows(s, page, referenced, cutoff, at, now);
    forall k | k in s.rows && s.rows[k].retired.None?
      ensures k in T.Page(s, page, referenced, cutoff, at, now).rows
              && T.Page(s, page, referenced, cutoff, at, now).rows[k] == s.rows[k]
    {
      LiveRowLists(s, k);
      RetentionSparesTheListed(s, page, referenced, cutoff, at, now, s.rows[k].job);
    }
  }

  lemma SweepKeepsForeignRows(s: State, summary: Summary, began: Instant, now: Instant, source: SourceKey)
    requires summary.source != source
    ensures KeepsOwnRows(s, R.Reconcile(s, summary, began, now).0, source)
  {
    hide R.Reconcile, R.RuleOf;
    forall k | k in s.rows { AbsenceIsPerSource(s, summary, began, now, k); }
    SameRowsAfterReconcile(s, summary, began, now);
  }

  lemma ForeignKeepsOwnRows(m: Matching, s: State, step: Step, source: SourceKey)
    requires Valid(m, s) && Foreign(step, source)
    ensures KeepsOwnRows(s, Apply(m, s, step), source)
  {
    hide P.Persist, R.Reconcile, T.Page;
    match step {
      case Send(reg, r, seenAt, now) => ForeignSend(m, s, reg, r, seenAt, now, source);
      case Reconcile(summary, began, now) => SweepKeepsForeignRows(s, summary, began, now, source);
      case Expire(at, now) =>
      case Retain(page, referenced, cutoff, at, now) =>
        RetentionKeepsLiveRows(s, page, referenced, cutoff, at, now, source);
    }
  }

  lemma ForeignKeepsTracked(
    m: Matching, s: State, step: Step, source: SourceKey, started: Instant, seen: set<RowKey>)
    requires Valid(m, s) && Tracked(s, source, started, seen) && Foreign(step, source)
    ensures Tracked(Apply(m, s, step), source, started, seen)
  {
    hide Apply, Tracked, KeepsOwnRows, Valid, Foreign;
    ForeignKeepsOwnRows(m, s, step, source);
    KeptRowsStayTracked(s, Apply(m, s, step), source, started, seen);
  }

  lemma LiveRowLists(s: State, k: RowKey)
    requires k in s.rows && s.rows[k].retired.None?
    ensures Listed(s, s.rows[k].job)
  {
  }

  lemma SameRowsAfterReconcile(s: State, summary: Summary, began: Instant, now: Instant)
    ensures R.Reconcile(s, summary, began, now).0.rows.Keys == s.rows.Keys
  {
  }

  lemma RetainedRows(s: State, page: set<JobId>, referenced: set<JobId>, cutoff: Instant, at: Instant, now: Instant)
    ensures var t := T.Page(s, page, referenced, cutoff, at, now);
            forall k :: k in t.rows ==> k in s.rows && t.rows[k].lastSeen == s.rows[k].lastSeen
  {
  }

  lemma ForeignSend(
    m: Matching, s: State, reg: Registration, r: Record, seenAt: Instant, now: Instant, source: SourceKey)
    requires Valid(m, s) && reg.key != source
    ensures var t := P.Persist(m, s, reg, r, seenAt, now).0;
            forall k: RowKey :: k.source == source ==>
              (k in t.rows <==> k in s.rows) && (k in s.rows ==> t.rows[k] == s.rows[k])
  {
    hide P.Persist;
    ReappearanceUndoesBothConclusions(m, s, reg, r, seenAt, now);
    FailsUnlessOwn(m, s, reg, r, seenAt, now);
  }

  lemma ChangeTracks(
    s: State, t: State, j: JobId, key: RowKey, source: SourceKey, started: Instant, seen: set<RowKey>)
    requires Tracked(s, source, started, seen) && ChangesOnly(s, t, j, key) && key.source == source
    requires started <= t.rows[key].lastSeen
    ensures Tracked(t, source, started, seen + {key})
  {
  }

  lemma OwnSendTracks(
    m: Matching, s: State, reg: Registration, r: Record, seenAt: Instant, now: Instant, started: Instant,
    seen: set<RowKey>)
    requires Valid(m, s) && Tracked(s, reg.key, started, seen) && started <= seenAt
    ensures var (t, report) := P.Persist(m, s, reg, r, seenAt, now);
            Tracked(t, reg.key, started, seen + if report.failed then {} else {r.Key()})
  {
    hide P.Persist, Tracked, ChangesOnly, Valid;
    var (t, report) := P.Persist(m, s, reg, r, seenAt, now);
    ReappearanceUndoesBothConclusions(m, s, reg, r, seenAt, now);
    FailsUnlessOwn(m, s, reg, r, seenAt, now);
    if report.failed {
      assert seen + {} == seen;
    } else {
      SeenAtLeast(m, s, reg, r, seenAt, now);
      ChangeTracks(s, t, report.job.value, r.Key(), reg.key, started, seen);
    }
  }

  lemma SeenAtLeast(m: Matching, s: State, reg: Registration, r: Record, seenAt: Instant, now: Instant)
    requires !P.Persist(m, s, reg, r, seenAt, now).1.failed
    ensures var t := P.Persist(m, s, reg, r, seenAt, now).0;
            r.Key() in t.rows && seenAt <= t.rows[r.Key()].lastSeen
  {
    hide Listed, P.Folded;
  }

  ghost function StoredBy(m: Matching, s: State, step: Step, reg: Registration): set<RowKey> {
    if step.Send? && step.reg.key == reg.key
       && !P.Persist(m, s, reg, step.record, step.seenAt, step.now).1.failed
    then {step.record.Key()} else {}
  }

  lemma StoredFirst(m: Matching, s: State, steps: seq<Step>, reg: Registration, seen: set<RowKey>)
    requires steps != []
    ensures seen + StoredKeys(m, s, steps, reg)
         == (seen + StoredBy(m, s, steps[0], reg)) + StoredKeys(m, Apply(m, s, steps[0]), steps[1..], reg)
  {
    hide P.Persist, Apply;
  }

  lemma StepTracks(m: Matching, s: State, step: Step, reg: Registration, started: Instant, seen: set<RowKey>)
    requires Valid(m, s) && Tracked(s, reg.key, started, seen)
    requires Foreign(step, reg.key) || OwnSend(step, reg, started)
    ensures Tracked(Apply(m, s, step), reg.key, started, seen + StoredBy(m, s, step, reg))
  {
    hide Tracked, P.Persist;
    if step.Send? && step.reg.key == reg.key {
      OwnSendTracks(m, s, reg, step.record, step.seenAt, step.now, started, seen);
    } else {
      ForeignKeepsTracked(m, s, step, reg.key, started, seen);
      assert seen + {} == seen;
    }
  }

  lemma {:induction false} RunTracks(
    m: Matching, s: State, steps: seq<Step>, reg: Registration, started: Instant, seen: set<RowKey>)
    requires Valid(m, s) && Tracked(s, reg.key, started, seen) && DuringRun(steps, reg, started)
    ensures Tracked(Run(m, s, steps), reg.key, started, seen + StoredKeys(m, s, steps, reg))
    decreases |steps|
  {
    if steps == [] {
      assert seen + {} == seen;
    } else {
      hide Tracked, Apply, StoredKeys, StoredBy, Valid, Foreign, OwnSend;
      var t := Apply(m, s, steps[0]);
      StepKeepsValid(m, s, steps[0]);
      StepTracks(m, s, steps[0], reg, started, seen);
      StoredFirst(m, s, steps, reg, seen);
      RunTracks(m, t, steps[1..], reg, started, seen + StoredBy(m, s, steps[0], reg));
    }
  }

  /** What reconciling after a tracked run leaves live of its source. */
  lemma ReconcileAfterTracking(
    m: Matching, s: State, summary: Summary, started: Instant, now: Instant, seen: set<RowKey>)
    requires Valid(m, s) && Tracked(s, summary.source, started, seen)
    ensures var t := R.Reconcile(s, summary, started, now).0;
            && (forall k :: k in seen ==> k in t.rows && t.rows[k] == s.rows[k])
            && (R.RuleOf(summary) == R.Exhausted ==>
                  forall k :: k in t.rows && k.source == summary.source && t.rows[k].retired.None? ==> k in seen)
  {
    hide R.WhyNot, R.MayAgeOut, Listed;
  }

  /** All the run sent was stored, so the stored keys are the keys it sent. */
  lemma {:induction false} SentIsStored(m: Matching, s: State, steps: seq<Step>, reg: Registration)
    requires forall i :: 0 <= i < |Reports(m, s, steps, reg)| ==> !Reports(m, s, steps, reg)[i].failed
    ensures StoredKeys(m, s, steps, reg) == KeysOf(Sent(steps, reg))
    ensures |Reports(m, s, steps, reg)| == |Sent(steps, reg)|
    decreases |steps|
  {
    if steps != [] {
      hide P.Persist, Apply;
      var t := Apply(m, s, steps[0]);
      var head: seq<P.Report> :=
        if steps[0].Send? && steps[0].reg.key == reg.key
        then [P.Persist(m, s, reg, steps[0].record, steps[0].seenAt, steps[0].now).1] else [];
      var tail := Reports(m, t, steps[1..], reg);
      assert Reports(m, s, steps, reg) == head + tail;
      forall i | 0 <= i < |tail| ensures !tail[i].failed {
        assert (head + tail)[|head| + i] == tail[i];
      }
      SentIsStored(m, t, steps[1..], reg);
      if head != [] { assert (head + tail)[0] == head[0]; }
    }
  }

  /** The whole run, ended by its reconciliation: nothing else wrote under the source's
      name, its earlier rows are dated before it began, and its sends are its feed's
      records, stripped. If the exhausted rule fires, the source's live rows afterwards
      are exactly the records of the feed, all of them stored; and the jobs withdrawn
      are exactly those that lost their last live row. */
  lemma ExhaustedRunLeavesWhatItSaw(
    m: Matching, s: State, plan: Plan, feed: Feed, steps: seq<Step>, started: Instant, now: Instant)
    requires Valid(m, s) && DuringRun(steps, plan.reg, started)
    requires forall k :: k in s.rows && k.source == plan.reg.key ==> s.rows[k].lastSeen < started
    requires Sent(steps, plan.reg) == StrippedRecords(plan, s, feed)
    requires R.RuleOf(Summarize(plan, feed, Reports(m, s, steps, plan.reg))) == R.Exhausted
    ensures var t := Run(m, s, steps);
            var summary := Summarize(plan, feed, Reports(m, s, steps, plan.reg));
            var u := R.Reconcile(t, summary, started, now).0;
            var fetched := RecordsOf(Flatten(feed.pages));
            && |fetched| == |Flatten(feed.pages)|
            && (forall i :: 0 <= i < |Reports(m, s, steps, plan.reg)| ==> !Reports(m, s, steps, plan.reg)[i].failed)
            && (forall k: RowKey :: k.source == plan.reg.key ==>
                  ((k in u.rows && u.rows[k].retired.None?) <==> k in KeysOf(fetched)))
            && (forall j :: j in t.jobs ==>
                  j in u.jobs
                  && (if Listed(t, j) && !Listed(u, j)
                      then u.jobs[j] == t.jobs[j].(status := Removed, updatedAt := now)
                      else u.jobs[j] == t.jobs[j]))
  {
    hide P.Persist, R.Reconcile, Listed, Tracked, B.Strip, Reports, StoredKeys, Taken, Flatten;
    hide RecordsOf, Run, Summarize;
    var reports := Reports(m, s, steps, plan.reg);
    var summary := Summarize(plan, feed, reports);
    var t := Run(m, s, steps);
    ExhaustedRunStoredEverything(plan, feed, reports);
    SentIsStored(m, s, steps, plan.reg);
    NothingTrackedYet(s, plan.reg.key, started);
    RunTracks(m, s, steps, plan.reg, started, {});
    var seen := StoredKeys(m, s, steps, plan.reg);
    assert {} + seen == seen;
    EveryRunIsValid(m, s, steps);
    SummaryNamesTheSource(plan, feed, reports);
    ReconcileAfterTracking(m, t, summary, started, now, seen);
    StripKeepsKeys(plan, s, feed);
    TrackedAreLive(t, plan.reg.key, started, seen);
    forall j | j in t.jobs { WithdrawnIffLastListingLost(m, t, summary, started, now, j); }
  }

  lemma NothingTrackedYet(s: State, source: SourceKey, started: Instant)
    requires forall k :: k in s.rows && k.source == source ==> s.rows[k].lastSeen < started
    ensures Tracked(s, source, started, {})
  {
  }

  lemma TrackedAreLive(s: State, source: SourceKey, started: Instant, seen: set<RowKey>)
    requires Tracked(s, source, started, seen)
    ensures forall k :: k in seen ==> k.source == source && k in s.rows && s.rows[k].retired.None?
  {
  }

  lemma SummaryNamesTheSource(plan: Plan, feed: Feed, reports: seq<P.Report>)
    ensures Summarize(plan, feed, reports).source == plan.reg.key
  {
  }

  /** Stripping boilerplate changes no record's identity. */
  lemma StripKeepsKeys(plan: Plan, s: State, feed: Feed)
    ensures var before := RecordsOf(Taken(feed, plan.maxRecords));
            KeysOf(StrippedRecords(plan, s, feed)) == KeysOf(before)
  {
    hide B.Removable, B.StripDescription, Taken, RecordsOf, StoredPostings;
    var before := RecordsOf(Taken(feed, plan.maxRecords));
    var after := StrippedRecords(plan, s, feed);
    forall k ensures k in KeysOf(after) <==> k in KeysOf(before) {
      if k in KeysOf(after) {
        var i :| 0 <= i < |after| && after[i].Key() == k;
        assert before[i].Key() == k && before[i] in before;
      }
      if k in KeysOf(before) {
        var i :| 0 <= i < |before| && before[i].Key() == k;
        assert after[i].Key() == k && after[i] in after;
      }
    }
  }

  /** Under either rule, or none, no row the run refreshed is retired by its own
      reconciliation: a lifetime only moves the line further back. */
  lemma RefreshedRowsStayLive(
    m: Matching, s: State, summary: Summary, steps: seq<Step>, reg: Registration, started: Instant, now: Instant)
    requires Valid(m, s) && DuringRun(steps, reg, started) && summary.source == reg.key
    requires forall k :: k in s.rows && k.source == reg.key ==> s.rows[k].lastSeen < started
    ensures var u := R.Reconcile(Run(m, s, steps), summary, started, now).0;
            forall k :: k in StoredKeys(m, s, steps, reg) ==> k in u.rows && u.rows[k].retired.None?
  {
    hide P.Persist, R.Reconcile, Tracked, StoredKeys, Run;
    NothingTrackedYet(s, reg.key, started);
    RunTracks(m, s, steps, reg, started, {});
    var seen := StoredKeys(m, s, steps, reg);
    assert {} + seen == seen;
    EveryRunIsValid(m, s, steps);
    ReconcileAfterTracking(m, Run(m, s, steps), summary, started, now, seen);
    TrackedAreLive(Run(m, s, steps), reg.key, started, seen);
  }

  // ---------- A run left to itself ----------

  function Sends(reg: Registration, records: seq<Record>, clock: nat -> Tick): (steps: seq<Step>)
    ensures |steps| == |records|
  {
    if records == [] then []
    else
      var last := |records| - 1;
      Sends(reg, records[..last], clock) + [Send(reg, records[last], clock(last).seenAt, clock(last).now)]
  }

  lemma {:induction false} RunOneMore(m: Matching, s: State, steps: seq<Step>, step: Step, reg: Registration)
    ensures Run(m, s, steps + [step]) == Apply(m, Run(m, s, steps), step)
    ensures step.Send? && step.reg == reg ==>
              Sent(steps + [step], reg) == Sent(steps, reg) + [step.record]
    ensures step.Send? && step.reg == reg ==>
              Reports(m, s, steps + [step], reg)
              == Reports(m, s, steps, reg)
                 + [P.Persist(m, Run(m, s, steps), reg, step.record, step.seenAt, step.now).1]
    decreases |steps|
  {
    hide P.Persist, Apply;
    if steps == [] {
      assert [step][1..] == [];
    } else {
      assert (steps + [step])[1..] == steps[1..] + [step];
      RunOneMore(m, Apply(m, s, steps[0]), steps[1..], step, reg);
    }
  }

  /** Storing records one after the other is a run of sends. */
  lemma {:induction false} StoreAllIsARun(
    m: Matching, s: State, reg: Registration, records: seq<Record>, clock: nat -> Tick)
    ensures var steps := Sends(reg, records, clock);
            && StoreAll(m, s, reg, records, clock) == (Run(m, s, steps), Reports(m, s, steps, reg))
            && Sent(steps, reg) == records
            && forall i :: 0 <= i < |steps| ==>
                 steps[i] == Send(reg, records[i], clock(i).seenAt, clock(i).now)
    decreases |records|
  {
    hide P.Persist, Reports, Sent, Run, Apply;
    if records != [] {
      var last := |records| - 1;
      StoreAllIsARun(m, s, reg, records[..last], clock);
      RunOneMore(m, s, Sends(reg, records[..last], clock),
                 Send(reg, records[last], clock(last).seenAt, clock(last).now), reg);
      SendIsPersist(m, Run(m, s, Sends(reg, records[..last], clock)), reg, records[last], clock(last));
      assert records[..last] + [records[last]] == records;
    } else {
      NothingStored(m, s, reg);
    }
  }

  lemma SendIsPersist(m: Matching, s: State, reg: Registration, r: Record, tick: Tick)
    ensures Apply(m, s, Send(reg, r, tick.seenAt, tick.now)) == P.Persist(m, s, reg, r, tick.seenAt, tick.now).0
  {
  }

  lemma NothingStored(m: Matching, s: State, reg: Registration)
    ensures Run(m, s, []) == s && Reports(m, s, [], reg) == [] && Sent([], reg) == []
  {
  }

  /** Execute a run and reconcile after it, nobody else writing. */
  method RunRecordedIngestion(
    store: CatalogueStore.Store, plan: Plan, feed: Feed, clock: nat -> Tick, started: Instant, now: Instant)
    returns (summary: Summary, report: R.Report)
    requires store.matching == plan.lexicon.matching && Valid(store.matching, store.View())
    requires forall i: nat :: started <= clock(i).seenAt
    requires forall k :: k in store.rows && k.source == plan.reg.key ==> store.rows[k].lastSeen < started
    modifies store
    ensures Valid(store.matching, store.View())
    ensures report.ran <==> R.RuleOf(summary) != R.Refused
    ensures report.rule == R.Exhausted ==>
              forall k: RowKey :: k.source == plan.reg.key ==>
                ((k in store.rows && store.rows[k].retired.None?) <==> k in KeysOf(RecordsOf(Flatten(feed.pages))))
  {
    hide P.Persist, R.Reconcile, B.Strip, StoreAll, Summarize, Taken, Valid;
    ghost var before := store.View();
    ghost var records := StrippedRecords(plan, before, feed);
    ghost var steps := Sends(plan.reg, records, clock);
    StoreAllIsARun(store.matching, before, plan.reg, records, clock);
    summary := Execute(store, plan, feed, clock);
    ghost var after := store.View();
    report := store.Reconcile(summary, started, now);
    EveryRunIsValid(store.matching, before, steps);
    ReconcileKeepsValid(store.matching, after, summary, started, now);
    RuleIsReported(after, summary, started, now);
    if report.rule == R.Exhausted {
      assert DuringRun(steps, plan.reg, started);
      ExhaustedRunLeavesWhatItSaw(store.matching, before, plan, feed, steps, started, now);
    }
  }

  lemma RuleIsReported(s: State, summary: Summary, started: Instant, now: Instant)
    ensures var report := R.Reconcile(s, summary, started, now).1;
            report.rule == R.RuleOf(summary) && (report.ran <==> report.rule != R.Refused)
  {
  }
}
