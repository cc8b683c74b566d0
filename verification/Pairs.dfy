/** Two sources that are already on a job, however it came to hold what it holds, and go on
    sending their fixed records: whose word the job ends up with. */
module Pairs {
  import opened Wrappers
  import opened Catalogue
  import opened Ownership
  import opened Lifecycle
  import opened LifecycleLaws
  import opened Convergence
  import D = Deduplication
  import P = Persistence

  // ---------- How a pair comes about ----------

  /** While a job has only its creator's row, no snippet of another source joins it, and a
      full text does not join a snippet: from a creation only two full texts meet. */
  lemma SnippetsNeverJoin(m: Matching, s: State, j: JobId, a: Voice, b: Voice, seenAt: Instant, now: Instant)
    requires Ongoing(m, s, j, a, b) && b.record.Key() !in s.rows && (a.record.partial || b.record.partial)
    ensures !Turn(m, s, Send(b.reg, b.record, seenAt, now), j, a, b)
  {
    if a.record.partial { assert D.PartiallyDescribed(s, j) by { assert a.record.Key() in s.rows; } }
    assert j != s.nextJob;
    hide Valid, D.Candidates, P.CreateJob, P.UpdateJob, P.Land;
    NotACandidate(m, s, j, b.record);
    LandsElsewhere(m, s, j, b.reg, b.record, seenAt, now);
  }

  lemma LandsElsewhere(m: Matching, s: State, j: JobId, reg: Registration, r: Record, seenAt: Instant, now: Instant)
    requires r.Key() !in s.rows && j !in D.Candidates(m, s, r) && j != s.nextJob
    ensures P.Persist(m, s, reg, r, seenAt, now).1.job != Some(j)
  {
    hide D.Candidates, P.Land, P.Folded;
  }

  lemma NotACandidate(m: Matching, s: State, j: JobId, r: Record)
    requires r.partial || D.PartiallyDescribed(s, j)
    ensures j !in D.Candidates(m, s, r)
  {
  }

  // ---------- Two voices on one job ----------

  /** Both are on the job, live, each with its record as it keeps sending it; what the job
      says may be anything. */
  predicate Pair(m: Matching, s: State, j: JobId, o: Voice, w: Voice) {
    Hosted(m, s, j, o, w) && w.record.Key() in s.rows
  }

  /** Taken alone, `o` outranks `w` on this job, going by when each was first seen. */
  predicate Outspeaks(s: State, o: Voice, w: Voice)
    requires o.record.Key() in s.rows && w.record.Key() in s.rows
  {
    OutranksAlone(o, s.rows[o.record.Key()].firstSeen, w, s.rows[w.record.Key()].firstSeen)
  }

  lemma PairIsEitherWay(m: Matching, s: State, j: JobId, o: Voice, w: Voice)
    requires Pair(m, s, j, o, w)
    ensures Pair(m, s, j, w, o) && o.record.Key() in s.rows && j in s.jobs
  {
  }

  /** The exact condition for one of them to: no snippet outranks a full text, and something
      tells them apart. Both never do. */
  lemma OneOutspeaksIff(m: Matching, s: State, j: JobId, o: Voice, w: Voice)
    requires Pair(m, s, j, o, w)
    ensures o.record.Key() in s.rows
    ensures Outspeaks(s, o, w) || Outspeaks(s, w, o) <==>
      !Deadlocked(o, w)
      && AccountGiven(o, s.rows[o.record.Key()].firstSeen) != AccountGiven(w, s.rows[w.record.Key()].firstSeen)
    ensures !(Outspeaks(s, o, w) && Outspeaks(s, w, o))
  {
    PairIsEitherWay(m, s, j, o, w);
    hide OutranksAlone, Hosted;
    var oSeen, wSeen := s.rows[o.record.Key()].firstSeen, s.rows[w.record.Key()].firstSeen;
    TwoVoicesHaveOneOwnerIff(o, oSeen, w, wSeen);
    AgainstOne(o, oSeen, w, wSeen);
    AgainstOne(w, wSeen, o, oSeen);
  }

  // ---------- One step ----------

  /** The step is this voice's own send. */
  predicate Speaks(step: Step, v: Voice) {
    step.Send? && (step.reg, step.record) == (v.reg, v.record)
  }

  /** What a turn does to the fields: a fold of the record of the voice that speaks, under
      its rank against the other, and nothing otherwise. */
  predicate Heard(s: State, t: State, step: Step, j: JobId, o: Voice, w: Voice)
    requires o.record.Key() in s.rows && w.record.Key() in s.rows && j in s.jobs && j in t.jobs
  {
    t.jobs[j].fields ==
      if Speaks(step, o) then Merge(s.jobs[j].fields, o.record.fields, Outspeaks(s, o, w))
      else if Speaks(step, w) then Merge(s.jobs[j].fields, w.record.fields, Outspeaks(s, w, o))
      else s.jobs[j].fields
  }

  predicate SameDates(s: State, t: State, o: Voice, w: Voice) {
    forall v :: v in {o, w} ==>
      v.record.Key() in s.rows && v.record.Key() in t.rows
      && t.rows[v.record.Key()].firstSeen == s.rows[v.record.Key()].firstSeen
  }

  lemma OneTurn(m: Matching, s: State, step: Step, j: JobId, o: Voice, w: Voice)
    requires Pair(m, s, j, o, w) && Turn(m, s, step, j, o, w)
    ensures var t := Apply(m, s, step);
      && Pair(m, t, j, o, w) && SameDates(s, t, o, w) && j in s.jobs && j in t.jobs
      && Heard(s, t, step, j, o, w)
  {
    hide Hosted, Turn, Apply, Undisturbed, P.Persist, Merge, OutranksAlone;
    VoicesHaveKeys(m, s, j, o, w);
    var t := Apply(m, s, step);
    ValidPair(m, s, j, o, w);
    StepKeepsValid(m, s, step);
    if Speaks(step, o) || Speaks(step, w) {
      var v := if Speaks(step, o) then o else w;
      SpokenTurn(m, s, step, j, o, w, v);
    } else {
      UnspokenTurn(m, s, step, j, o, w);
    }
  }

  lemma ValidPair(m: Matching, s: State, j: JobId, o: Voice, w: Voice)
    requires Pair(m, s, j, o, w)
    ensures Valid(m, s)
  {
  }

  lemma UnspokenTurn(m: Matching, s: State, step: Step, j: JobId, o: Voice, w: Voice)
    requires Pair(m, s, j, o, w) && Turn(m, s, step, j, o, w) && !Speaks(step, o) && !Speaks(step, w)
    requires Valid(m, Apply(m, s, step))
    ensures var t := Apply(m, s, step);
      Pair(m, t, j, o, w) && SameDates(s, t, o, w) && j in s.jobs && j in t.jobs && t.jobs[j].fields == s.jobs[j].fields
  {
    hide P.Persist, Apply, Valid;
    if step.Send? {
      ElsewhereUnlessSpoken(m, s, step, j, o, w);
      SendElsewhere(m, s, step, j, o, w);
    } else {
      SweepsDoNotDisturb(m, s, step, j, o, w);
    }
    UndisturbedStaysHosted(m, s, Apply(m, s, step), j, o, w);
  }

  lemma ElsewhereUnlessSpoken(m: Matching, s: State, step: Step, j: JobId, o: Voice, w: Voice)
    requires Turn(m, s, step, j, o, w) && step.Send? && !Speaks(step, o) && !Speaks(step, w)
    ensures P.Persist(m, s, step.reg, step.record, step.seenAt, step.now).1.job != Some(j)
  {
    hide P.Persist;
  }

  lemma SpokenTurn(m: Matching, s: State, step: Step, j: JobId, o: Voice, w: Voice, v: Voice)
    requires Pair(m, s, j, o, w) && Turn(m, s, step, j, o, w) && Speaks(step, v) && (v == o || v == w)
    requires v == w ==> !Speaks(step, o)
    ensures var t := Apply(m, s, step);
      && Pair(m, t, j, o, w) && SameDates(s, t, o, w) && j in s.jobs && j in t.jobs
      && o.record.Key() in s.rows && Heard(s, t, step, j, o, w)
  {
    hide P.Persist, P.Folded, Hosted, Turn, Merge, OutranksAlone, IncomingOutranks;
    VoicesHaveKeys(m, s, j, o, w);
    OwnTurn(m, s, j, o, w, v, step.seenAt, step.now);
    OwnSendWrites(m, s, j, o, w, v, step.seenAt, step.now);
    RankingOfAVoice(m, s, j, o, w, v, step.seenAt);
    FoldedUnderRank(s, j, v, step.seenAt);
    VoicesHaveKeys(m, Apply(m, s, step), j, o, w);
  }

  lemma FoldedUnderRank(s: State, j: JobId, v: Voice, seenAt: Instant)
    requires j in s.jobs
    ensures P.Folded(s, j, v.reg, v.record, seenAt)
         == Merge(s.jobs[j].fields, v.record.fields, IncomingOutranks(P.Register(s, v.reg), j, v.reg, v.record, seenAt))
  {
  }

  // ---------- Whole runs ----------

  predicate HasSpoken(steps: seq<Step>, v: Voice) {
    exists i :: 0 <= i < |steps| && Speaks(steps[i], v)
  }

  /** One field after a run from `before`, when `o` outranks `w`. */
  predicate Settles(before: Value, after: Value, ours: Value, theirs: Value, weSpoke: bool, theySpoke: bool) {
    if IsStated(ours) then before == ours || weSpoke ==> after == ours
    else if IsStated(before) then after == before
    else if IsStated(theirs) && theySpoke then after == theirs
    else !IsStated(after) || after == theirs
  }

  lemma FieldAfterTurn(
    before: Value, between: Value, after: Value, ours: Value, theirs: Value,
    weSpeak: bool, theySpeak: bool, weSpoke: bool, theySpoke: bool)
    requires between ==
      if weSpeak then Resolve(before, ours, true) else if theySpeak then Resolve(before, theirs, false) else before
    requires Settles(between, after, ours, theirs, weSpoke, theySpoke)
    ensures Settles(before, after, ours, theirs, weSpoke || weSpeak, theySpoke || (theySpeak && !weSpeak))
  {
  }

  lemma FirstSpeaks(step: Step, rest: seq<Step>, v: Voice)
    ensures HasSpoken([step] + rest, v) <==> Speaks(step, v) || HasSpoken(rest, v)
  {
    var all := [step] + rest;
    if i :| 0 <= i < |rest| && Speaks(rest[i], v) { assert all[i + 1] == rest[i]; }
    if Speaks(step, v) { assert Speaks(all[0], v); }
    if i :| 0 <= i < |all| && Speaks(all[i], v) {
      if i > 0 { assert rest[i - 1] == all[i]; }
    }
  }

  /** From any pair of which `o` outranks `w`, over every later interleaving with everything
      else: a field `o` states is `o`'s from its first send on; of the others, one that was
      stated keeps its value, and one that was not is `w`'s once `w` has sent. */
  lemma {:induction false} TheOwnerIsHeard(
    m: Matching, s: State, steps: seq<Step>, j: JobId, o: Voice, w: Voice, f: Field)
    requires Pair(m, s, j, o, w) && o.record.Key() in s.rows && Outspeaks(s, o, w) && AllTurns(m, s, steps, j, o, w)
    ensures Pair(m, Run(m, s, steps), j, o, w) && j in s.jobs && j in Run(m, s, steps).jobs
    ensures Settles(
      s.jobs[j].fields.At(f), Run(m, s, steps).jobs[j].fields.At(f), o.record.fields.At(f), w.record.fields.At(f),
      HasSpoken(steps, o), HasSpoken(steps, w))
    decreases |steps|
  {
    hide Hosted, Turn, Apply, OutranksAlone, Settles, Speaks, HasSpoken;
    VoicesHaveKeys(m, s, j, o, w);
    if steps == [] {
      NothingSettles(s.jobs[j].fields.At(f), o.record.fields.At(f), w.record.fields.At(f), steps, o, w);
    } else {
      var t := Apply(m, s, steps[0]);
      OneTurn(m, s, steps[0], j, o, w);
      SameRanking(s, t, o, w);
      TheOwnerIsHeard(m, t, steps[1..], j, o, w, f);
      NotBoth(m, s, j, o, w, steps[0]);
      OneOutspeaksIff(m, s, j, o, w);
      FieldAfterTurn(
        s.jobs[j].fields.At(f), t.jobs[j].fields.At(f), Run(m, s, steps).jobs[j].fields.At(f),
        o.record.fields.At(f), w.record.fields.At(f), Speaks(steps[0], o), Speaks(steps[0], w),
        HasSpoken(steps[1..], o), HasSpoken(steps[1..], w));
      assert steps == [steps[0]] + steps[1..];
      FirstSpeaks(steps[0], steps[1..], o);
      FirstSpeaks(steps[0], steps[1..], w);
    }
  }

  lemma NothingSettles(value: Value, ours: Value, theirs: Value, none: seq<Step>, o: Voice, w: Voice)
    requires none == []
    ensures Settles(value, value, ours, theirs, HasSpoken(none, o), HasSpoken(none, w))
  {
  }

  lemma NotBoth(m: Matching, s: State, j: JobId, o: Voice, w: Voice, step: Step)
    requires Pair(m, s, j, o, w)
    ensures !(Speaks(step, o) && Speaks(step, w))
  {
  }

  lemma SameRanking(s: State, t: State, o: Voice, w: Voice)
    requires SameDates(s, t, o, w)
    ensures o.record.Key() in s.rows && w.record.Key() in s.rows && o.record.Key() in t.rows && w.record.Key() in t.rows
    ensures Outspeaks(s, o, w) == Outspeaks(t, o, w) && Outspeaks(s, w, o) == Outspeaks(t, w, o)
  {
    assert o in {o, w} && w in {o, w};
  }

  /** Where neither outranks the other, no stated field ever changes. */
  lemma {:induction false} NobodyIsHeard(
    m: Matching, s: State, steps: seq<Step>, j: JobId, o: Voice, w: Voice, f: Field)
    requires Pair(m, s, j, o, w) && o.record.Key() in s.rows && AllTurns(m, s, steps, j, o, w)
    requires !Outspeaks(s, o, w) && !Outspeaks(s, w, o)
    ensures Pair(m, Run(m, s, steps), j, o, w) && j in s.jobs && j in Run(m, s, steps).jobs
    ensures IsStated(s.jobs[j].fields.At(f)) ==> Run(m, s, steps).jobs[j].fields.At(f) == s.jobs[j].fields.At(f)
    decreases |steps|
  {
    hide Hosted, Turn, Apply, OutranksAlone, Speaks;
    VoicesHaveKeys(m, s, j, o, w);
    if steps != [] {
      var t := Apply(m, s, steps[0]);
      OneTurn(m, s, steps[0], j, o, w);
      SameRanking(s, t, o, w);
      NobodyIsHeard(m, t, steps[1..], j, o, w, f);
    }
  }
}
