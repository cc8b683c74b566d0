/** Any number of sources that are already on a job and go on sending their fixed records:
    the owner among them, if there is one, is heard whatever the order. */
module Voices {
  import opened Extremes
  import opened Wrappers
  import opened Catalogue
  import opened Contracts
  import opened Ownership
  import opened SoleOwner
  import opened Ownerless
  import opened Lifecycle
  import opened LifecycleLaws
  import opened Convergence
  import opened Pairs
  import P = Persistence
  import R = Reconciliation
  import T = Retention

  function KeysOf(voices: set<Voice>): set<RowKey> {
    set v | v in voices :: v.record.Key()
  }

  /** The job's rows are the voices' own, one each, all live, each as its voice sends it; what
      the job says may be anything. */
  predicate Chorus(m: Matching, s: State, j: JobId, voices: set<Voice>) {
    && Valid(m, s) && j in s.jobs
    && (forall v, w :: v in voices && w in voices && v.reg.key == w.reg.key ==> v == w)
    && (forall v :: v in voices ==> ListedBy(s, j, v))
    && (forall k :: k in s.rows && s.rows[k].job == j ==> k in KeysOf(voices))
  }

  /** A step the theorem ranges over. The voices send only their fixed records for this job,
      at times no earlier than they first listed it, and are not rolled back; every other send
      lands elsewhere; no sweep retires their rows. Anything else goes. */
  predicate ChorusTurn(m: Matching, s: State, step: Step, j: JobId, voices: set<Voice>) {
    match step
    case Send(reg, r, seenAt, now) =>
      && (forall v :: v in voices && v.reg.key == reg.key ==> v.reg == reg)
      && var report := P.Persist(m, s, reg, r, seenAt, now).1;
      && (r.Key() in KeysOf(voices) || report.job == Some(j) ==>
            && report.job == Some(j) && Voice(reg, r) in voices
            && r.Key() in s.rows && s.rows[r.Key()].firstSeen <= seenAt)
    case Reconcile(summary, started, now) =>
      forall k :: k in s.rows && s.rows[k].job == j && s.rows[k].retired.None? ==>
        k !in R.Unseen(s.rows, summary.source,
          if R.RuleOf(summary) == R.Refused then started else R.UnseenBefore(summary, started))
    case Expire(_, _) => true
    case Retain(_, _, _, _, _) => true
  }

  ghost predicate AllChorusTurns(m: Matching, s: State, steps: seq<Step>, j: JobId, voices: set<Voice>)
    decreases |steps|
  {
    steps != [] ==>
      ChorusTurn(m, s, steps[0], j, voices) && AllChorusTurns(m, Apply(m, s, steps[0]), steps[1..], j, voices)
  }

  // ---------- How a chorus comes about ----------

  lemma CreationIsAChorus(m: Matching, s: State, v: Voice, seenAt: Instant, now: Instant)
    requires Valid(m, s) && P.Persist(m, s, v.reg, v.record, seenAt, now).1.outcome == P.Created
    ensures var (t, report) := P.Persist(m, s, v.reg, v.record, seenAt, now);
            report.job.Some? && Chorus(m, t, report.job.value, {v})
  {
    hide P.Persist, Valid;
    var (t, report) := P.Persist(m, s, v.reg, v.record, seenAt, now);
    SendKeepsValid(m, s, v.reg, v.record, seenAt, now);
    ReappearanceUndoesBothConclusions(m, s, v.reg, v.record, seenAt, now);
    SendRegisters(m, s, v.reg, v.record, seenAt, now);
    CreatedRow(m, s, v.reg, v.record, seenAt, now);
    NoRowsYet(m, s);
    assert v in {v};
  }

  /** Another source's record that joins the job adds its voice, whatever was written. */
  lemma JoiningAddsAVoice(
    m: Matching, s: State, j: JobId, voices: set<Voice>, v: Voice, seenAt: Instant, now: Instant)
    requires Chorus(m, s, j, voices) && forall w :: w in voices ==> w.reg.key != v.reg.key
    requires P.Persist(m, s, v.reg, v.record, seenAt, now).1.job == Some(j)
    ensures Chorus(m, P.Persist(m, s, v.reg, v.record, seenAt, now).0, j, voices + {v})
  {
    ChorusIsValid(m, s, j, voices);
    hide *;
    var (t, report) := P.Persist(m, s, v.reg, v.record, seenAt, now);
    SendKeepsValid(m, s, v.reg, v.record, seenAt, now);
    ReappearanceUndoesBothConclusions(m, s, v.reg, v.record, seenAt, now);
    assert !report.failed && report.outcome != P.Created;
    SendRegisters(m, s, v.reg, v.record, seenAt, now);
    StoredSendFolds(m, s, v.reg, v.record, seenAt, now);
    var fields := P.Folded(s, j, v.reg, v.record, seenAt);
    LandedRow(s, v.reg, j, fields, m.keyOf(s.jobs[j].company, fields.title), v.record, seenAt, now);
    VoiceHasJoined(m, s, t, j, voices, v);
  }

  lemma ChorusIsValid(m: Matching, s: State, j: JobId, voices: set<Voice>)
    requires Chorus(m, s, j, voices)
    ensures Valid(m, s) && j in s.jobs
  {
  }

  lemma VoiceHasJoined(m: Matching, s: State, t: State, j: JobId, voices: set<Voice>, v: Voice)
    requires Chorus(m, s, j, voices) && (forall w :: w in voices ==> w.reg.key != v.reg.key)
    requires Valid(m, t) && ChangesOnly(s, t, j, v.record.Key()) && v.reg.key == v.record.source
    requires t.sources == s.sources[v.reg.key := v.reg.precedence]
    requires t.rows[v.record.Key()].payload == StoredPayload(v.record)
    ensures Chorus(m, t, j, voices + {v})
  {
    hide Valid, ChangesOnly, ListedBy, KeysOf;
    NewListing(s, t, j, v);
    forall w | w in voices ensures ListedBy(t, j, w) {
      StillListed(s, t, j, v, w);
    }
    RowsOfOneMore(s, t, j, voices, v);
  }

  lemma NewListing(s: State, t: State, j: JobId, v: Voice)
    requires ChangesOnly(s, t, j, v.record.Key()) && v.reg.key == v.record.source
    requires t.sources == s.sources[v.reg.key := v.reg.precedence]
    requires t.rows[v.record.Key()].payload == StoredPayload(v.record)
    ensures ListedBy(t, j, v) && j in t.jobs
  {
  }

  lemma StillListed(s: State, t: State, j: JobId, v: Voice, w: Voice)
    requires ListedBy(s, j, w) && ChangesOnly(s, t, j, v.record.Key()) && v.reg.key == v.record.source
    requires w.reg.key != v.reg.key && t.sources == s.sources[v.reg.key := v.reg.precedence]
    ensures ListedBy(t, j, w) && w.record.Key() in s.rows && t.rows[w.record.Key()] == s.rows[w.record.Key()]
  {
  }

  lemma RowsOfOneMore(s: State, t: State, j: JobId, voices: set<Voice>, v: Voice)
    requires ChangesOnly(s, t, j, v.record.Key())
    requires forall k :: k in s.rows && s.rows[k].job == j ==> k in KeysOf(voices)
    ensures forall k :: k in t.rows && t.rows[k].job == j ==> k in KeysOf(voices + {v})
  {
    assert v in voices + {v};
    forall k | k in t.rows && t.rows[k].job == j ensures k in KeysOf(voices + {v}) {
      if k != v.record.Key() {
        assert k in KeysOf(voices);
        var w :| w in voices && w.record.Key() == k;
        assert w in voices + {v};
      }
    }
  }

  // ---------- The accounts stay ----------

  /** The voices' rows and ranks are as they were. */
  predicate SameAccounts(s: State, t: State, j: JobId, voices: set<Voice>) {
    forall v :: v in voices ==>
      && v.record.Key() in s.rows && v.record.Key() in t.rows
      && t.rows[v.record.Key()].firstSeen == s.rows[v.record.Key()].firstSeen
  }

  lemma ChorusRows(m: Matching, s: State, j: JobId, voices: set<Voice>)
    requires Chorus(m, s, j, voices)
    ensures OneRowPerSource(s, j) && RowsOn(s, j) == KeysOf(voices)
  {
    hide Valid;
    forall k | k in KeysOf(voices) ensures k in RowsOn(s, j) {
      var v :| v in voices && v.record.Key() == k;
      assert ListedBy(s, j, v);
    }
    forall k, l | k in s.rows && l in s.rows && s.rows[k].job == j && s.rows[l].job == j && k.source == l.source
      ensures k == l
    {
      var v :| v in voices && v.record.Key() == k;
      var w :| w in voices && w.record.Key() == l;
      assert ListedBy(s, j, v) && ListedBy(s, j, w);
    }
    forall k | k in RowsOn(s, j) ensures k in KeysOf(voices) {
    }
  }

  lemma AccountOfVoice(m: Matching, s: State, j: JobId, voices: set<Voice>, v: Voice)
    requires Chorus(m, s, j, voices) && v in voices
    ensures v.record.Key() in s.rows && v.record.Key().source == v.reg.key && v.reg.key in AccountsOf(s, j)
    ensures AccountsOf(s, j)[v.reg.key] == AccountGiven(v, s.rows[v.record.Key()].firstSeen)
  {
    hide Valid;
    ChorusRows(m, s, j, voices);
    assert ListedBy(s, j, v);
    assert v.record.Key() in KeysOf(voices);
    AccountIsTheRow(s, j, v.record.Key());
  }

  lemma SourcesOfChorus(m: Matching, s: State, j: JobId, voices: set<Voice>, source: SourceKey)
    requires Chorus(m, s, j, voices)
    ensures source in AccountsOf(s, j) <==> exists v :: v in voices && v.reg.key == source
  {
    hide Valid;
    ChorusRows(m, s, j, voices);
    if source in AccountsOf(s, j) {
      var k := RowOf(s, j, source);
      var v :| v in voices && v.record.Key() == k;
      assert ListedBy(s, j, v);
    }
    if v :| v in voices && v.reg.key == source { AccountOfVoice(m, s, j, voices, v); }
  }

  lemma AccountsStay(m: Matching, s: State, t: State, j: JobId, voices: set<Voice>)
    requires Chorus(m, s, j, voices) && Chorus(m, t, j, voices) && SameAccounts(s, t, j, voices)
    ensures AccountsOf(t, j) == AccountsOf(s, j)
  {
    hide Chorus, AccountsOf;
    var before, after := AccountsOf(s, j), AccountsOf(t, j);
    forall source
      ensures source in before <==> source in after
      ensures source in before ==> before[source] == after[source]
    {
      SourcesOfChorus(m, s, j, voices, source);
      SourcesOfChorus(m, t, j, voices, source);
      if v :| v in voices && v.reg.key == source {
        AccountOfVoice(m, s, j, voices, v);
        AccountOfVoice(m, t, j, voices, v);
      }
    }
    assert before == after;
  }

  // ---------- One step ----------

  /** What a turn does to the fields: a fold of the record of the voice that speaks, owning
      the job or not, and nothing otherwise. */
  ghost predicate Sung(s: State, t: State, step: Step, j: JobId, voices: set<Voice>)
    requires j in s.jobs && j in t.jobs
  {
    t.jobs[j].fields ==
      if step.Send? && Voice(step.reg, step.record) in voices then
        Merge(s.jobs[j].fields, step.record.fields, Owns(AccountsOf(s, j), step.reg.key))
      else s.jobs[j].fields
  }

  /** The rows of the job, what it says and the ranks of its sources are as they were. */
  predicate Untouched(s: State, t: State, j: JobId, voices: set<Voice>) {
    && j in s.jobs && j in t.jobs && t.jobs[j].fields == s.jobs[j].fields
    && (forall k :: k in t.rows && t.rows[k].job == j ==> k in s.rows && s.rows[k].job == j)
    && (forall k :: k in s.rows && s.rows[k].job == j ==> k in t.rows && t.rows[k] == s.rows[k])
    && (forall v :: v in voices && v.reg.key in s.sources && s.sources[v.reg.key] == v.reg.precedence ==>
          v.reg.key in t.sources && t.sources[v.reg.key] == v.reg.precedence)
  }

  lemma UntouchedStays(m: Matching, s: State, t: State, j: JobId, voices: set<Voice>)
    requires Chorus(m, s, j, voices) && Untouched(s, t, j, voices) && Valid(m, t)
    ensures Chorus(m, t, j, voices) && SameAccounts(s, t, j, voices)
  {
    hide Valid;
    forall v | v in voices ensures ListedBy(t, j, v) && t.rows[v.record.Key()] == s.rows[v.record.Key()] {
      assert ListedBy(s, j, v);
    }
  }

  lemma SendOfNoVoice(m: Matching, s: State, step: Step, j: JobId, voices: set<Voice>)
    requires Chorus(m, s, j, voices) && step.Send? && ChorusTurn(m, s, step, j, voices)
    requires Voice(step.reg, step.record) !in voices
    ensures Untouched(s, Apply(m, s, step), j, voices)
  {
    hide P.Persist, ChangesOnly, Untouched, KeysOf, Valid;
    var Send(reg, r, seenAt, now) := step;
    var (t, report) := P.Persist(m, s, reg, r, seenAt, now);
    ReappearanceUndoesBothConclusions(m, s, reg, r, seenAt, now);
    SendRegisters(m, s, reg, r, seenAt, now);
    if report.failed { NothingTouched(s, j, voices); }
    else { TouchedElsewhere(s, t, report.job.value, r.Key(), j, voices); }
  }

  lemma NothingTouched(s: State, j: JobId, voices: set<Voice>)
    requires j in s.jobs
    ensures Untouched(s, s, j, voices)
  {
  }

  lemma TouchedElsewhere(s: State, t: State, i: JobId, key: RowKey, j: JobId, voices: set<Voice>)
    requires j in s.jobs && i != j && ChangesOnly(s, t, i, key)
    requires forall v :: v in voices && v.reg.key in s.sources && s.sources[v.reg.key] == v.reg.precedence ==>
               v.reg.key in t.sources && t.sources[v.reg.key] == v.reg.precedence
    ensures Untouched(s, t, j, voices)
  {
  }

  lemma ChorusIsListed(m: Matching, s: State, j: JobId, voices: set<Voice>)
    requires Chorus(m, s, j, voices)
    ensures j in s.jobs && Listed(s, j) && forall k :: k in s.rows && s.rows[k].job == j ==> s.rows[k].retired.None?
  {
    forall k | k in s.rows && s.rows[k].job == j ensures s.rows[k].retired.None? {
      var v :| v in voices && v.record.Key() == k;
      assert ListedBy(s, j, v);
    }
    assert HasRow(s, j);
  }

  lemma SweepsTouchNothing(m: Matching, s: State, step: Step, j: JobId, voices: set<Voice>)
    requires Chorus(m, s, j, voices) && !step.Send? && ChorusTurn(m, s, step, j, voices)
    ensures Untouched(s, Apply(m, s, step), j, voices)
  {
    hide R.Reconcile, R.RuleOf, R.UnseenBefore, T.Page, Chorus, Listed;
    ChorusIsListed(m, s, j, voices);
    match step {
      case Reconcile(summary, started, now) =>
        ReconcileLeavesContents(s, summary, started, now, j);
        ReconciledRows(s, summary, started, now);
        forall k | k in s.rows { AbsenceIsPerSource(s, summary, started, now, k); }
      case Expire(at, now) =>
      case Retain(page, referenced, cutoff, at, now) =>
        RetentionSparesTheListed(s, page, referenced, cutoff, at, now, j);
        RetainedKeys(s, page, referenced, cutoff, at, now);
    }
  }

  /** What a voice's own send leaves: its row refreshed and its record folded in. */
  lemma SendOfAVoice(
    m: Matching, s: State, reg: Registration, r: Record, seenAt: Instant, now: Instant, j: JobId, voices: set<Voice>)
    requires Chorus(m, s, j, voices) && ChorusTurn(m, s, Send(reg, r, seenAt, now), j, voices)
    requires Voice(reg, r) in voices
    ensures var t := P.Persist(m, s, reg, r, seenAt, now).0;
      && Chorus(m, t, j, voices) && SameAccounts(s, t, j, voices) && j in s.jobs && j in t.jobs
      && t.jobs[j].fields == Merge(s.jobs[j].fields, r.fields, Owns(AccountsOf(s, j), reg.key))
  {
    VoiceSends(m, s, reg, r, seenAt, now, j, voices);
    hide *;
    var (t, report) := P.Persist(m, s, reg, r, seenAt, now);
    SendKeepsValid(m, s, reg, r, seenAt, now);
    ReappearanceUndoesBothConclusions(m, s, reg, r, seenAt, now);
    SendRegisters(m, s, reg, r, seenAt, now);
    StoredSendFolds(m, s, reg, r, seenAt, now);
    var fields := P.Folded(s, j, reg, r, seenAt);
    var matchKey := m.keyOf(s.jobs[j].company, fields.title);
    LandChangesOnly(s, reg, j, fields, matchKey, r, seenAt, now);
    LandedRow(s, reg, j, fields, matchKey, r, seenAt, now);
    KeptTheEarlier(s, r, seenAt);
    VoiceHasSent(m, s, t, j, voices, Voice(reg, r));
    FoldedAsTheOwner(m, s, j, voices, reg, r, seenAt);
  }

  lemma KeptTheEarlier(s: State, r: Record, seenAt: Instant)
    ensures r.Key() in s.rows && s.rows[r.Key()].firstSeen <= seenAt ==>
      Min(s.rows[r.Key()].firstSeen, seenAt) == s.rows[r.Key()].firstSeen
  {
  }

  lemma FoldedAsTheOwner(
    m: Matching, s: State, j: JobId, voices: set<Voice>, reg: Registration, r: Record, seenAt: Instant)
    requires Chorus(m, s, j, voices) && j in s.jobs && Lists(s, j, reg, r) && s.rows[r.Key()].firstSeen <= seenAt
    ensures P.Folded(s, j, reg, r, seenAt) == Merge(s.jobs[j].fields, r.fields, Owns(AccountsOf(s, j), reg.key))
  {
    hide Chorus, AccountsOf, Merge, Owns, IncomingOutranks;
    ChorusRows(m, s, j, voices);
    RankingReadsTheRows(s, j, reg, r, seenAt);
    AlreadyRegistered(s, reg);
  }

  lemma AlreadyRegistered(s: State, reg: Registration)
    requires reg.key in s.sources && s.sources[reg.key] == reg.precedence
    ensures P.Register(s, reg) == s
  {
    assert s.sources[reg.key := reg.precedence] == s.sources;
  }

  lemma VoiceSends(
    m: Matching, s: State, reg: Registration, r: Record, seenAt: Instant, now: Instant, j: JobId, voices: set<Voice>)
    requires Chorus(m, s, j, voices) && ChorusTurn(m, s, Send(reg, r, seenAt, now), j, voices)
    requires Voice(reg, r) in voices
    ensures Valid(m, s) && SeenInOrder(s) && j in s.jobs && Lists(s, j, reg, r) && r.Key() in s.rows
    ensures s.rows[r.Key()].job == j
    ensures P.Persist(m, s, reg, r, seenAt, now).1.job == Some(j) && s.rows[r.Key()].firstSeen <= seenAt
  {
    hide P.Persist;
    assert ListedBy(s, j, Voice(reg, r));
    assert r.Key() in KeysOf(voices);
  }

  lemma VoiceHasSent(m: Matching, s: State, t: State, j: JobId, voices: set<Voice>, v: Voice)
    requires Chorus(m, s, j, voices) && v in voices && Valid(m, t) && ChangesOnly(s, t, j, v.record.Key())
    requires t.sources == s.sources[v.reg.key := v.reg.precedence]
    requires t.rows[v.record.Key()].payload == StoredPayload(v.record)
    requires v.record.Key() in s.rows && t.rows[v.record.Key()].firstSeen == s.rows[v.record.Key()].firstSeen
    ensures Chorus(m, t, j, voices) && SameAccounts(s, t, j, voices)
  {
    hide Valid, ListedBy, KeysOf;
    OwnSource(s, j, v);
    NewListing(s, t, j, v);
    forall w | w in voices && w != v
      ensures ListedBy(t, j, w) && w.record.Key() in s.rows && t.rows[w.record.Key()] == s.rows[w.record.Key()]
    {
      StillListed(s, t, j, v, w);
    }
    KeyOfVoice(voices, v);
  }

  lemma OwnSource(s: State, j: JobId, v: Voice)
    requires ListedBy(s, j, v)
    ensures v.record.source == v.reg.key
  {
  }

  lemma KeyOfVoice(voices: set<Voice>, v: Voice)
    requires v in voices
    ensures v.record.Key() in KeysOf(voices)
  {
  }

  lemma OneChorusTurn(m: Matching, s: State, step: Step, j: JobId, voices: set<Voice>)
    requires Chorus(m, s, j, voices) && ChorusTurn(m, s, step, j, voices)
    ensures var t := Apply(m, s, step);
      && Chorus(m, t, j, voices) && AccountsOf(t, j) == AccountsOf(s, j) && j in s.jobs && j in t.jobs
      && Sung(s, t, step, j, voices)
  {
    hide P.Persist, Valid, ChorusTurn;
    ChorusIsListed(m, s, j, voices);
    if step.Send? && Voice(step.reg, step.record) in voices {
      SendOfAVoice(m, s, step.reg, step.record, step.seenAt, step.now, j, voices);
    } else {
      if step.Send? { SendOfNoVoice(m, s, step, j, voices); } else { SweepsTouchNothing(m, s, step, j, voices); }
      StepKeepsValid(m, s, step);
      UntouchedStays(m, s, Apply(m, s, step), j, voices);
    }
    AccountsStay(m, s, Apply(m, s, step), j, voices);
  }

  // ---------- Whole runs ----------

  /** The voice that owns the job, or that none does. */
  ghost predicate IsTheOwner(s: State, j: JobId, voices: set<Voice>, owner: Option<Voice>) {
    match owner
    case Some(o) => o in voices && Owns(AccountsOf(s, j), o.reg.key)
    case None => !SomeoneShould(AccountsOf(s, j))
  }

  lemma OnlyOneOwns(accounts: Accounts, k: SourceKey, l: SourceKey)
    requires Owns(accounts, k) && Owns(accounts, l)
    ensures k == l
  {
    if k != l {
      var a, b := accounts[k], accounts[l];
      assert b in Others(accounts, k) && a in Others(accounts, l);
      OutranksEach(a.rank, a.partial, a.stated, a.firstSeen, Others(accounts, k), b);
      OutranksEach(b.rank, b.partial, b.stated, b.firstSeen, Others(accounts, l), a);
      assert false;
    }
  }

  /** The accounts decide which, so that the theorem below speaks of every chorus. */
  lemma ThereIsOneAnswer(m: Matching, s: State, j: JobId, voices: set<Voice>)
    requires Chorus(m, s, j, voices)
    ensures exists owner :: IsTheOwner(s, j, voices, owner)
    ensures forall x, y :: IsTheOwner(s, j, voices, x) && IsTheOwner(s, j, voices, y) ==> x == y
  {
    hide Chorus, Owns, SomeoneShould, AccountsOf;
    var accounts := AccountsOf(s, j);
    AnOwnerExistsIff(accounts);
    if k :| Owns(accounts, k) {
      OwnsListed(accounts, k);
      SourcesOfChorus(m, s, j, voices, k);
      var o :| o in voices && o.reg.key == k;
      assert IsTheOwner(s, j, voices, Some(o));
    } else {
      assert IsTheOwner(s, j, voices, None);
    }
    forall x, y | IsTheOwner(s, j, voices, x) && IsTheOwner(s, j, voices, y) ensures x == y {
      if x.Some? && y.Some? {
        OnlyOneOwns(accounts, x.value.reg.key, y.value.reg.key);
        SameKeySameVoice(m, s, j, voices, x.value, y.value);
      }
    }
  }

  lemma OwnsListed(accounts: Accounts, k: SourceKey)
    requires Owns(accounts, k)
    ensures k in accounts
  {
  }

  lemma SameKeySameVoice(m: Matching, s: State, j: JobId, voices: set<Voice>, v: Voice, w: Voice)
    requires Chorus(m, s, j, voices) && v in voices && w in voices && v.reg.key == w.reg.key
    ensures v == w
  {
  }

  /** The first stated one of a value and what the voices say of the field in turn. */
  function FirstSaid(value: Value, steps: seq<Step>, voices: set<Voice>, f: Field): Value
    decreases |steps|
  {
    if IsStated(value) || steps == [] then value
    else FirstSaid(Said(value, steps[0], voices, f), steps[1..], voices, f)
  }

  function Said(value: Value, step: Step, voices: set<Voice>, f: Field): Value {
    if step.Send? && Voice(step.reg, step.record) in voices && IsStated(step.record.fields.At(f))
    then step.record.fields.At(f)
    else value
  }

  /** What a field ends with: the owner's word once the owner has spoken, if it states the
      field, and otherwise the first that anybody said. */
  function LastWord(
    before: Value, steps: seq<Step>, voices: set<Voice>, owner: Option<Voice>, f: Field): Value
  {
    if owner.Some? && IsStated(owner.value.record.fields.At(f)) && HasSpoken(steps, owner.value)
    then owner.value.record.fields.At(f)
    else FirstSaid(before, steps, voices, f)
  }

  /** Over every later interleaving with everything else, whoever speaks when: each field is
      the owner's once the owner, stating it, has sent; where there is no owner, or it is
      silent or has not sent yet, the first value stated is never given up. */
  lemma {:induction false} TheOwnerIsHeardByAll(
    m: Matching, s: State, steps: seq<Step>, j: JobId, voices: set<Voice>, owner: Option<Voice>, f: Field)
    requires Chorus(m, s, j, voices) && AllChorusTurns(m, s, steps, j, voices) && IsTheOwner(s, j, voices, owner)
    ensures Chorus(m, Run(m, s, steps), j, voices) && IsTheOwner(Run(m, s, steps), j, voices, owner)
    ensures j in s.jobs && j in Run(m, s, steps).jobs
    ensures Run(m, s, steps).jobs[j].fields.At(f) == LastWord(s.jobs[j].fields.At(f), steps, voices, owner, f)
    decreases |steps|
  {
    hide Chorus, ChorusTurn, Apply, AccountsOf, SomeoneShould, Owns, LastWord;
    ChorusIsListed(m, s, j, voices);
    var before := s.jobs[j].fields.At(f);
    if steps == [] {
      NothingSaid(before, voices, owner, f);
    } else {
      var step, rest := steps[0], steps[1..];
      var t := Apply(m, s, step);
      OneChorusTurn(m, s, step, j, voices);
      TheOwnerIsHeardByAll(m, t, rest, j, voices, owner, f);
      var between := t.jobs[j].fields.At(f);
      OneVoiceHeard(m, s, t, step, j, voices, owner, f);
      assert steps == [step] + rest;
      LastWordAfterOne(before, between, step, rest, voices, owner, f);
    }
  }

  lemma NothingSaid(value: Value, voices: set<Voice>, owner: Option<Voice>, f: Field)
    ensures LastWord(value, [], voices, owner, f) == value
  {
  }

  /** One field after one turn: the owner takes it and the others only fill it. */
  predicate HeardOnce(
    before: Value, between: Value, step: Step, voices: set<Voice>, owner: Option<Voice>, f: Field)
  {
    between == if owner.Some? && Speaks(step, owner.value) && IsStated(owner.value.record.fields.At(f))
               then owner.value.record.fields.At(f)
               else if IsStated(before) then before else Said(before, step, voices, f)
  }

  lemma OneVoiceHeard(
    m: Matching, s: State, t: State, step: Step, j: JobId, voices: set<Voice>, owner: Option<Voice>, f: Field)
    requires Chorus(m, s, j, voices) && IsTheOwner(s, j, voices, owner)
    requires j in s.jobs && j in t.jobs && Sung(s, t, step, j, voices)
    ensures HeardOnce(s.jobs[j].fields.At(f), t.jobs[j].fields.At(f), step, voices, owner, f)
  {
    hide Chorus, AccountsOf, SomeoneShould, Owns;
    var accounts := AccountsOf(s, j);
    AnOwnerExistsIff(accounts);
    if step.Send? && Voice(step.reg, step.record) in voices && Owns(accounts, step.reg.key) {
      OnlyOneOwns(accounts, step.reg.key, owner.value.reg.key);
      SameKeySameVoice(m, s, j, voices, owner.value, Voice(step.reg, step.record));
    }
  }

  lemma LastWordAfterOne(
    before: Value, between: Value, step: Step, rest: seq<Step>, voices: set<Voice>, owner: Option<Voice>, f: Field)
    requires HeardOnce(before, between, step, voices, owner, f)
    requires owner.Some? ==> owner.value in voices
    ensures LastWord(before, [step] + rest, voices, owner, f) == LastWord(between, rest, voices, owner, f)
  {
    hide HasSpoken;
    if owner.Some? { FirstSpeaks(step, rest, owner.value); }
    var all := [step] + rest;
    assert all[0] == step && all[1..] == rest;
  }
}
