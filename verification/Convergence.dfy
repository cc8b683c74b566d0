/** Two sources that keep sending fixed records about one job settle its fields. */
module Convergence {
  import opened Extremes
  import opened Wrappers
  import opened Catalogue
  import opened Ownership
  import opened Lifecycle
  import opened LifecycleLaws
  import P = Persistence
  import opened Contracts
  import R = Reconciliation
  import T = Retention

  /** One source's unchanging account of the job. */
  datatype Voice = Voice(reg: Registration, record: Record)

  function AccountGiven(v: Voice, firstSeen: Instant): Account {
    Account(v.reg.precedence, firstSeen, true, v.record.partial, StatedFieldCount(v.record.fields))
  }

  /** Rank, then completeness, then who listed the job first. */
  predicate Beats(v: Voice, vSeen: Instant, w: Voice, wSeen: Instant) {
    var vStated, wStated := StatedFieldCount(v.record.fields), StatedFieldCount(w.record.fields);
    if v.reg.precedence != w.reg.precedence then v.reg.precedence > w.reg.precedence
    else if (v.record.partial, vStated) != (w.record.partial, wStated) then
      MoreComplete(v.record.partial, vStated, w.record.partial, wStated)
    else vSeen < wSeen
  }

  /** The higher-ranked voice sends a snippet while the lower-ranked one has the text. */
  predicate Deadlocked(v: Voice, w: Voice) {
    || (v.reg.precedence > w.reg.precedence && v.record.partial && !w.record.partial)
    || (w.reg.precedence > v.reg.precedence && w.record.partial && !v.record.partial)
  }

  predicate OutranksAlone(v: Voice, vSeen: Instant, w: Voice, wSeen: Instant) {
    Outranks(v.reg.precedence, v.record.partial, StatedFieldCount(v.record.fields), vSeen, {AccountGiven(w, wSeen)})
  }

  lemma OwnerOfOne(a: Account)
    requires a.live
    ensures OwnerOf({a}) == Some(Owner(a.rank, a.firstSeen, a.partial, a.stated))
  {
    var one := {a};
    assert a in one;
    var owning := Owning(one);
    assert owning == {a};
  }

  lemma AgainstOne(v: Voice, vSeen: Instant, w: Voice, wSeen: Instant)
    ensures OutranksAlone(v, vSeen, w, wSeen)
       <==> Beats(v, vSeen, w, wSeen) && !(v.record.partial && !w.record.partial)
  {
    OwnerOfOne(AccountGiven(w, wSeen));
    assert AccountGiven(w, wSeen) in {AccountGiven(w, wSeen)};
  }

  /** Between two live voices exactly one owns the job, unless a snippet outranks a
      full text or nothing at all tells them apart. */
  lemma TwoVoicesHaveOneOwnerIff(v: Voice, vSeen: Instant, w: Voice, wSeen: Instant)
    ensures (OutranksAlone(v, vSeen, w, wSeen) != OutranksAlone(w, wSeen, v, vSeen))
       <==> !Deadlocked(v, w) && AccountGiven(v, vSeen) != AccountGiven(w, wSeen)
  {
    hide OutranksAlone;
    AgainstOne(v, vSeen, w, wSeen);
    AgainstOne(w, wSeen, v, vSeen);
  }

  /** The winner's value where it states one, else the other's, else nothing stated. */
  predicate Settled(fields: Canonical, winner: Canonical, other: Canonical) {
    forall f: Field ::
      if IsStated(winner.At(f)) then fields.At(f) == winner.At(f)
      else if IsStated(other.At(f)) then fields.At(f) == other.At(f)
      else !IsStated(fields.At(f))
  }

  lemma SecondVoiceSettles(first: Canonical, second: Canonical, secondOutranks: bool)
    ensures Settled(
      Merge(first, second, secondOutranks),
      if secondOutranks then second else first,
      if secondOutranks then first else second)
  {
  }

  lemma SettledStays(fields: Canonical, winner: Canonical, other: Canonical)
    requires Settled(fields, winner, other)
    ensures Settled(Merge(fields, winner, true), winner, other)
    ensures Settled(Merge(fields, other, false), winner, other)
    ensures Settled(Merge(fields, winner, false), winner, other)
  {
  }

  // ---------- The run ----------

  /** Who owns the job: the first voice created it, and keeps it in a deadlock. */
  predicate FirstOwns(a: Voice, aSeen: Instant, b: Voice, bSeen: Instant) {
    Deadlocked(a, b) || Beats(a, aSeen, b, bSeen)
  }

  lemma OwnersAreOpposite(a: Voice, aSeen: Instant, b: Voice, bSeen: Instant)
    requires aSeen != bSeen
    ensures OutranksAlone(b, bSeen, a, aSeen) <==> !FirstOwns(a, aSeen, b, bSeen)
    ensures OutranksAlone(a, aSeen, b, bSeen) ==> FirstOwns(a, aSeen, b, bSeen)
  {
    hide OutranksAlone;
    AgainstOne(a, aSeen, b, bSeen);
    AgainstOne(b, bSeen, a, aSeen);
  }

  predicate ListedBy(s: State, j: JobId, v: Voice) {
    Lists(s, j, v.reg, v.record)
  }

  /** Only `a` and `b` have rows on the job, both live where they have one; `a` has. */
  predicate Hosted(m: Matching, s: State, j: JobId, a: Voice, b: Voice) {
    && Valid(m, s) && j in s.jobs
    && a.reg.key != b.reg.key && b.record.source == b.reg.key
    && (forall k :: k in s.rows && s.rows[k].job == j ==> k == a.record.Key() || k == b.record.Key())
    && ListedBy(s, j, a)
    && (b.record.Key() in s.rows ==> ListedBy(s, j, b))
  }

  /** A job of the two, whose fields are `a`'s until `b` has written, as they are when `a`
      created it, and settled ever after. */
  predicate Ongoing(m: Matching, s: State, j: JobId, a: Voice, b: Voice) {
    && Hosted(m, s, j, a, b)
    && (if b.record.Key() !in s.rows then s.jobs[j].fields == a.record.fields
        else
          && var aSeen, bSeen := s.rows[a.record.Key()].firstSeen, s.rows[b.record.Key()].firstSeen;
          && aSeen != bSeen
          && if FirstOwns(a, aSeen, b, bSeen)
             then Settled(s.jobs[j].fields, a.record.fields, b.record.fields)
             else Settled(s.jobs[j].fields, b.record.fields, a.record.fields))
  }

  /** A step the theorem ranges over. The two voices send only their fixed records for
      this job, at times no earlier than they first listed it, and are not rolled back;
      every other send lands elsewhere; no sweep retires their rows. Anything else goes. */
  predicate Turn(m: Matching, s: State, step: Step, j: JobId, a: Voice, b: Voice) {
    match step
    case Send(reg, r, seenAt, now) =>
      && (reg.key == a.reg.key ==> reg == a.reg)
      && (reg.key == b.reg.key ==> reg == b.reg)
      && var report := P.Persist(m, s, reg, r, seenAt, now).1;
      && (r.Key() == a.record.Key() || r.Key() == b.record.Key() || report.job == Some(j) ==>
            && report.job == Some(j) && a.record.Key() in s.rows
            && ((reg, r) == (a.reg, a.record) || (reg, r) == (b.reg, b.record))
            && (if r.Key() in s.rows then s.rows[r.Key()].firstSeen <= seenAt
                else s.rows[a.record.Key()].firstSeen != seenAt))
    case Reconcile(summary, started, now) =>
      forall k :: k in s.rows && s.rows[k].job == j && s.rows[k].retired.None? ==>
        k !in R.Unseen(s.rows, summary.source,
          if R.RuleOf(summary) == R.Refused then started else R.UnseenBefore(summary, started))
    case Expire(_, _) => true
    case Retain(_, _, _, _, _) => true
  }

  /** What the pair depends on is untouched. */
  predicate Undisturbed(s: State, t: State, j: JobId, a: Voice, b: Voice) {
    && j in s.jobs && j in t.jobs && t.jobs[j].fields == s.jobs[j].fields
    && (forall k :: k in t.rows && t.rows[k].job == j ==> k in s.rows && s.rows[k].job == j)
    && (forall k :: k in s.rows && s.rows[k].job == j ==> k in t.rows && t.rows[k] == s.rows[k])
    && (b.record.Key() in t.rows ==> b.record.Key() in s.rows)
    && (forall v :: v in {a, b} && v.reg.key in s.sources ==>
          v.reg.key in t.sources
          && (s.sources[v.reg.key] == v.reg.precedence ==> t.sources[v.reg.key] == v.reg.precedence))
  }

  lemma UndisturbedStaysHosted(m: Matching, s: State, t: State, j: JobId, a: Voice, b: Voice)
    requires Hosted(m, s, j, a, b) && Undisturbed(s, t, j, a, b) && Valid(m, t)
    ensures Hosted(m, t, j, a, b)
    ensures b.record.Key() in t.rows <==> b.record.Key() in s.rows
    ensures t.rows[a.record.Key()] == s.rows[a.record.Key()]
    ensures b.record.Key() in s.rows ==> t.rows[b.record.Key()] == s.rows[b.record.Key()]
  {
    assert a in {a, b} && b in {a, b};
  }

  lemma UndisturbedStaysOngoing(m: Matching, s: State, t: State, j: JobId, a: Voice, b: Voice)
    requires Ongoing(m, s, j, a, b) && Undisturbed(s, t, j, a, b) && Valid(m, t)
    ensures Ongoing(m, t, j, a, b)
  {
    hide Hosted, FirstOwns, Settled;
    UndisturbedStaysHosted(m, s, t, j, a, b);
  }

  lemma ChangeElsewhere(s: State, t: State, i: JobId, key: RowKey, j: JobId, a: Voice, b: Voice)
    requires j in s.jobs && i != j && ChangesOnly(s, t, i, key)
    requires key == b.record.Key() ==> key in s.rows
    requires forall v :: v in {a, b} && v.reg.key in s.sources && s.sources[v.reg.key] == v.reg.precedence ==>
               v.reg.key in t.sources && t.sources[v.reg.key] == v.reg.precedence
    ensures Undisturbed(s, t, j, a, b)
  {
  }

  lemma SendElsewhere(m: Matching, s: State, step: Step, j: JobId, a: Voice, b: Voice)
    requires Hosted(m, s, j, a, b) && step.Send? && Turn(m, s, step, j, a, b)
    requires P.Persist(m, s, step.reg, step.record, step.seenAt, step.now).1.job != Some(j)
    ensures Undisturbed(s, Apply(m, s, step), j, a, b)
  {
    hide P.Persist, ChangesOnly, Undisturbed, Settled, FirstOwns;
    var Send(reg, r, seenAt, now) := step;
    var (t, report) := P.Persist(m, s, reg, r, seenAt, now);
    ReappearanceUndoesBothConclusions(m, s, reg, r, seenAt, now);
    SendRegisters(m, s, reg, r, seenAt, now);
    if report.failed { NothingDisturbed(s, j, a, b); }
    else { ChangeElsewhere(s, t, report.job.value, r.Key(), j, a, b); }
  }

  lemma NothingDisturbed(s: State, j: JobId, a: Voice, b: Voice)
    requires j in s.jobs
    ensures Undisturbed(s, s, j, a, b)
  {
  }

  lemma SendRegisters(m: Matching, s: State, reg: Registration, r: Record, seenAt: Instant, now: Instant)
    ensures var (t, report) := P.Persist(m, s, reg, r, seenAt, now);
            t.sources == if report.failed then s.sources else s.sources[reg.key := reg.precedence]
  {
  }

  lemma SweepsDoNotDisturb(m: Matching, s: State, step: Step, j: JobId, a: Voice, b: Voice)
    requires Hosted(m, s, j, a, b) && !step.Send? && Turn(m, s, step, j, a, b)
    ensures Undisturbed(s, Apply(m, s, step), j, a, b)
  {
    hide R.Reconcile, R.Expire, T.Page, Undisturbed, Hosted, Turn;
    match step {
      case Reconcile(summary, started, now) => ReconcileElsewhere(m, s, step, j, a, b);
      case Expire(at, now) => ExpiryElsewhere(m, s, step, j, a, b);
      case Retain(page, referenced, cutoff, at, now) => RetentionElsewhere(m, s, step, j, a, b);
    }
  }

  lemma ExpiryElsewhere(m: Matching, s: State, step: Step, j: JobId, a: Voice, b: Voice)
    requires Hosted(m, s, j, a, b) && step.Expire?
    ensures Undisturbed(s, Apply(m, s, step), j, a, b)
  {
    hide Settled, FirstOwns, Valid;
  }

  lemma RetentionElsewhere(m: Matching, s: State, step: Step, j: JobId, a: Voice, b: Voice)
    requires Hosted(m, s, j, a, b) && step.Retain?
    ensures Undisturbed(s, Apply(m, s, step), j, a, b)
  {
    hide T.Page, Settled, FirstOwns, Valid;
    var Retain(page, referenced, cutoff, at, now) := step;
    assert Listed(s, j) by { assert s.rows[a.record.Key()].retired.None?; }
    RetentionSparesTheListed(s, page, referenced, cutoff, at, now, j);
    RetainedKeys(s, page, referenced, cutoff, at, now);
  }

  lemma RetainedKeys(s: State, page: set<JobId>, referenced: set<JobId>, cutoff: Instant, at: Instant, now: Instant)
    ensures var t := T.Page(s, page, referenced, cutoff, at, now);
            t.sources == s.sources && forall k :: k in t.rows ==> k in s.rows && t.rows[k].job == s.rows[k].job
  {
  }

  lemma ReconciledRows(s: State, summary: Summary, started: Instant, now: Instant)
    ensures var t := R.Reconcile(s, summary, started, now).0;
            t.sources == s.sources && t.rows.Keys == s.rows.Keys
            && forall k :: k in s.rows ==> t.rows[k].job == s.rows[k].job
  {
  }

  lemma ReconcileElsewhere(m: Matching, s: State, step: Step, j: JobId, a: Voice, b: Voice)
    requires Hosted(m, s, j, a, b) && step.Reconcile? && Turn(m, s, step, j, a, b)
    ensures Undisturbed(s, Apply(m, s, step), j, a, b)
  {
    hide R.Reconcile, R.RuleOf, R.UnseenBefore, Settled, FirstOwns, Valid;
    var Reconcile(summary, started, now) := step;
    ReconcileLeavesContents(s, summary, started, now, j);
    ReconciledRows(s, summary, started, now);
    forall k | k in s.rows { AbsenceIsPerSource(s, summary, started, now, k); }
  }

  /** When the row of a voice was first seen, counting a record that arrives. */
  function SeenWith(s: State, v: Voice, seenAt: Instant): Instant {
    if v.record.Key() in s.rows then s.rows[v.record.Key()].firstSeen else seenAt
  }

  /** What one voice's own send leaves: the pair as it was, with that voice's row, and the
      record folded in. */
  predicate Written(m: Matching, s: State, t: State, j: JobId, a: Voice, b: Voice, v: Voice, seenAt: Instant) {
    && Hosted(m, t, j, a, b) && j in s.jobs && v.record.Key() in t.rows
    && t.jobs[j].fields == P.Folded(s, j, v.reg, v.record, seenAt)
    && (b.record.Key() in t.rows <==> v == b || b.record.Key() in s.rows)
    && t.rows[a.record.Key()].firstSeen == SeenWith(s, a, seenAt)
    && (b.record.Key() in t.rows ==> t.rows[b.record.Key()].firstSeen == SeenWith(s, b, seenAt))
  }

  lemma OwnSendWrites(
    m: Matching, s: State, j: JobId, a: Voice, b: Voice, v: Voice, seenAt: Instant, now: Instant)
    requires Hosted(m, s, j, a, b) && (v == a || v == b)
    requires Turn(m, s, Send(v.reg, v.record, seenAt, now), j, a, b)
    ensures Written(m, s, P.Persist(m, s, v.reg, v.record, seenAt, now).0, j, a, b, v, seenAt)
  {
    hide P.Persist, P.Folded, P.Land, P.Register, Written, Hosted, Turn, Valid, ChangesOnly;
    OwnTurn(m, s, j, a, b, v, seenAt, now);
    var (t, report) := P.Persist(m, s, v.reg, v.record, seenAt, now);
    SendKeepsValid(m, s, v.reg, v.record, seenAt, now);
    ReappearanceUndoesBothConclusions(m, s, v.reg, v.record, seenAt, now);
    SendRegisters(m, s, v.reg, v.record, seenAt, now);
    StoredSendFolds(m, s, v.reg, v.record, seenAt, now);
    var fields := P.Folded(s, j, v.reg, v.record, seenAt);
    var matchKey := m.keyOf(s.jobs[j].company, fields.title);
    LandChangesOnly(s, v.reg, j, fields, matchKey, v.record, seenAt, now);
    LandedRow(s, v.reg, j, fields, matchKey, v.record, seenAt, now);
    VoiceHasWritten(m, s, t, j, a, b, v, seenAt);
  }

  lemma OwnTurn(m: Matching, s: State, j: JobId, a: Voice, b: Voice, v: Voice, seenAt: Instant, now: Instant)
    requires Hosted(m, s, j, a, b) && (v == a || v == b)
    requires Turn(m, s, Send(v.reg, v.record, seenAt, now), j, a, b)
    ensures Valid(m, s) && SeenInOrder(s) && j in s.jobs
    ensures P.Persist(m, s, v.reg, v.record, seenAt, now).1.job == Some(j)
    ensures v.record.Key() in s.rows ==> s.rows[v.record.Key()].job == j && s.rows[v.record.Key()].firstSeen <= seenAt
  {
    hide P.Persist;
  }

  lemma VoiceHasWritten(m: Matching, s: State, t: State, j: JobId, a: Voice, b: Voice, v: Voice, seenAt: Instant)
    requires Hosted(m, s, j, a, b) && (v == a || v == b) && v.record.source == v.reg.key
    requires Valid(m, t) && ChangesOnly(s, t, j, v.record.Key())
    requires t.sources == s.sources[v.reg.key := v.reg.precedence]
    requires t.jobs[j].fields == P.Folded(s, j, v.reg, v.record, seenAt)
    requires t.rows[v.record.Key()].payload == StoredPayload(v.record)
    requires t.rows[v.record.Key()].firstSeen == SeenWith(s, v, seenAt)
    ensures Written(m, s, t, j, a, b, v, seenAt)
  {
    hide P.Folded, Valid;
    assert a.record.Key() != b.record.Key();
  }

  /** One voice's own send, while both are live or `b` is writing for the first time. */
  lemma OwnSendSettles(
    m: Matching, s: State, j: JobId, a: Voice, b: Voice, v: Voice, seenAt: Instant, now: Instant)
    requires Ongoing(m, s, j, a, b) && (v == a || v == b)
    requires Turn(m, s, Send(v.reg, v.record, seenAt, now), j, a, b)
    ensures Ongoing(m, P.Persist(m, s, v.reg, v.record, seenAt, now).0, j, a, b)
  {
    hide P.Persist, P.Folded, FirstOwns, Settled, Hosted;
    OwnSendWrites(m, s, j, a, b, v, seenAt, now);
    VoicesHaveKeys(m, s, j, a, b);
    FoldOfAVoice(m, s, j, a, b, v, seenAt);
  }

  lemma VoicesHaveKeys(m: Matching, s: State, j: JobId, a: Voice, b: Voice)
    requires Hosted(m, s, j, a, b)
    ensures a.record.Key() in s.rows && j in s.jobs && a.record.Key() != b.record.Key()
  {
  }

  lemma LandedRow(
    s: State, reg: Registration, j: JobId, fields: Canonical, matchKey: string, r: Record,
    seenAt: Instant, now: Instant)
    requires j in s.jobs
    ensures var t := P.Land(P.Register(s, reg), j, fields, matchKey, r, seenAt, now);
            && t.rows[r.Key()].payload == StoredPayload(r)
            && t.rows[r.Key()].firstSeen
               == if r.Key() in s.rows then Min(s.rows[r.Key()].firstSeen, seenAt) else seenAt
  {
  }

  /** What folding a voice's record in gives, case by case. */
  lemma FoldOfAVoice(m: Matching, s: State, j: JobId, a: Voice, b: Voice, v: Voice, seenAt: Instant)
    requires Ongoing(m, s, j, a, b) && (v == a || v == b)
    requires if v.record.Key() in s.rows then s.rows[v.record.Key()].firstSeen <= seenAt
             else s.rows[a.record.Key()].firstSeen != seenAt
    ensures var fields := P.Folded(s, j, v.reg, v.record, seenAt);
            var aSeen := s.rows[a.record.Key()].firstSeen;
            if b.record.Key() !in s.rows && v == a then fields == a.record.fields
            else
              var bSeen := if b.record.Key() in s.rows then s.rows[b.record.Key()].firstSeen else seenAt;
              if FirstOwns(a, aSeen, b, bSeen) then Settled(fields, a.record.fields, b.record.fields)
              else Settled(fields, b.record.fields, a.record.fields)
  {
    hide OutranksAlone, FirstOwns, Merge, Settled;
    RankingOfAVoice(m, s, j, a, b, v, seenAt);
    var aSeen := s.rows[a.record.Key()].firstSeen;
    if b.record.Key() !in s.rows {
      if v == a { FoldingTheStored(s, j, a.reg, a.record, seenAt); }
      else {
        OwnersAreOpposite(a, aSeen, b, seenAt);
        SecondVoiceSettles(a.record.fields, b.record.fields, OutranksAlone(b, seenAt, a, aSeen));
      }
    } else {
      var bSeen := s.rows[b.record.Key()].firstSeen;
      OwnersAreOpposite(a, aSeen, b, bSeen);
      if FirstOwns(a, aSeen, b, bSeen) { SettledStays(s.jobs[j].fields, a.record.fields, b.record.fields); }
      else { SettledStays(s.jobs[j].fields, b.record.fields, a.record.fields); }
    }
  }

  /** The stored rows rank a voice exactly as the two accounts alone do. */
  lemma RankingOfAVoice(m: Matching, s: State, j: JobId, a: Voice, b: Voice, v: Voice, seenAt: Instant)
    requires Hosted(m, s, j, a, b) && (v == a || v == b)
    requires v.record.Key() in s.rows ==> s.rows[v.record.Key()].firstSeen <= seenAt
    ensures v == a && b.record.Key() in s.rows ==>
              IncomingOutranks(P.Register(s, a.reg), j, a.reg, a.record, seenAt)
              == OutranksAlone(a, s.rows[a.record.Key()].firstSeen, b, s.rows[b.record.Key()].firstSeen)
    ensures v == b ==>
              IncomingOutranks(P.Register(s, b.reg), j, b.reg, b.record, seenAt)
              == OutranksAlone(b, if b.record.Key() in s.rows then s.rows[b.record.Key()].firstSeen else seenAt,
                               a, s.rows[a.record.Key()].firstSeen)
  {
    hide Outranks, FirstListedAt, RivalAccounts;
    if v == a && b.record.Key() in s.rows {
      ListedOnce(P.Register(s, a.reg), j, a.record.Key(), seenAt);
      OneRival(P.Register(s, a.reg), j, a.reg.key, b);
    }
    if v == b {
      ListedOnce(P.Register(s, b.reg), j, b.record.Key(), seenAt);
      OneRival(P.Register(s, b.reg), j, b.reg.key, a);
    }
  }

  lemma ListedOnce(s: State, j: JobId, key: RowKey, seenAt: Instant)
    requires forall k :: k in s.rows && s.rows[k].job == j && k.source == key.source ==> k == key
    requires key in s.rows ==> s.rows[key].job == j && s.rows[key].firstSeen <= seenAt
    ensures FirstListedAt(s, j, key.source, seenAt)
         == if key in s.rows then s.rows[key].firstSeen else seenAt
  {
    var dates := set k | k in s.rows && k.source == key.source && s.rows[k].job == j :: s.rows[k].firstSeen;
    assert forall d :: d in dates ==> d == s.rows[key].firstSeen;
    if key in s.rows { assert s.rows[key].firstSeen in dates; }
  }

  lemma OneRival(s: State, j: JobId, source: SourceKey, w: Voice)
    requires ListedBy(s, j, w) && w.reg.key != source
    requires forall k :: k in s.rows && s.rows[k].job == j && k.source != source ==> k == w.record.Key()
    ensures RivalAccounts(s, j, source) == {AccountGiven(w, s.rows[w.record.Key()].firstSeen)}
  {
    var account := AccountGiven(w, s.rows[w.record.Key()].firstSeen);
    assert AccountOf(s, w.record.Key()) == account;
    assert account in RivalAccounts(s, j, source);
    forall x | x in RivalAccounts(s, j, source) ensures x == account {
      var k :| k in s.rows && k.source in s.sources && s.rows[k].job == j && k.source != source && AccountOf(s, k) == x;
    }
  }

  ghost predicate AllTurns(m: Matching, s: State, steps: seq<Step>, j: JobId, a: Voice, b: Voice)
    decreases |steps|
  {
    steps != [] ==> Turn(m, s, steps[0], j, a, b) && AllTurns(m, Apply(m, s, steps[0]), steps[1..], j, a, b)
  }

  lemma TurnKeepsOngoing(m: Matching, s: State, step: Step, j: JobId, a: Voice, b: Voice)
    requires Ongoing(m, s, j, a, b) && Turn(m, s, step, j, a, b)
    ensures Ongoing(m, Apply(m, s, step), j, a, b)
  {
    hide Undisturbed, P.Persist;
    StepKeepsValid(m, s, step);
    if !step.Send? {
      SweepsDoNotDisturb(m, s, step, j, a, b);
      UndisturbedStaysOngoing(m, s, Apply(m, s, step), j, a, b);
    } else if P.Persist(m, s, step.reg, step.record, step.seenAt, step.now).1.job != Some(j) {
      SendElsewhere(m, s, step, j, a, b);
      UndisturbedStaysOngoing(m, s, Apply(m, s, step), j, a, b);
    } else {
      var v := if (step.reg, step.record) == (a.reg, a.record) then a else b;
      OwnSendSettles(m, s, j, a, b, v, step.seenAt, step.now);
    }
  }

  /** Whatever the interleaving, with every other activity of the catalogue in
      between: once both voices have written, each field is the owner's value if it
      states one and otherwise the other's. */
  lemma {:induction false} TwoVoicesConverge(m: Matching, s: State, steps: seq<Step>, j: JobId, a: Voice, b: Voice)
    requires Ongoing(m, s, j, a, b) && AllTurns(m, s, steps, j, a, b)
    ensures Ongoing(m, Run(m, s, steps), j, a, b)
    decreases |steps|
  {
    if steps != [] {
      TurnKeepsOngoing(m, s, steps[0], j, a, b);
      TwoVoicesConverge(m, Apply(m, s, steps[0]), steps[1..], j, a, b);
    }
  }

  /** The run may start from any stored creation by `a`, before `b` has a row. */
  lemma CreationStartsIt(m: Matching, s: State, a: Voice, b: Voice, seenAt: Instant, now: Instant)
    requires Valid(m, s) && a.reg.key != b.reg.key && b.record.source == b.reg.key
    requires b.record.Key() !in s.rows
    requires P.Persist(m, s, a.reg, a.record, seenAt, now).1.outcome == P.Created
    ensures var (t, report) := P.Persist(m, s, a.reg, a.record, seenAt, now);
            report.job.Some? && Ongoing(m, t, report.job.value, a, b)
  {
    hide P.Persist, P.Land, P.Folded, Valid;
    SendKeepsValid(m, s, a.reg, a.record, seenAt, now);
    ReappearanceUndoesBothConclusions(m, s, a.reg, a.record, seenAt, now);
    SendRegisters(m, s, a.reg, a.record, seenAt, now);
    CreatedRow(m, s, a.reg, a.record, seenAt, now);
    NoRowsYet(m, s);
  }

  lemma NoRowsYet(m: Matching, s: State)
    requires Valid(m, s)
    ensures forall k :: k in s.rows ==> s.rows[k].job < s.nextJob
  {
  }

  lemma CreatedRow(m: Matching, s: State, reg: Registration, r: Record, seenAt: Instant, now: Instant)
    requires Valid(m, s) && P.Persist(m, s, reg, r, seenAt, now).1.outcome == P.Created
    ensures var t := P.Persist(m, s, reg, r, seenAt, now).0;
            reg.key == r.source && r.Key() in t.rows && t.rows[r.Key()].payload == StoredPayload(r)
  {
  }
}
