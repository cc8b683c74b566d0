/** What holds of every run of the CV protocol, whatever fails and whoever interleaves. */
module CvLaws {
  import opened CvProtocol

  lemma StepKeepsValid(s: State, a: Action)
    requires Valid(s) && Enabled(s, a)
    ensures Valid(Apply(s, a))
  {
    hide Apply, Enabled, OwnersExist, InferencesAreBacked, FilesAreNamed, ReadsAreExclusive, KeysAreDistinct;
    StepKeepsOwners(s, a);
    StepKeepsInferencesBacked(s, a);
    StepKeepsFilesNamed(s, a);
    StepKeepsReadsExclusive(s, a);
    StepKeepsKeysDistinct(s, a);
  }

  lemma {:induction false} RunKeepsValid(s: State, run: seq<Action>)
    requires Valid(s) && Possible(s, run)
    ensures Valid(After(s, run))
  {
    hide Apply, Enabled, Valid;
    if run != [] {
      RunKeepsValid(s, run[..|run| - 1]);
      StepKeepsValid(After(s, run[..|run| - 1]), run[|run| - 1]);
    }
  }

  lemma EveryRunIsValid(run: seq<Action>)
    requires Possible(EMPTY, run)
    ensures Valid(After(EMPTY, run))
  {
    RunKeepsValid(EMPTY, run);
  }

  // ---------- States ----------

  /** Zero or more moves of the transition table. */
  predicate CanBecome(from: CvState, to: CvState) {
    from == to || (from != Processed && to != Pending)
  }

  lemma OneMoveOrNone(from: CvState, via: CvState, to: CvState)
    requires CanBecome(from, via) && (via == to || to in Allowed(via))
    ensures CanBecome(from, to)
  {
  }

  lemma StepFollowsTheTable(s: State, a: Action, c: CvId)
    requires Enabled(s, a) && OwnersExist(s)
    requires c in Apply(s, a).cvs
    ensures c in s.cvs ==>
      && Apply(s, a).cvs[c] == s.cvs[c].(state := Apply(s, a).cvs[c].state)
      && (Apply(s, a).cvs[c].state == s.cvs[c].state || Apply(s, a).cvs[c].state in Allowed(s.cvs[c].state))
    ensures c !in s.cvs ==> Apply(s, a).cvs[c].state == Pending && c !in s.known
  {
  }

  lemma KnownStaysKnown(s: State, a: Action)
    requires Enabled(s, a)
    ensures s.known <= Apply(s, a).known
  {
  }

  /** A CV that is there at both ends was there throughout, moved only by the table, and
      changed nothing else; so nothing returns to pending and processed is final. */
  lemma {:induction false} StatesFollowTheTable(s: State, run: seq<Action>, c: CvId)
    requires Valid(s) && Possible(s, run) && c in s.known
    ensures c in After(s, run).known
    ensures c in After(s, run).cvs ==>
      && c in s.cvs
      && After(s, run).cvs[c] == s.cvs[c].(state := After(s, run).cvs[c].state)
      && CanBecome(s.cvs[c].state, After(s, run).cvs[c].state)
  {
    hide Apply, Enabled, CanBecome, Allowed;
    if run == [] {
      assert c in s.cvs ==> CanBecome(s.cvs[c].state, s.cvs[c].state) by { SelfIsReachable(s, c); }
    } else {
      var before, a := After(s, run[..|run| - 1]), run[|run| - 1];
      StatesFollowTheTable(s, run[..|run| - 1], c);
      RunKeepsValid(s, run[..|run| - 1]);
      KnownStaysKnown(before, a);
      if c in Apply(before, a).cvs {
        StepFollowsTheTable(before, a, c);
        OneMoveOrNone(s.cvs[c].state, before.cvs[c].state, Apply(before, a).cvs[c].state);
      }
    }
  }

  lemma SelfIsReachable(s: State, c: CvId)
    ensures c in s.cvs ==> CanBecome(s.cvs[c].state, s.cvs[c].state)
  {
  }

  /** Concluding a read never asks for a move the table refuses. */
  lemma ConcludingNeverRaises(run: seq<Action>, c: CvId)
    requires Possible(EMPTY, run)
    requires c in After(EMPTY, run).reading && c in After(EMPTY, run).cvs
    ensures {Processed, Failed} <= Allowed(After(EMPTY, run).cvs[c].state)
  {
    EveryRunIsValid(run);
  }

  /** No two reads of one CV go on at once: one that begins finds none. */
  lemma AReadBeginsAlone(run: seq<Action>, c: CvId)
    requires Possible(EMPTY, run) && Apply(After(EMPTY, run), BeginRead(c)) != After(EMPTY, run)
    ensures c !in After(EMPTY, run).reading && c in Apply(After(EMPTY, run), BeginRead(c)).reading
  {
    EveryRunIsValid(run);
  }

  lemma StepLeavesAbandoned(s: State, a: Action, c: CvId)
    requires Enabled(s, a) && OwnersExist(s) && c in s.known && c !in s.reading
    requires c in s.cvs ==> s.cvs[c].state == Processing
    ensures var t := Apply(s, a);
      c in t.known && c !in t.reading && (c in t.cvs ==> t.cvs[c].state == Processing)
  {
  }

  /** A read that dies without a word leaves its CV in processing, whatever happens next, for
      as long as the CV is there: nothing reads it again. */
  lemma {:induction false} AbandonedIsNeverReadAgain(s: State, run: seq<Action>, c: CvId)
    requires Valid(s) && Possible(s, run) && c in s.known && c !in s.reading
    requires c in s.cvs ==> s.cvs[c].state == Processing
    ensures var t := After(s, run);
      c in t.known && c !in t.reading && (c in t.cvs ==> t.cvs[c].state == Processing)
  {
    hide Apply, Enabled, Valid;
    if run != [] {
      AbandonedIsNeverReadAgain(s, run[..|run| - 1], c);
      RunKeepsValid(s, run[..|run| - 1]);
      OwnersOfValid(After(s, run[..|run| - 1]));
      StepLeavesAbandoned(After(s, run[..|run| - 1]), run[|run| - 1], c);
    }
  }

  /** A CV deleted while it is being read: whatever happens next, concluding the read
      touches no row and no skill. */
  lemma DeletedWhileReadWritesNothing(s: State, run: seq<Action>, c: CvId, concepts: set<Concept>)
    requires Valid(s) && c in s.known && c !in s.cvs
    requires Possible(s, run) && c in After(s, run).reading
    ensures c !in After(s, run).cvs
    ensures Apply(After(s, run), FinishRead(c, concepts))
         == After(s, run).(reading := After(s, run).reading - {c})
    ensures Apply(After(s, run), FailRead(c))
         == After(s, run).(reading := After(s, run).reading - {c})
  {
    StatesFollowTheTable(s, run, c);
  }

  // ---------- Skills ----------

  predicate IsManual(skills: map<SkillKey, SkillSource>, k: SkillKey) {
    k in skills && skills[k] == Manual
  }

  predicate IsInferred(skills: map<SkillKey, SkillSource>, k: SkillKey) {
    k in skills && skills[k] == FromCv
  }

  /** Reading replaces exactly the owner's inferred skills, by those named and not picked. */
  lemma RereadIsExact(skills: map<SkillKey, SkillSource>, user: UserId, concepts: set<Concept>, k: SkillKey)
    ensures IsManual(Reread(skills, user, concepts), k) <==> IsManual(skills, k)
    ensures IsInferred(Reread(skills, user, concepts), k) <==>
      if k.owner == user then k.concept in concepts && !IsManual(skills, k) else IsInferred(skills, k)
  {
    assert k == SkillKey(k.owner, k.concept);
  }

  /** Only the last reading counts. */
  lemma OnlyTheLastReadingCounts(
    skills: map<SkillKey, SkillSource>, user: UserId, first: set<Concept>, second: set<Concept>)
    ensures Reread(Reread(skills, user, first), user, second) == Reread(skills, user, second)
  {
    var one, two := Reread(Reread(skills, user, first), user, second), Reread(skills, user, second);
    forall k: SkillKey ensures k in one <==> k in two ensures k in one ==> one[k] == two[k] {
      RereadIsExact(skills, user, first, k);
      RereadIsExact(Reread(skills, user, first), user, second, k);
      RereadIsExact(skills, user, second, k);
    }
    assert one == two;
  }

  /** A picked skill is the candidate's own exactly when no CV had put it there before. */
  lemma PickedIsManualIff(s: State, user: UserId, concept: Concept)
    requires user in s.profiles
    ensures IsManual(Apply(s, Pick(user, concept)).skills, SkillKey(user, concept))
       <==> !IsInferred(s.skills, SkillKey(user, concept))
  {
  }

  /** No step but the candidate's own, on that skill or on the account, touches a picked skill. */
  predicate Withdraws(a: Action, k: SkillKey) {
    a == Unpick(k.owner, k.concept) || (a.DeleteAccount? && a.user == k.owner)
  }

  predicate Picks(a: Action, k: SkillKey) {
    a == Pick(k.owner, k.concept)
  }

  lemma StepKeepsChoices(s: State, a: Action, k: SkillKey)
    requires Enabled(s, a)
    ensures IsManual(s.skills, k) && !Withdraws(a, k) ==> IsManual(Apply(s, a).skills, k)
    ensures !IsManual(s.skills, k) && !Picks(a, k) ==> !IsManual(Apply(s, a).skills, k)
  {
    if a.FinishRead? && a.cv in s.cvs {
      RereadIsExact(s.skills, s.cvs[a.cv].owner, a.concepts, k);
    } else if a.Unpick? || a.Pick? {
      assert k == SkillKey(k.owner, k.concept);
    }
  }

  /** No sequence of uploads, readings and deletions adds, drops or relabels a picked skill. */
  lemma {:induction false} ChoicesSurvive(s: State, run: seq<Action>, k: SkillKey)
    requires Possible(s, run)
    requires forall a :: a in run ==> !Withdraws(a, k) && !Picks(a, k)
    ensures IsManual(After(s, run).skills, k) <==> IsManual(s.skills, k)
  {
    hide Apply, Enabled, IsManual, Withdraws, Picks;
    if run != [] {
      ChoicesSurvive(s, run[..|run| - 1], k);
      StepKeepsChoices(After(s, run[..|run| - 1]), run[|run| - 1], k);
    }
  }

  // ---------- Which reading the inferred skills come from ----------

  datatype Reading = NoReading | ReadingOf(cv: CvId, concepts: set<Concept>)

  predicate Writes(s: State, a: Action, user: UserId) {
    && a.FinishRead? && OwnsRow(s.cvs, user, a.cv)
    && Processed in Allowed(s.cvs[a.cv].state) && user in s.profiles
  }

  /** The last reading that wrote this account's skills. */
  ghost function LastReading(s: State, run: seq<Action>, user: UserId): Reading
    requires Possible(s, run)
  {
    if run == [] then NoReading
    else
      var a := run[|run| - 1];
      if Writes(After(s, run[..|run| - 1]), a, user) then ReadingOf(a.cv, a.concepts)
      else LastReading(s, run[..|run| - 1], user)
  }

  lemma OnlyReadingInfers(s: State, a: Action, k: SkillKey)
    requires Enabled(s, a) && IsInferred(Apply(s, a).skills, k)
    ensures if Writes(s, a, k.owner) then k.concept in a.concepts else IsInferred(s.skills, k)
  {
    if a.FinishRead? && a.cv in s.cvs {
      RereadIsExact(s.skills, s.cvs[a.cv].owner, a.concepts, k);
    }
  }

  /** Every inferred skill was named by the last reading. */
  lemma {:induction false} InferredComesFromTheLastReading(run: seq<Action>, k: SkillKey)
    requires Possible(EMPTY, run) && IsInferred(After(EMPTY, run).skills, k)
    ensures LastReading(EMPTY, run, k.owner).ReadingOf?
    ensures k.concept in LastReading(EMPTY, run, k.owner).concepts
  {
    hide Apply, Enabled, Writes, IsInferred;
    if run == [] {
      NothingInferredAtFirst(k);
    } else {
      OnlyReadingInfers(After(EMPTY, run[..|run| - 1]), run[|run| - 1], k);
      if !Writes(After(EMPTY, run[..|run| - 1]), run[|run| - 1], k.owner) {
        InferredComesFromTheLastReading(run[..|run| - 1], k);
      }
    }
  }

  lemma NothingInferredAtFirst(k: SkillKey)
    ensures !IsInferred(EMPTY.skills, k)
  {
  }

  /** The inferred skills need not come from the newest CV, nor from one that still exists:
      an older CV's reading may end last, and deleting that CV leaves what it wrote. */
  lemma AnOlderReadingOutlastsItsCv(
    s: State, c: CvId, newest: CvId, user: UserId, concepts: set<Concept>, concept: Concept)
    requires Valid(s) && OwnsRow(s.cvs, user, c) && c in s.reading && user in s.profiles
    requires MayBeNewest(s.cvs, user, newest) && newest != c
    requires concept in concepts && !IsManual(s.skills, SkillKey(user, concept))
    ensures var read := Apply(s, FinishRead(c, concepts));
      && Enabled(read, DeleteCv(c, user, newest, {}, true))
      && var deleted := Apply(read, DeleteCv(c, user, newest, {}, true));
      && c !in deleted.cvs && IsInferred(deleted.skills, SkillKey(user, concept))
  {
    RereadIsExact(s.skills, user, concepts, SkillKey(user, concept));
  }

  // ---------- A run that ends there ----------

  lemma OneMore(run: seq<Action>, s: State, a: Action, t: State)
    requires Possible(EMPTY, run) && After(EMPTY, run) == s && Enabled(s, a) && Apply(s, a) == t
    ensures Possible(EMPTY, run + [a]) && After(EMPTY, run + [a]) == t
  {
    assert (run + [a])[..|run|] == run;
  }

  const UPLOADING := EMPTY.(
    users := {0}, profiles := {0}, files := {10, 11}, uploads := map[0 := Upload(0, 10), 1 := Upload(0, 11)])

  const LATER := Cv(0, 11, 2, Pending)
  const EARLIER := Cv(0, 10, 1, Pending)

  /** One candidate with a profile, and two uploads running. */
  lemma TwoUploadsBegin()
    ensures var run := [CreateUser(0), SaveProfile(0), BeginUpload(0, 0, 10), BeginUpload(1, 0, 11)];
      Possible(EMPTY, run) && After(EMPTY, run) == UPLOADING
  {
    var user := EMPTY.(users := {0});
    var saved := user.(profiles := {0});
    var first := saved.(files := {10}, uploads := map[0 := Upload(0, 10)]);
    assert Possible(EMPTY, []) && After(EMPTY, []) == EMPTY;
    hide Possible, After;
    OneMore([], EMPTY, CreateUser(0), user);
    OneMore([CreateUser(0)], user, SaveProfile(0), saved);
    OneMore([CreateUser(0), SaveProfile(0)], saved, BeginUpload(0, 0, 10), first);
    OneMore([CreateUser(0), SaveProfile(0), BeginUpload(0, 0, 10)], first, BeginUpload(1, 0, 11), UPLOADING);
    assert [] + [CreateUser(0)] == [CreateUser(0)];
    assert [CreateUser(0)] + [SaveProfile(0)] == [CreateUser(0), SaveProfile(0)];
    assert [CreateUser(0), SaveProfile(0)] + [BeginUpload(0, 0, 10)]
        == [CreateUser(0), SaveProfile(0), BeginUpload(0, 0, 10)];
    assert [CreateUser(0), SaveProfile(0), BeginUpload(0, 0, 10)] + [BeginUpload(1, 0, 11)]
        == [CreateUser(0), SaveProfile(0), BeginUpload(0, 0, 10), BeginUpload(1, 0, 11)];
  }

  const UPLOADED := UPLOADING.(uploads := map[], cvs := map[0 := EARLIER, 1 := LATER], known := {0, 1})

  /** The later one commits first, so each finds nothing created before it to replace. */
  lemma BothStay(run: seq<Action>)
    requires Possible(EMPTY, run) && After(EMPTY, run) == UPLOADING
    ensures var more := [EndUpload(1, 1, 2, false, false), RemoveSuperseded(1, {}, true),
                         EndUpload(0, 0, 1, false, false), RemoveSuperseded(0, {}, true)];
      Possible(EMPTY, run + more) && After(EMPTY, run + more) == UPLOADED
  {
    hide Possible, After;
    var one := UPLOADING.(uploads := map[0 := Upload(0, 10)], cvs := map[1 := LATER], known := {1});
    LaterCommits(one);
    OneMore(run, UPLOADING, EndUpload(1, 1, 2, false, false), one);
    NothingBefore(one, 1);
    OneMore(run + [EndUpload(1, 1, 2, false, false)], one, RemoveSuperseded(1, {}, true), one);
    EarlierCommits(one);
    var three := run + [EndUpload(1, 1, 2, false, false), RemoveSuperseded(1, {}, true)];
    assert run + [EndUpload(1, 1, 2, false, false)] + [RemoveSuperseded(1, {}, true)] == three;
    OneMore(three, one, EndUpload(0, 0, 1, false, false), UPLOADED);
    NothingBefore(UPLOADED, 0);
    var four := three + [EndUpload(0, 0, 1, false, false)];
    OneMore(four, UPLOADED, RemoveSuperseded(0, {}, true), UPLOADED);
    assert four + [RemoveSuperseded(0, {}, true)]
        == run + [EndUpload(1, 1, 2, false, false), RemoveSuperseded(1, {}, true),
                  EndUpload(0, 0, 1, false, false), RemoveSuperseded(0, {}, true)];
  }

  lemma LaterCommits(one: State)
    requires one == UPLOADING.(uploads := map[0 := Upload(0, 10)], cvs := map[1 := LATER], known := {1})
    ensures Enabled(UPLOADING, EndUpload(1, 1, 2, false, false))
    ensures Apply(UPLOADING, EndUpload(1, 1, 2, false, false)) == one
  {
  }

  lemma EarlierCommits(one: State)
    requires one == UPLOADING.(uploads := map[0 := Upload(0, 10)], cvs := map[1 := LATER], known := {1})
    ensures Enabled(one, EndUpload(0, 0, 1, false, false))
    ensures Apply(one, EndUpload(0, 0, 1, false, false)) == UPLOADED
  {
  }

  /** Replacing with nothing created before is no change. */
  lemma NothingBefore(s: State, kept: CvId)
    requires kept in s.cvs && Superseded(s.cvs, kept) == {}
    ensures Enabled(s, RemoveSuperseded(kept, {}, true)) && Apply(s, RemoveSuperseded(kept, {}, true)) == s
  {
  }

  lemma BothRead(run: seq<Action>)
    requires Possible(EMPTY, run) && After(EMPTY, run) == UPLOADED
    ensures var more := run + [BeginRead(0)] + [BeginRead(1)];
      && Possible(EMPTY, more)
      && var s := After(EMPTY, more);
      && s.reading == {0, 1} && s.profiles == {0} && s.skills == map[]
      && s.cvs == map[0 := EARLIER.(state := Processing), 1 := LATER.(state := Processing)]
  {
    hide Possible, After;
    var one := Apply(UPLOADED, BeginRead(0));
    OneMore(run, UPLOADED, BeginRead(0), one);
    OneMore(run + [BeginRead(0)], one, BeginRead(1), Apply(one, BeginRead(1)));
  }

  /** From an empty service: two overlapping uploads, both read, the newest first and naming
      nothing, the older one last and naming a skill; then the older one is deleted. The
      skill is on the profile, and the CV it was read from is gone. */
  lemma SkillsOfADeletedCv() returns (run: seq<Action>)
    ensures Possible(EMPTY, run)
    ensures var end := After(EMPTY, run);
      && OwnsRow(end.cvs, 0, 1) && 0 in end.known && 0 !in end.cvs
      && LastReading(EMPTY, run, 0) == ReadingOf(0, {7})
      && IsInferred(end.skills, SkillKey(0, 7))
  {
    TwoUploadsBegin();
    run := [CreateUser(0), SaveProfile(0), BeginUpload(0, 0, 10), BeginUpload(1, 0, 11)];
    BothStay(run);
    run := run + [EndUpload(1, 1, 2, false, false), RemoveSuperseded(1, {}, true),
                  EndUpload(0, 0, 1, false, false), RemoveSuperseded(0, {}, true)];
    BothRead(run);
    run := run + [BeginRead(0)] + [BeginRead(1)];
    run := NewestReadFirst(run);
    run := OlderReadLast(run);
  }

  lemma NewestReadFirst(run: seq<Action>) returns (more: seq<Action>)
    requires Possible(EMPTY, run)
    requires var s := After(EMPTY, run);
      && s.reading == {0, 1} && s.profiles == {0} && s.skills == map[]
      && s.cvs == map[0 := EARLIER.(state := Processing), 1 := LATER.(state := Processing)]
    ensures Possible(EMPTY, more)
    ensures var s := After(EMPTY, more);
      && 0 in s.reading && s.profiles == {0} && s.skills == map[]
      && OwnsRow(s.cvs, 0, 0) && MayBeNewest(s.cvs, 0, 1)
  {
    var s := After(EMPTY, run);
    OneMore(run, s, FinishRead(1, {}), Apply(s, FinishRead(1, {})));
    more := run + [FinishRead(1, {})];
    forall k ensures k !in Reread(s.skills, 0, {}) {
      RereadIsExact(s.skills, 0, {}, k);
    }
    assert Reread(s.skills, 0, {}) == map[];
  }

  lemma OlderReadLast(run: seq<Action>) returns (more: seq<Action>)
    requires Possible(EMPTY, run)
    requires var s := After(EMPTY, run);
      && 0 in s.reading && s.profiles == {0} && s.skills == map[]
      && OwnsRow(s.cvs, 0, 0) && MayBeNewest(s.cvs, 0, 1)
    ensures Possible(EMPTY, more)
    ensures var end := After(EMPTY, more);
      && OwnsRow(end.cvs, 0, 1) && 0 in end.known && 0 !in end.cvs
      && LastReading(EMPTY, more, 0) == ReadingOf(0, {7})
      && IsInferred(end.skills, SkillKey(0, 7))
  {
    var s := After(EMPTY, run);
    EveryRunIsValid(run);
    AnOlderReadingOutlastsItsCv(s, 0, 1, 0, {7}, 7);
    var read := Apply(s, FinishRead(0, {7}));
    var once := run + [FinishRead(0, {7})];
    OneMore(run, s, FinishRead(0, {7}), read);
    OneMore(once, read, DeleteCv(0, 0, 1, {}, true), Apply(read, DeleteCv(0, 0, 1, {}, true)));
    more := once + [DeleteCv(0, 0, 1, {}, true)];
    assert once[..|run|] == run && more[..|once|] == once;
    assert Writes(s, FinishRead(0, {7}), 0);
    assert LastReading(EMPTY, once, 0) == ReadingOf(0, {7});
  }

  /** Deleting a CV takes the inferred skills with it exactly when it is the newest,
      and otherwise leaves every one of them, whichever CV they were read from. */
  lemma DeletionTakesTheInferredIffNewest(s: State, c: CvId, user: UserId, newest: CvId, k: SkillKey)
    requires OwnsRow(s.cvs, user, c) && MayBeNewest(s.cvs, user, newest)
    requires k.owner == user && IsInferred(s.skills, k)
    ensures IsInferred(Apply(s, DeleteCv(c, user, newest, {}, true)).skills, k) <==> newest != c
  {
  }

  // ---------- Replacing ----------

  /** Never less recent than `c`, in the order replacements go by. */
  ghost predicate HasOneAsRecent(cvs: map<CvId, Cv>, c: CvId, cv: Cv) {
    exists d :: d in cvs && cvs[d].owner == cv.owner && AsRecent(d, cvs[d].createdAt, c, cv.createdAt)
  }

  predicate AsRecent(d: CvId, dAt: int, c: CvId, cAt: int) {
    dAt > cAt || (dAt == cAt && d >= c)
  }

  /** The owner takes back a CV only by deleting one, or the account. */
  predicate DeletesFor(a: Action, user: UserId) {
    (a.DeleteCv? || a.DeleteAccount?) && a.user == user
  }

  lemma StepKeepsOneAsRecent(s: State, a: Action, c: CvId, cv: Cv)
    requires Enabled(s, a) && OwnersExist(s) && !DeletesFor(a, cv.owner)
    requires HasOneAsRecent(s.cvs, c, cv)
    ensures HasOneAsRecent(Apply(s, a).cvs, c, cv)
  {
    var t := Apply(s, a);
    var d: CvId :| d in s.cvs && s.cvs[d].owner == cv.owner && AsRecent(d, s.cvs[d].createdAt, c, cv.createdAt);
    if d in t.cvs {
      StepFollowsTheTable(s, a, d);
    } else {
      assert a.RemoveSuperseded? && Precedes(s.cvs, d, a.kept);
      assert t.cvs[a.kept] == s.cvs[a.kept];
      assert AsRecent(a.kept, t.cvs[a.kept].createdAt, c, cv.createdAt);
    }
  }

  /** However uploads race and replace one another, as long as the owner deletes nothing the
      owner has a CV at least as recent as any that was ever there. */
  lemma {:induction false} TheLaterUploadSurvives(s: State, run: seq<Action>, c: CvId)
    requires Valid(s) && Possible(s, run) && c in s.cvs
    requires forall a :: a in run ==> !DeletesFor(a, s.cvs[c].owner)
    ensures HasOneAsRecent(After(s, run).cvs, c, s.cvs[c])
  {
    hide Apply, Enabled, HasOneAsRecent, Valid;
    if run == [] {
      ItselfIsAsRecent(s, c);
    } else {
      TheLaterUploadSurvives(s, run[..|run| - 1], c);
      RunKeepsValid(s, run[..|run| - 1]);
      OwnersOfValid(After(s, run[..|run| - 1]));
      StepKeepsOneAsRecent(After(s, run[..|run| - 1]), run[|run| - 1], c, s.cvs[c]);
    }
  }

  lemma ItselfIsAsRecent(s: State, c: CvId)
    requires c in s.cvs
    ensures HasOneAsRecent(s.cvs, c, s.cvs[c])
  {
    assert AsRecent(c, s.cvs[c].createdAt, c, s.cvs[c].createdAt);
  }

  lemma OwnersOfValid(s: State)
    requires Valid(s)
    ensures OwnersExist(s)
  {
  }

  // ---------- Deleting an account ----------

  predicate NothingOf(s: State, user: UserId) {
    && user !in s.users && user !in s.profiles
    && (forall c :: c in s.cvs ==> s.cvs[c].owner != user)
    && (forall k :: k in s.skills ==> k.owner != user)
  }

  /** Either a file would not go and the account still names every one of its files, or all
      its files are gone: with everything else still in place if the commit failed, so that
      the deletion can be asked for again, and otherwise with account, rows and skills. */
  lemma AccountGoesWholeOrStays(s: State, user: UserId, keys: seq<Key>, failing: set<Key>, commits: bool)
    requires Valid(s) && user in s.users && ListsKeysOf(s.cvs, user, keys)
    ensures var t := Apply(s, DeleteAccount(user, keys, failing, commits));
      if exists k :: k in keys && k in failing then
        && t == s.(files := t.files) && t.files <= s.files
        && forall k :: k in keys && k in failing && k in s.files ==> k in t.files
      else
        && (forall c :: OwnsRow(s.cvs, user, c) ==> s.cvs[c].key !in t.files)
        && if commits then NothingOf(t, user) else t == s.(files := t.files)
  {
    var n := FirstFailing(keys, failing);
    if n == |keys| {
      assert keys[..n] == keys;
      forall c | OwnsRow(s.cvs, user, c) ensures s.cvs[c].key in keys {
      }
    } else {
      assert keys[n] in keys;
    }
  }

  /** Nothing of a deleted account comes back, not even from uploads it left running. */
  lemma GoneAccountStaysGone(s: State, run: seq<Action>, user: UserId)
    requires Valid(s) && user !in s.users && Possible(s, run)
    requires CreateUser(user) !in run
    ensures NothingOf(After(s, run), user)
  {
    NobodyReturns(s, run, user);
    RunKeepsValid(s, run);
  }

  lemma {:induction false} NobodyReturns(s: State, run: seq<Action>, user: UserId)
    requires user !in s.users && Possible(s, run) && CreateUser(user) !in run
    ensures user !in After(s, run).users
  {
    if run != [] {
      NobodyReturns(s, run[..|run| - 1], user);
    }
  }

  /** An upload overtaken by the deletion of its account cleans up after itself. */
  lemma OvertakenUploadCleansUp(s: State, upload: UploadId, c: CvId, at: int, dbFails: bool)
    requires upload in s.uploads && s.uploads[upload].owner !in s.users && c !in s.known
    ensures s.uploads[upload].key !in Apply(s, EndUpload(upload, c, at, dbFails, false)).files
    ensures Apply(s, EndUpload(upload, c, at, dbFails, false)).cvs == s.cvs
  {
  }
}
