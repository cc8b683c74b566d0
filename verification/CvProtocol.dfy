/** Uploading, replacing, reading and deleting CVs, one transaction at a time, with the
    stored files, the metadata rows and the skills a read puts on a profile. */
module CvProtocol {
  type UserId = nat
  type CvId = nat
  type UploadId = nat
  type Concept = nat
  type Key = nat

  datatype CvState = Pending | Processing | Processed | Failed

  function Allowed(from: CvState): set<CvState> {
    match from
    case Pending => {Processing}
    case Processing => {Processed, Failed}
    case Processed => {}
    case Failed => {Processing}
  }

  datatype Cv = Cv(owner: UserId, key: Key, createdAt: int, state: CvState)

  /** How a skill reached the profile: picked by hand, or read out of a CV. */
  datatype SkillSource = Manual | FromCv

  datatype SkillKey = SkillKey(owner: UserId, concept: Concept)

  /** A file that is stored while its row is not committed yet. */
  datatype Upload = Upload(owner: UserId, key: Key)

  /** `reading` holds the reads that go on, `leaked` the files whose cleanup failed, `known`
      every identifier a CV ever had. */
  datatype State = State(
    users: set<UserId>,
    profiles: set<UserId>,
    cvs: map<CvId, Cv>,
    skills: map<SkillKey, SkillSource>,
    files: set<Key>,
    uploads: map<UploadId, Upload>,
    reading: set<CvId>,
    leaked: set<Key>,
    known: set<CvId>)

  const EMPTY := State({}, {}, map[], map[], {}, map[], {}, {}, {})

  /** What the environment chooses: identifiers, clocks, and which deletes and commits fail. */
  datatype Action =
    | CreateUser(user: UserId)
    | SaveProfile(user: UserId)
    | Pick(user: UserId, concept: Concept)
    | Unpick(user: UserId, concept: Concept)
    | BeginUpload(upload: UploadId, user: UserId, key: Key)
    | EndUpload(upload: UploadId, cv: CvId, at: int, dbFails: bool, cleanupFails: bool)
    | RemoveSuperseded(kept: CvId, failing: set<Key>, commits: bool)
    | BeginRead(cv: CvId)
    | FailRead(cv: CvId)
    | AbandonRead(cv: CvId)
    | FinishRead(cv: CvId, concepts: set<Concept>)
    | DeleteCv(cv: CvId, user: UserId, newest: CvId, failing: set<Key>, commits: bool)
    | DeleteAccount(user: UserId, keys: seq<Key>, failing: set<Key>, commits: bool)

  // ---------- Queries ----------

  predicate OwnsRow(cvs: map<CvId, Cv>, user: UserId, c: CvId) {
    c in cvs && cvs[c].owner == user
  }

  /** Created before, by creation time and then by identifier. */
  predicate Precedes(cvs: map<CvId, Cv>, c: CvId, d: CvId)
    requires c in cvs && d in cvs
  {
    cvs[c].createdAt < cvs[d].createdAt || (cvs[c].createdAt == cvs[d].createdAt && c < d)
  }

  /** What ordering by creation time alone may answer first. */
  ghost predicate MayBeNewest(cvs: map<CvId, Cv>, user: UserId, newest: CvId) {
    && OwnsRow(cvs, user, newest)
    && forall c :: OwnsRow(cvs, user, c) ==> cvs[c].createdAt <= cvs[newest].createdAt
  }

  function KeysOf(cvs: map<CvId, Cv>): set<Key> {
    set c | c in cvs :: cvs[c].key
  }

  ghost predicate ListsKeysOf(cvs: map<CvId, Cv>, user: UserId, keys: seq<Key>) {
    forall k :: k in keys <==> exists c :: OwnsRow(cvs, user, c) && cvs[c].key == k
  }

  function Superseded(cvs: map<CvId, Cv>, kept: CvId): set<CvId>
    requires kept in cvs
  {
    set c | c in cvs && cvs[c].owner == cvs[kept].owner && c != kept && Precedes(cvs, c, kept)
  }

  /** How many files go before one will not. */
  function FirstFailing(keys: seq<Key>, failing: set<Key>): (n: nat)
    ensures n <= |keys|
    ensures forall i :: 0 <= i < n ==> keys[i] !in failing
    ensures n < |keys| ==> keys[n] in failing
  {
    if keys == [] || keys[0] in failing then 0 else 1 + FirstFailing(keys[1..], failing)
  }

  function Elements(keys: seq<Key>): set<Key> {
    set k | k in keys
  }

  // ---------- Skills ----------

  function WithoutInferred(skills: map<SkillKey, SkillSource>, user: UserId): map<SkillKey, SkillSource> {
    map k | k in skills && !(k.owner == user && skills[k] == FromCv) :: skills[k]
  }

  /** Insert the concepts as inferred; a concept already there keeps its source. */
  function WithInferred(skills: map<SkillKey, SkillSource>, user: UserId, concepts: set<Concept>)
    : map<SkillKey, SkillSource>
  {
    skills + map c | c in concepts && SkillKey(user, c) !in skills :: SkillKey(user, c) := FromCv
  }

  function Reread(skills: map<SkillKey, SkillSource>, user: UserId, concepts: set<Concept>)
    : map<SkillKey, SkillSource>
  {
    WithInferred(WithoutInferred(skills, user), user, concepts)
  }

  // ---------- Steps ----------

  function Transition(cvs: map<CvId, Cv>, c: CvId, to: CvState): map<CvId, Cv> {
    if c in cvs && to in Allowed(cvs[c].state) then cvs[c := cvs[c].(state := to)] else cvs
  }

  function AfterUpload(s: State, a: Action): State
    requires a.EndUpload? && a.upload in s.uploads
  {
    var up := s.uploads[a.upload];
    var ended := s.(uploads := s.uploads - {a.upload});
    if !a.dbFails && up.owner in s.users && up.key !in KeysOf(s.cvs) then
      ended.(cvs := s.cvs[a.cv := Cv(up.owner, up.key, a.at, Pending)], known := s.known + {a.cv})
    else if a.cleanupFails then ended.(leaked := s.leaked + {up.key})
    else ended.(files := s.files - {up.key})
  }

  function AfterReplacing(s: State, a: Action): State
    requires a.RemoveSuperseded?
  {
    if a.kept !in s.cvs then s
    else
      var gone := set c | c in Superseded(s.cvs, a.kept) && s.cvs[c].key !in a.failing;
      s.(files := s.files - (set c | c in gone :: s.cvs[c].key),
         cvs := if a.commits then s.cvs - gone else s.cvs)
  }

  function AfterReading(s: State, a: Action): State
    requires a.FinishRead?
  {
    var ended := s.(reading := s.reading - {a.cv});
    if a.cv !in s.cvs || Processed !in Allowed(s.cvs[a.cv].state) then ended
    else
      var owner := s.cvs[a.cv].owner;
      ended.(
        cvs := Transition(s.cvs, a.cv, Processed),
        skills := if owner in s.profiles then Reread(s.skills, owner, a.concepts) else s.skills)
  }

  function AfterDeletingCv(s: State, a: Action): State
    requires a.DeleteCv?
  {
    if !OwnsRow(s.cvs, a.user, a.cv) || s.cvs[a.cv].key in a.failing then s
    else
      var unlinked := s.(files := s.files - {s.cvs[a.cv].key});
      if !a.commits then unlinked
      else unlinked.(
        cvs := s.cvs - {a.cv},
        skills := if a.newest == a.cv then WithoutInferred(s.skills, a.user) else s.skills)
  }

  function AfterDeletingAccount(s: State, a: Action): State
    requires a.DeleteAccount?
  {
    if a.user !in s.users then s
    else
      var n := FirstFailing(a.keys, a.failing);
      var unlinked := s.(files := s.files - Elements(a.keys[..n]));
      if n < |a.keys| || !a.commits then unlinked
      else unlinked.(
        users := s.users - {a.user},
        profiles := s.profiles - {a.user},
        cvs := map c | c in s.cvs && s.cvs[c].owner != a.user :: s.cvs[c],
        skills := map k | k in s.skills && k.owner != a.user :: s.skills[k])
  }

  /** What the environment may choose: fresh identifiers, a true answer to which CV is
      newest and which keys an account has, and only running uploads and reads go on. */
  ghost predicate Enabled(s: State, a: Action) {
    match a
    case BeginUpload(u, _, _) => u !in s.uploads
    case EndUpload(u, c, _, _, _) => u in s.uploads && c !in s.known
    case FailRead(c) => c in s.reading
    case AbandonRead(c) => c in s.reading
    case FinishRead(c, _) => c in s.reading
    case DeleteCv(c, u, newest, _, _) => OwnsRow(s.cvs, u, c) ==> MayBeNewest(s.cvs, u, newest)
    case DeleteAccount(u, keys, _, _) => ListsKeysOf(s.cvs, u, keys)
    case _ => true
  }

  function Apply(s: State, a: Action): State
    requires Enabled(s, a)
  {
    match a
    case CreateUser(u) => s.(users := s.users + {u})
    case SaveProfile(u) => if u in s.users then s.(profiles := s.profiles + {u}) else s
    case Pick(u, c) =>
      if u in s.profiles && SkillKey(u, c) !in s.skills then s.(skills := s.skills[SkillKey(u, c) := Manual]) else s
    case Unpick(u, c) => if u in s.profiles then s.(skills := s.skills - {SkillKey(u, c)}) else s
    case BeginUpload(u, owner, key) =>
      if key in s.files then s
      else s.(files := s.files + {key}, uploads := s.uploads[u := Upload(owner, key)])
    case EndUpload(_, _, _, _, _) => AfterUpload(s, a)
    case RemoveSuperseded(_, _, _) => AfterReplacing(s, a)
    case BeginRead(c) =>
      if c in s.cvs && Processing in Allowed(s.cvs[c].state) then
        s.(cvs := Transition(s.cvs, c, Processing), reading := s.reading + {c})
      else s
    case FailRead(c) => s.(cvs := Transition(s.cvs, c, Failed), reading := s.reading - {c})
    case AbandonRead(c) => s.(reading := s.reading - {c})
    case FinishRead(_, _) => AfterReading(s, a)
    case DeleteCv(_, _, _, _, _) => AfterDeletingCv(s, a)
    case DeleteAccount(_, _, _, _) => AfterDeletingAccount(s, a)
  }

  ghost predicate Possible(s: State, run: seq<Action>)
    decreases |run|, 0
  {
    run == [] || (Possible(s, run[..|run| - 1]) && Enabled(After(s, run[..|run| - 1]), run[|run| - 1]))
  }

  ghost function After(s: State, run: seq<Action>): State
    requires Possible(s, run)
    decreases |run|, 1
  {
    if run == [] then s else Apply(After(s, run[..|run| - 1]), run[|run| - 1])
  }

  // ---------- What every transaction keeps ----------

  ghost predicate HasCv(cvs: map<CvId, Cv>, user: UserId) {
    exists c :: OwnsRow(cvs, user, c)
  }

  predicate OwnersExist(s: State) {
    && (forall c :: c in s.cvs ==> s.cvs[c].owner in s.users && c in s.known)
    && s.profiles <= s.users
    && (forall k :: k in s.skills ==> k.owner in s.profiles)
  }

  /** Who has an inferred skill has a CV. */
  ghost predicate InferencesAreBacked(s: State) {
    forall k :: k in s.skills && s.skills[k] == FromCv ==> HasCv(s.cvs, k.owner)
  }

  ghost predicate Named(s: State, f: Key) {
    f in KeysOf(s.cvs) || f in s.leaked || exists u :: u in s.uploads && s.uploads[u].key == f
  }

  /** Every stored file is named by a row or a running upload, or could not be cleaned up. */
  ghost predicate FilesAreNamed(s: State) {
    forall f :: f in s.files ==> Named(s, f)
  }

  /** A row stays in processing while its read goes on. */
  predicate ReadsAreExclusive(s: State) {
    && s.reading <= s.known
    && (forall c :: c in s.cvs && c in s.reading ==> s.cvs[c].state == Processing)
  }

  predicate KeysAreDistinct(s: State) {
    forall c, d :: c in s.cvs && d in s.cvs && s.cvs[c].key == s.cvs[d].key ==> c == d
  }

  ghost predicate Valid(s: State) {
    && OwnersExist(s)
    && InferencesAreBacked(s)
    && FilesAreNamed(s)
    && ReadsAreExclusive(s)
    && KeysAreDistinct(s)
  }

  lemma StepKeepsOwners(s: State, a: Action)
    requires Enabled(s, a) && OwnersExist(s)
    ensures OwnersExist(Apply(s, a))
  {
    hide Superseded, Elements, FirstFailing, ListsKeysOf, MayBeNewest;
    if a.FinishRead? { ReadKeepsOwners(s, a); }
  }

  lemma ReadKeepsOwners(s: State, a: Action)
    requires a.FinishRead? && OwnersExist(s)
    ensures OwnersExist(AfterReading(s, a))
  {
  }

  lemma StepKeepsReadsExclusive(s: State, a: Action)
    requires Enabled(s, a) && OwnersExist(s) && ReadsAreExclusive(s)
    ensures ReadsAreExclusive(Apply(s, a))
  {
  }

  lemma StepKeepsKeysDistinct(s: State, a: Action)
    requires Enabled(s, a) && KeysAreDistinct(s)
    ensures KeysAreDistinct(Apply(s, a))
  {
  }

  lemma StepKeepsInferencesBacked(s: State, a: Action)
    requires Enabled(s, a) && OwnersExist(s) && InferencesAreBacked(s)
    ensures InferencesAreBacked(Apply(s, a))
  {
    var t := Apply(s, a);
    forall k | k in t.skills && t.skills[k] == FromCv ensures HasCv(t.cvs, k.owner) {
      if k in s.skills && s.skills[k] == FromCv {
        var c: CvId :| OwnsRow(s.cvs, k.owner, c);
        assert c in t.cvs ==> OwnsRow(t.cvs, k.owner, c);
        if a.RemoveSuperseded? {
          assert c !in t.cvs ==> OwnsRow(t.cvs, k.owner, a.kept);
        } else if a.DeleteCv? {
          assert c !in t.cvs ==> OwnsRow(t.cvs, k.owner, a.newest);
        }
      } else {
        assert OwnsRow(t.cvs, k.owner, a.cv);
      }
    }
  }

  lemma RowKeepsNaming(s: State, a: Action, c: CvId)
    requires Enabled(s, a) && OwnersExist(s) && KeysAreDistinct(s)
    requires c in s.cvs && s.cvs[c].key in Apply(s, a).files
    ensures c in Apply(s, a).cvs && Apply(s, a).cvs[c].key == s.cvs[c].key
  {
    if a.DeleteAccount? {
      AccountKeepsNaming(s, a, c);
    } else {
      hide Elements, FirstFailing, ListsKeysOf, Reread, WithoutInferred, AfterDeletingAccount;
      assert OwnsRow(s.cvs, s.cvs[c].owner, c);
    }
  }

  lemma AccountKeepsNaming(s: State, a: Action, c: CvId)
    requires a.DeleteAccount? && ListsKeysOf(s.cvs, a.user, a.keys)
    requires c in s.cvs && s.cvs[c].key in AfterDeletingAccount(s, a).files
    ensures c in AfterDeletingAccount(s, a).cvs && AfterDeletingAccount(s, a).cvs[c].key == s.cvs[c].key
  {
    assert a.user == s.cvs[c].owner ==> OwnsRow(s.cvs, a.user, c) && s.cvs[c].key in a.keys;
  }

  lemma UploadKeepsNaming(s: State, a: Action, u: UploadId)
    requires Enabled(s, a) && u in s.uploads && s.uploads[u].key in Apply(s, a).files
    ensures Named(Apply(s, a), s.uploads[u].key)
  {
    var t := Apply(s, a);
    if a.EndUpload? && a.upload == u {
      assert a.cv in t.known ==> a.cv in t.cvs && t.cvs[a.cv].key == s.uploads[u].key;
    } else {
      assert u in t.uploads && t.uploads[u].key == s.uploads[u].key;
    }
  }

  lemma OnlyUploadsStore(s: State, a: Action, f: Key)
    requires Enabled(s, a) && f in Apply(s, a).files && f !in s.files
    ensures Named(Apply(s, a), f)
  {
    assert a.BeginUpload? && Apply(s, a).uploads[a.upload].key == f;
  }

  lemma LeaksStay(s: State, a: Action)
    requires Enabled(s, a)
    ensures s.leaked <= Apply(s, a).leaked
  {
  }

  lemma StepKeepsFilesNamed(s: State, a: Action)
    requires Enabled(s, a) && OwnersExist(s) && FilesAreNamed(s) && KeysAreDistinct(s)
    ensures FilesAreNamed(Apply(s, a))
  {
    hide Enabled, OwnersExist, KeysAreDistinct, Apply;
    var t := Apply(s, a);
    LeaksStay(s, a);
    forall f | f in t.files ensures Named(t, f) {
      if f !in s.files {
        OnlyUploadsStore(s, a, f);
      } else if c: CvId :| c in s.cvs && s.cvs[c].key == f {
        RowKeepsNaming(s, a, c);
      } else if u: UploadId :| u in s.uploads && s.uploads[u].key == f {
        UploadKeepsNaming(s, a, u);
      }
    }
  }
}
