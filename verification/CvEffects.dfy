/** What each transaction of the CV protocol does to one row, one file, one skill, told as
    who goes, who comes and what changes. */
module CvEffects {
  import opened CvProtocol

  /** Created earlier for the same owner, by time and then by identifier. */
  predicate EarlierCv(s: State, c: CvId, kept: CvId) {
    && c in s.cvs && kept in s.cvs && s.cvs[c].owner == s.cvs[kept].owner
    && (s.cvs[c].createdAt < s.cvs[kept].createdAt || (s.cvs[c].createdAt == s.cvs[kept].createdAt && c < kept))
  }

  /** No file of the account will stay. */
  predicate AllGo(s: State, user: UserId, failing: set<Key>) {
    forall c :: c in s.cvs && s.cvs[c].owner == user ==> s.cvs[c].key !in failing
  }

  // ---------- Rows ----------

  /** A CV goes in a committed transaction: replaced by a later one of its owner, deleted by
      its owner, or with the account; never while its file stays. */
  lemma CvGoesIff(s: State, a: Action, c: CvId)
    requires Enabled(s, a) && c in s.cvs
    ensures c !in Apply(s, a).cvs <==>
      match a
      case RemoveSuperseded(kept, failing, commits) => commits && EarlierCv(s, c, kept) && s.cvs[c].key !in failing
      case DeleteCv(d, user, _, failing, commits) =>
        commits && d == c && s.cvs[c].owner == user && s.cvs[c].key !in failing
      case DeleteAccount(user, _, failing, commits) =>
        commits && user in s.users && s.cvs[c].owner == user && AllGo(s, user, failing)
      case _ => false
  {
    hide Elements, WithoutInferred, Reread;
    if a.DeleteAccount? { AllGoIff(s, a.user, a.keys, a.failing); }
  }

  lemma AllGoIff(s: State, user: UserId, keys: seq<Key>, failing: set<Key>)
    requires ListsKeysOf(s.cvs, user, keys)
    ensures FirstFailing(keys, failing) == |keys| <==> AllGo(s, user, failing)
  {
    var n := FirstFailing(keys, failing);
    if n < |keys| {
      assert keys[n] in keys;
      var c: CvId :| OwnsRow(s.cvs, user, c) && s.cvs[c].key == keys[n];
      assert c in s.cvs && s.cvs[c].owner == user;
    } else {
      forall c | c in s.cvs && s.cvs[c].owner == user ensures s.cvs[c].key !in failing {
        assert OwnsRow(s.cvs, user, c);
        assert s.cvs[c].key in keys;
        var i :| 0 <= i < |keys| && keys[i] == s.cvs[c].key;
      }
    }
  }

  /** Replacing takes every earlier CV of the owner and its file, and leaves of them only those
      whose files will not go. */
  lemma ReplacingLeavesNothingEarlier(s: State, kept: CvId, failing: set<Key>, c: CvId)
    requires KeysAreDistinct(s) && kept in s.cvs
    ensures var t := Apply(s, RemoveSuperseded(kept, failing, true));
      && kept in t.cvs && t.cvs[kept] == s.cvs[kept]
      && (EarlierCv(s, c, kept) ==>
            if s.cvs[c].key in failing then c in t.cvs && (s.cvs[c].key in s.files ==> s.cvs[c].key in t.files)
            else c !in t.cvs && s.cvs[c].key !in t.files)
      && (failing == {} ==> !EarlierCv(t, c, kept))
  {
    if c in s.cvs { CvGoesIff(s, RemoveSuperseded(kept, failing, true), c); }
    CvGoesIff(s, RemoveSuperseded(kept, failing, true), kept);
  }

  /** A CV comes with the upload that commits it, and says what the upload said. */
  lemma CvComesIff(s: State, a: Action, c: CvId)
    requires Enabled(s, a) && c !in s.cvs
    ensures c in Apply(s, a).cvs <==>
      && a.EndUpload? && a.cv == c && !a.dbFails && s.uploads[a.upload].owner in s.users
      && forall d :: d in s.cvs ==> s.cvs[d].key != s.uploads[a.upload].key
    ensures c in Apply(s, a).cvs ==>
      Apply(s, a).cvs[c] == Cv(s.uploads[a.upload].owner, s.uploads[a.upload].key, a.at, Pending)
  {
    hide Elements, WithoutInferred, Reread, Superseded, FirstFailing, ListsKeysOf;
  }

  /** The only thing that changes about a CV that stays: a read that begins takes it out of
      waiting or failure, and one that ends leaves it read or failed. */
  lemma CvChangesTo(s: State, a: Action, c: CvId)
    requires Enabled(s, a) && OwnersExist(s) && c in s.cvs && c in Apply(s, a).cvs
    ensures var was := s.cvs[c].state;
      Apply(s, a).cvs[c] == s.cvs[c].(state :=
        match a
        case BeginRead(d) => if d == c && was in {Pending, Failed} then Processing else was
        case FailRead(d) => if d == c && was == Processing then Failed else was
        case FinishRead(d, _) => if d == c && was == Processing then Processed else was
        case _ => was)
  {
    hide Elements, WithoutInferred, Reread, Superseded, FirstFailing, ListsKeysOf;
  }

  // ---------- Files ----------

  /** Some earlier CV of the owner has this file. */
  predicate HeldByAnEarlier(s: State, f: Key, kept: CvId) {
    exists c :: c in s.cvs && EarlierCv(s, c, kept) && s.cvs[c].key == f
  }

  /** The file comes up, in the order asked for, before one that will not go. */
  predicate ComesUp(keys: seq<Key>, failing: set<Key>, f: Key) {
    exists i :: 0 <= i < |keys| && keys[i] == f && forall n :: 0 <= n <= i ==> keys[n] !in failing
  }

  /** A file goes when its row is to go, or its upload came to nothing, unless storage fails;
      whether the row then goes is up to the commit. */
  lemma FileGoesIff(s: State, a: Action, f: Key)
    requires Enabled(s, a) && f in s.files
    ensures f !in Apply(s, a).files <==>
      match a
      case EndUpload(u, _, _, dbFails, cleanupFails) =>
        && f == s.uploads[u].key && !cleanupFails
        && (dbFails || s.uploads[u].owner !in s.users || exists d :: d in s.cvs && s.cvs[d].key == f)
      case RemoveSuperseded(kept, failing, _) => f !in failing && HeldByAnEarlier(s, f, kept)
      case DeleteCv(c, user, _, failing, _) =>
        c in s.cvs && s.cvs[c].owner == user && s.cvs[c].key == f && f !in failing
      case DeleteAccount(user, keys, failing, _) => user in s.users && ComesUp(keys, failing, f)
      case _ => false
  {
    hide WithoutInferred, Reread, ListsKeysOf;
    match a {
      case RemoveSuperseded(kept, failing, commits) => SupersededFile(s, f, kept);
      case DeleteAccount(user, keys, failing, commits) => UnlinkedFile(keys, failing, f);
      case _ =>
    }
  }

  lemma SupersededFile(s: State, f: Key, kept: CvId)
    ensures HeldByAnEarlier(s, f, kept) <==>
      kept in s.cvs && exists c :: c in Superseded(s.cvs, kept) && s.cvs[c].key == f
  {
    if kept in s.cvs {
      forall c ensures c in Superseded(s.cvs, kept) <==> EarlierCv(s, c, kept) {
      }
    }
  }

  lemma UnlinkedFile(keys: seq<Key>, failing: set<Key>, f: Key)
    ensures ComesUp(keys, failing, f) <==> f in Elements(keys[..FirstFailing(keys, failing)])
  {
    var n := FirstFailing(keys, failing);
    if ComesUp(keys, failing, f) {
      var i :| 0 <= i < |keys| && keys[i] == f && forall k :: 0 <= k <= i ==> keys[k] !in failing;
      assert i < n;
      assert keys[..n][i] == f;
    }
    if f in Elements(keys[..n]) {
      var i :| 0 <= i < n && keys[..n][i] == f;
      assert keys[i] == f;
    }
  }

  /** A file comes only with an upload, and a key that is taken is never overwritten. */
  lemma FileComesIff(s: State, a: Action, f: Key)
    requires Enabled(s, a) && f !in s.files
    ensures f in Apply(s, a).files <==> a.BeginUpload? && a.key == f
    ensures f in Apply(s, a).files ==> Apply(s, a).uploads == s.uploads[a.upload := Upload(a.user, f)]
  {
    hide WithoutInferred, Reread, ListsKeysOf, Superseded, FirstFailing, Elements;
  }

  /** A file is given up, stored and named by nothing, only when taking it back fails. */
  lemma LeaksIff(s: State, a: Action, f: Key)
    requires Enabled(s, a)
    ensures f in Apply(s, a).leaked <==>
      || f in s.leaked
      || (a.EndUpload? && f == s.uploads[a.upload].key && a.cleanupFails
          && (a.dbFails || s.uploads[a.upload].owner !in s.users || exists d :: d in s.cvs && s.cvs[d].key == f))
  {
    hide WithoutInferred, Reread, ListsKeysOf, Superseded, FirstFailing, Elements;
  }

  // ---------- Skills ----------

  /** The CV this action reads to the end, if it is still there and being read, is this user's,
      who has a profile. */
  predicate ReadsFor(s: State, a: Action, user: UserId) {
    && a.FinishRead? && a.cv in s.cvs && s.cvs[a.cv].state == Processing
    && s.cvs[a.cv].owner == user && user in s.profiles
  }

  /** A skill goes when its owner drops it or goes; an inferred one also when a later read does
      not name it, and when the newest CV is deleted. */
  lemma SkillGoesIff(s: State, a: Action, k: SkillKey)
    requires Enabled(s, a) && k in s.skills
    ensures k !in Apply(s, a).skills <==>
      || (a == Unpick(k.owner, k.concept) && k.owner in s.profiles)
      || (s.skills[k] == FromCv && ReadsFor(s, a, k.owner) && k.concept !in a.concepts)
      || (a.DeleteCv? && s.skills[k] == FromCv && k.owner == a.user && a.newest == a.cv && a.cv !in Apply(s, a).cvs
          && a.cv in s.cvs)
      || (a.DeleteAccount? && k.owner == a.user && a.user in s.users && a.commits && AllGo(s, a.user, a.failing))
  {
    hide Elements, Superseded;
    if a.DeleteAccount? { AllGoIff(s, a.user, a.keys, a.failing); }
  }

  /** Deleting the only latest CV takes what was inferred with it; while a later one is there,
      deleting an earlier one takes nothing. */
  lemma OnlyTheLatestTakesSkills(
    s: State, c: CvId, user: UserId, newest: CvId, failing: set<Key>, k: SkillKey)
    requires Enabled(s, DeleteCv(c, user, newest, failing, true)) && k in s.skills && k.owner == user
    requires c in s.cvs && s.cvs[c].owner == user && s.cvs[c].key !in failing
    ensures var t := Apply(s, DeleteCv(c, user, newest, failing, true));
      && ((forall d :: d in s.cvs && s.cvs[d].owner == user && d != c ==> s.cvs[d].createdAt < s.cvs[c].createdAt) ==>
            (k in t.skills <==> s.skills[k] == Manual))
      && ((exists d :: d in s.cvs && s.cvs[d].owner == user && s.cvs[d].createdAt > s.cvs[c].createdAt) ==>
            k in t.skills && t.skills[k] == s.skills[k])
  {
    var a := DeleteCv(c, user, newest, failing, true);
    SkillGoesIff(s, a, k);
    SkillComesIff(s, a, k);
    CvGoesIff(s, a, c);
    assert OwnsRow(s.cvs, user, c);
    if d :| d in s.cvs && s.cvs[d].owner == user && s.cvs[d].createdAt > s.cvs[c].createdAt {
      assert OwnsRow(s.cvs, user, d);
    }
  }

  /** A skill comes by hand or by a read, and keeps the source it came by. */
  lemma SkillComesIff(s: State, a: Action, k: SkillKey)
    requires Enabled(s, a)
    ensures k !in s.skills ==>
      (k in Apply(s, a).skills <==>
        (a == Pick(k.owner, k.concept) && k.owner in s.profiles)
        || (ReadsFor(s, a, k.owner) && k.concept in a.concepts))
    ensures k in Apply(s, a).skills ==>
      Apply(s, a).skills[k] == if k in s.skills then s.skills[k] else if a.Pick? then Manual else FromCv
  {
    hide Elements, Superseded, FirstFailing, ListsKeysOf;
  }

  // ---------- Accounts, uploads and reads ----------

  lemma AccountsChangeIff(s: State, a: Action, u: UserId)
    requires Enabled(s, a)
    ensures u in Apply(s, a).users <==>
      || a == CreateUser(u)
      || (u in s.users && !(a.DeleteAccount? && a.user == u && a.commits && AllGo(s, u, a.failing)))
    ensures u in Apply(s, a).profiles <==>
      || (a == SaveProfile(u) && u in s.users)
      || (u in s.profiles
          && !(a.DeleteAccount? && a.user == u && u in s.users && a.commits && AllGo(s, u, a.failing)))
  {
    hide Elements, Superseded, WithoutInferred, Reread;
    if a.DeleteAccount? { AllGoIff(s, a.user, a.keys, a.failing); }
  }

  lemma UploadsGoOn(s: State, a: Action)
    requires Enabled(s, a)
    ensures Apply(s, a).uploads ==
      match a
      case BeginUpload(u, user, key) => if key in s.files then s.uploads else s.uploads[u := Upload(user, key)]
      case EndUpload(u, _, _, _, _) => s.uploads - {u}
      case _ => s.uploads
  {
    hide Elements, Superseded, WithoutInferred, Reread, FirstFailing, ListsKeysOf;
  }

  lemma ReadsGoOn(s: State, a: Action)
    requires Enabled(s, a)
    ensures Apply(s, a).reading ==
      match a
      case BeginRead(c) => if c in s.cvs && s.cvs[c].state in {Pending, Failed} then s.reading + {c} else s.reading
      case FailRead(c) => s.reading - {c}
      case AbandonRead(c) => s.reading - {c}
      case FinishRead(c, _) => s.reading - {c}
      case _ => s.reading
  {
    hide Elements, Superseded, WithoutInferred, Reread, FirstFailing, ListsKeysOf;
  }

  lemma IdentifiersAreKept(s: State, a: Action, c: CvId)
    requires Enabled(s, a) && OwnersExist(s)
    ensures c in Apply(s, a).known <==> c in s.known || c in Apply(s, a).cvs
  {
    hide Elements, Superseded, WithoutInferred, Reread, FirstFailing, ListsKeysOf;
  }
}
