/** The CV service over its tables and its file store, changed in place. Every operation
    is one transaction of the protocol. */
module CvService {
  import opened Wrappers
  import opened CvProtocol
  import opened Sorting
  import E = Extraction

  /** The outcome of a read: the concepts new to the profile, and those picked before. */
  datatype ExtractedSkills = ExtractedSkills(added: seq<Concept>, alreadyChosen: seq<Concept>)

  datatype Deletion = Deleted | NotFound | FileKept | NotCommitted

  /** The concepts a list of mentions names. */
  function Mentioned(mentions: seq<E.Mention>): set<Concept> {
    set i | 0 <= i < |mentions| && mentions[i].concept.Some? :: mentions[i].concept.value
  }

  /** The concepts a text names: every one of them, sorted, without repeats. */
  method ConceptsIn(mentions: seq<E.Mention>) returns (concepts: seq<Concept>)
    ensures forall c :: c in concepts <==> c in Mentioned(mentions)
    ensures forall i, j :: 0 <= i < j < |concepts| ==> concepts[i] < concepts[j]
  {
    var found: set<Concept> := {};
    for n := 0 to |mentions|
      invariant forall c :: c in found <==>
        exists i :: 0 <= i < n && mentions[i].concept.Some? && mentions[i].concept.value == c
    {
      if mentions[n].concept.Some? { found := found + {mentions[n].concept.value}; }
    }
    concepts := Sorted(found, Ascends);
  }

  /** The concepts that were, or were not, on the profile already, in their order. */
  function Those(concepts: seq<Concept>, chosen: map<SkillKey, SkillSource>, user: UserId, present: bool)
    : (those: seq<Concept>)
    ensures forall c :: c in those <==> c in concepts && (SkillKey(user, c) in chosen <==> present)
  {
    if concepts == [] then []
    else
      var rest := Those(concepts[1..], chosen, user, present);
      if SkillKey(user, concepts[0]) in chosen <==> present then [concepts[0]] + rest else rest
  }

  class CvService {
    var users: set<UserId>
    var profiles: set<UserId>
    var cvs: map<CvId, Cv>
    var skills: map<SkillKey, SkillSource>
    var files: set<Key>
    var uploads: map<UploadId, Upload>
    var reading: set<CvId>
    var leaked: set<Key>
    var known: set<CvId>

    function View(): State
      reads this
    {
      State(users, profiles, cvs, skills, files, uploads, reading, leaked, known)
    }

    constructor ()
      ensures View() == EMPTY
    {
      users, profiles, cvs, skills := {}, {}, map[], map[];
      files, uploads, reading, leaked, known := {}, map[], {}, {}, {};
    }

    // ---------- Rows and files ----------

    /** Move a row through the table, or refuse. */
    method TransitionTo(c: CvId, to: CvState) returns (moved: bool)
      requires c in cvs
      modifies this`cvs
      ensures moved <==> to in Allowed(old(cvs)[c].state)
      ensures cvs == Transition(old(cvs), c, to)
      ensures moved ==> cvs[c].state == to
      ensures !moved ==> cvs == old(cvs)
    {
      moved := to in Allowed(cvs[c].state);
      if moved { cvs := cvs[c := cvs[c].(state := to)]; }
    }

    /** Remove a stored file; one that is not there counts as removed. */
    method Unlink(key: Key, failing: set<Key>) returns (done: bool)
      modifies this`files
      ensures done <==> key !in failing
      ensures files == if done then old(files) - {key} else old(files)
    {
      done := key !in failing;
      if done { files := files - {key}; }
    }

    // ---------- Uploading ----------

    /** Store the bytes; a key that is taken is refused rather than overwritten. */
    method BeginUpload(upload: UploadId, user: UserId, key: Key) returns (stored: bool)
      requires upload !in uploads
      modifies this
      ensures stored <==> key !in old(files)
      ensures View() == Apply(old(View()), Action.BeginUpload(upload, user, key))
    {
      stored := key !in files;
      if stored {
        files := files + {key};
        uploads := uploads[upload := Upload(user, key)];
      }
    }

    /** Commit the metadata, or take the file back. */
    method EndUpload(upload: UploadId, c: CvId, at: int, dbFails: bool, cleanupFails: bool)
      returns (committed: bool)
      requires upload in uploads && c !in known
      modifies this
      ensures committed <==> c in known
      ensures View() == Apply(old(View()), Action.EndUpload(upload, c, at, dbFails, cleanupFails))
    {
      var up := uploads[upload];
      uploads := uploads - {upload};
      committed := !dbFails && up.owner in users && up.key !in KeysOf(cvs);
      if committed {
        cvs := cvs[c := Cv(up.owner, up.key, at, Pending)];
        known := known + {c};
      } else {
        var cleaned := Unlink(up.key, if cleanupFails then {up.key} else {});
        if !cleaned { leaked := leaked + {up.key}; }
      }
    }

    /** Delete the CVs an upload replaced, files and all. A file that will not go keeps its row. */
    method RemoveSuperseded(kept: CvId, failing: set<Key>, commits: bool)
      modifies this
      ensures View() == Apply(old(View()), Action.RemoveSuperseded(kept, failing, commits))
    {
      if kept !in cvs { return; }
      var gone := UnlinkThose(Superseded(cvs, kept), failing);
      if commits { cvs := cvs - gone; }
    }

    /** Remove the files of these rows, and say which went. */
    method UnlinkThose(rows: set<CvId>, failing: set<Key>) returns (gone: set<CvId>)
      requires rows <= cvs.Keys
      modifies this`files
      ensures gone == set c | c in rows && cvs[c].key !in failing
      ensures files == old(files) - (set c | c in gone :: cvs[c].key)
    {
      var todo := rows;
      gone := {};
      while todo != {}
        invariant todo <= rows && gone == set c | c in rows - todo && cvs[c].key !in failing
        invariant files == old(files) - (set c | c in gone :: cvs[c].key)
        decreases |todo|
      {
        var c :| c in todo;
        var removed := Unlink(cvs[c].key, failing);
        if removed { gone := gone + {c}; }
        todo := todo - {c};
      }
    }

    // ---------- Reading ----------

    /** Claim a CV for reading. Refused while another read holds it; a processed one is left alone. */
    method BeginRead(c: CvId) returns (begun: bool)
      modifies this
      ensures begun <==> c in old(cvs) && Processing in Allowed(old(cvs)[c].state)
      ensures View() == Apply(old(View()), Action.BeginRead(c))
    {
      begun := false;
      if c in cvs && cvs[c].state != Processed {
        begun := TransitionTo(c, Processing);
        if begun { reading := reading + {c}; }
      }
    }

    method FailRead(c: CvId)
      requires c in reading
      modifies this
      ensures View() == Apply(old(View()), Action.FailRead(c))
    {
      reading := reading - {c};
      if c in cvs { var _ := TransitionTo(c, Failed); }
    }

    /** Replace what previous reads put on a profile by what this one found. A concept the
        candidate picked stays picked. */
    method StoreCvSkills(user: UserId, concepts: seq<Concept>) returns (result: ExtractedSkills)
      modifies this`skills
      ensures skills == Reread(old(skills), user, Elements(concepts))
      ensures forall c :: c in result.added <==>
        c in concepts && SkillKey(user, c) !in WithoutInferred(old(skills), user)
      ensures forall c :: c in result.alreadyChosen <==>
        c in concepts && SkillKey(user, c) in old(skills) && old(skills)[SkillKey(user, c)] == Manual
      ensures |result.added| + |result.alreadyChosen| == |concepts|
    {
      skills := WithoutInferred(skills, user);
      var chosen := skills;
      if concepts == [] { return ExtractedSkills([], []); }
      skills := WithInferred(skills, user, Elements(concepts));
      result := ExtractedSkills(
        Those(concepts, chosen, user, false), Those(concepts, chosen, user, true));
      EachIsEither(concepts, chosen, user);
    }

    /** Put a read's concepts on the profile, unless the CV went meanwhile. */
    method FinishRead(c: CvId, mentions: seq<E.Mention>)
      requires c in reading
      modifies this
      ensures View() == Apply(old(View()), Action.FinishRead(c, Mentioned(mentions)))
    {
      reading := reading - {c};
      if c !in cvs { return; }
      var savepoint := skills;
      var user := cvs[c].owner;
      if user in profiles {
        var concepts := ConceptsIn(mentions);
        assert Elements(concepts) == Mentioned(mentions);
        var _ := StoreCvSkills(user, concepts);
      }
      var moved := TransitionTo(c, Processed);
      if !moved { skills := savepoint; }
    }

    // ---------- Deleting ----------

    /** Delete one CV of this owner: its file, then its row, and the inferred skills if it is newest. */
    method DeleteCv(c: CvId, user: UserId, newest: CvId, failing: set<Key>, commits: bool) returns (deletion: Deletion)
      requires OwnsRow(cvs, user, c) ==> MayBeNewest(cvs, user, newest)
      modifies this
      ensures View() == Apply(old(View()), Action.DeleteCv(c, user, newest, failing, commits))
      ensures deletion.NotFound? <==> !OwnsRow(old(cvs), user, c)
      ensures deletion.FileKept? <==> OwnsRow(old(cvs), user, c) && old(cvs)[c].key in failing
      ensures deletion.Deleted? <==> OwnsRow(old(cvs), user, c) && c !in cvs
    {
      if !OwnsRow(cvs, user, c) { return NotFound; }
      var removed := Unlink(cvs[c].key, failing);
      if !removed { return FileKept; }
      if !commits { return NotCommitted; }
      if newest == c { skills := WithoutInferred(skills, user); }
      cvs := cvs - {c};
      return Deleted;
    }

    /** Delete an account and everything it owns; it stays if one of its files will not go. */
    method DeleteAccount(user: UserId, keys: seq<Key>, failing: set<Key>, commits: bool) returns (deletion: Deletion)
      requires ListsKeysOf(cvs, user, keys)
      modifies this
      ensures View() == Apply(old(View()), Action.DeleteAccount(user, keys, failing, commits))
      ensures deletion.Deleted? <==> user in old(users) && user !in users
    {
      hide Elements, FirstFailing, ListsKeysOf, AfterUpload, AfterReplacing, AfterReading, AfterDeletingCv;
      if user !in users { return NotFound; }
      var removed := UnlinkEach(keys, failing);
      if !removed { return FileKept; }
      if !commits { return NotCommitted; }
      cvs := map c | c in cvs && cvs[c].owner != user :: cvs[c];
      skills := map k | k in skills && k.owner != user :: skills[k];
      profiles := profiles - {user};
      users := users - {user};
      return Deleted;
    }

    /** Remove files in order, up to the first that will not go. */
    method UnlinkEach(keys: seq<Key>, failing: set<Key>) returns (done: bool)
      modifies this`files
      ensures done <==> FirstFailing(keys, failing) == |keys|
      ensures files == old(files) - Elements(keys[..FirstFailing(keys, failing)])
    {
      for n := 0 to |keys|
        invariant files == old(files) - Elements(keys[..n])
        invariant FirstFailing(keys, failing) >= n
      {
        var removed := Unlink(keys[n], failing);
        if !removed { return false; }
        assert keys[..n + 1] == keys[..n] + [keys[n]];
      }
      return true;
    }
  }

  lemma {:induction false} EachIsEither(concepts: seq<Concept>, chosen: map<SkillKey, SkillSource>, user: UserId)
    ensures |Those(concepts, chosen, user, false)| + |Those(concepts, chosen, user, true)| == |concepts|
  {
    if concepts != [] {
      EachIsEither(concepts[1..], chosen, user);
    }
  }
}
