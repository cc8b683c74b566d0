/** When one of the sources that list a job owns its contested fields, and when none does. */
module SoleOwner {
  import opened Wrappers
  import opened Extremes
  import opened Catalogue
  import opened Ownership

  /** What every source says of one job, listed still or not, one account a source. */
  type Accounts = map<SourceKey, Account>

  function Others(accounts: Accounts, k: SourceKey): set<Account> {
    set l | l in accounts && l != k :: accounts[l]
  }

  /** The source lists the job and takes what it contests from all the others together. */
  predicate Owns(accounts: Accounts, k: SourceKey) {
    && k in accounts && accounts[k].live
    && Outranks(accounts[k].rank, accounts[k].partial, accounts[k].stated, accounts[k].firstSeen, Others(accounts, k))
  }

  /** The live sources of the highest rank. */
  function Top(accounts: Accounts): (top: set<SourceKey>)
    ensures top <= accounts.Keys
  {
    set k | k in accounts && accounts[k].live
            && forall l :: l in accounts && accounts[l].live ==> accounts[l].rank <= accounts[k].rank
  }

  predicate AnyFullText(accounts: Accounts) {
    exists k :: k in accounts && !accounts[k].partial
  }

  /** States more than each of its peers, or no less while listed before each of them. */
  predicate Leads(accounts: Accounts, peers: set<SourceKey>, k: SourceKey)
    requires k in accounts && peers <= accounts.Keys
  {
    || (forall l :: l in peers && l != k ==> accounts[l].stated < accounts[k].stated)
    || (forall l :: l in peers && l != k ==>
          accounts[l].stated <= accounts[k].stated && accounts[k].firstSeen < accounts[l].firstSeen)
  }

  /** The only full text among its peers. */
  predicate OnlyFullText(accounts: Accounts, peers: set<SourceKey>, k: SourceKey)
    requires k in accounts && peers <= accounts.Keys
  {
    !accounts[k].partial && forall l :: l in peers && l != k ==> accounts[l].partial
  }

  /** The owner of some accounts is the amalgam of the live ones of highest rank. */
  lemma OwnerIsTheAmalgam(accounts: set<Account>, owning: set<Account>)
    requires owning != {} && owning <= accounts && forall a :: a in owning ==> a.live
    requires forall a, b :: a in owning && b in accounts && b.live ==>
      b.rank <= a.rank && (b.rank == a.rank ==> b in owning)
    ensures OwnerOf(accounts).Some?
    ensures var owner := OwnerOf(accounts).value;
      && (forall a :: a in owning ==>
          a.rank == owner.precedence && owner.firstSeen <= a.firstSeen && a.stated <= owner.stated)
      && (exists a :: a in owning && a.firstSeen == owner.firstSeen)
      && (exists a :: a in owning && a.stated == owner.stated)
      && (owner.partial <==> forall a :: a in owning ==> a.partial)
  {
    var some :| some in owning;
    assert some in accounts && some.live;
    OwningIs(accounts, owning);
    OwnerOfOwning(accounts);
  }

  lemma OwningIs(accounts: set<Account>, owning: set<Account>)
    requires owning != {} && owning <= accounts && forall a :: a in owning ==> a.live
    requires forall a, b :: a in owning && b in accounts && b.live ==>
      b.rank <= a.rank && (b.rank == a.rank ==> b in owning)
    ensures (exists a :: a in accounts && a.live) && Owning(accounts) == owning
  {
    var some :| some in owning;
    assert some in accounts && some.live;
    var held := Owning(accounts);
    var h :| h in held;
    assert h.rank == some.rank;
  }

  lemma OwnerOfOwning(accounts: set<Account>)
    requires exists a :: a in accounts && a.live
    ensures OwnerOf(accounts).Some?
    ensures var owner, owning := OwnerOf(accounts).value, Owning(accounts);
      && (forall a :: a in owning ==>
          a.rank == owner.precedence && owner.firstSeen <= a.firstSeen && a.stated <= owner.stated)
      && (exists a :: a in owning && a.firstSeen == owner.firstSeen)
      && (exists a :: a in owning && a.stated == owner.stated)
      && (owner.partial <==> forall a :: a in owning ==> a.partial)
  {
    var owning := Owning(accounts);
    assert forall a, b :: a in owning && b in owning ==> a.rank == b.rank;
  }

  /** The text, the count and the date of one account against those of the owner. */
  predicate Wins(a: Account, owner: Owner) {
    if (a.partial, a.stated) != (owner.partial, owner.stated) then
      MoreComplete(a.partial, a.stated, owner.partial, owner.stated)
    else a.firstSeen < owner.firstSeen
  }

  lemma AgainstTheBest(accounts: Accounts, k: SourceKey, owner: Owner)
    requires k in Top(accounts) && !(accounts[k].partial && AnyFullText(accounts))
    requires var peers := set l | l in Top(accounts) && l != k;
      && (forall l :: l in peers ==> owner.firstSeen <= accounts[l].firstSeen && accounts[l].stated <= owner.stated)
      && (exists l :: l in peers && accounts[l].firstSeen == owner.firstSeen)
      && (exists l :: l in peers && accounts[l].stated == owner.stated)
      && (owner.partial <==> forall l :: l in peers ==> accounts[l].partial)
    ensures Wins(accounts[k], owner) <==> OnlyFullText(accounts, Top(accounts), k) || Leads(accounts, Top(accounts), k)
  {
    var peers := set l | l in Top(accounts) && l != k;
    var earliest :| earliest in peers && accounts[earliest].firstSeen == owner.firstSeen;
    var fullest :| fullest in peers && accounts[fullest].stated == owner.stated;
    assert Leads(accounts, Top(accounts), k) <==>
      || owner.stated < accounts[k].stated
      || (owner.stated <= accounts[k].stated && accounts[k].firstSeen < owner.firstSeen);
    assert owner.partial && !accounts[k].partial <==> OnlyFullText(accounts, Top(accounts), k);
  }

  /** Among peers of the highest rank, outranking the others is a matter of the text, then
      of the count, then of the date; all of it against the best of each among the others. */
  lemma OutranksPeersIff(accounts: Accounts, k: SourceKey)
    requires k in Top(accounts) && exists l :: l in Top(accounts) && l != k
    ensures Owns(accounts, k) <==>
      && !(accounts[k].partial && AnyFullText(accounts))
      && (OnlyFullText(accounts, Top(accounts), k) || Leads(accounts, Top(accounts), k))
  {
    hide Top, Others, OwnerOf, OnlyFullText, Leads, AnyFullText, SuppliedFullText, Wins, Outranks;
    TopIsLive(accounts, k);
    var a, others := accounts[k], Others(accounts, k);
    if a.partial { FullTextElsewhere(accounts, k); }
    var owner := OwnerOfTheOthers(accounts, k);
    if !(a.partial && AnyFullText(accounts)) { AgainstTheBest(accounts, k, owner); }
    OutranksAtOneRank(a, others, owner);
  }

  lemma TopIsLive(accounts: Accounts, k: SourceKey)
    requires k in Top(accounts)
    ensures k in accounts && accounts[k].live
  {
  }

  lemma OutranksAtOneRank(a: Account, others: set<Account>, owner: Owner)
    requires OwnerOf(others) == Some(owner) && owner.precedence == a.rank
    ensures Outranks(a.rank, a.partial, a.stated, a.firstSeen, others)
       <==> !(a.partial && SuppliedFullText(others)) && Wins(a, owner)
  {
  }

  lemma OwnerOfTheOthers(accounts: Accounts, k: SourceKey) returns (owner: Owner)
    requires k in Top(accounts) && exists l :: l in Top(accounts) && l != k
    ensures k in accounts && OwnerOf(Others(accounts, k)) == Some(owner) && owner.precedence == accounts[k].rank
    ensures var peers := set l | l in Top(accounts) && l != k;
      && (forall l :: l in peers ==> l in accounts)
      && (forall l :: l in peers ==> owner.firstSeen <= accounts[l].firstSeen && accounts[l].stated <= owner.stated)
      && (exists l :: l in peers && accounts[l].firstSeen == owner.firstSeen)
      && (exists l :: l in peers && accounts[l].stated == owner.stated)
      && (owner.partial <==> forall l :: l in peers ==> accounts[l].partial)
  {
    hide OwnerOf;
    var owning := set l | l in Top(accounts) && l != k :: accounts[l];
    PeersAreTheOwning(accounts, k);
    OwnerIsTheAmalgam(Others(accounts, k), owning);
    owner := OwnerOf(Others(accounts, k)).value;
    OwnerOfPeers(accounts, k, owner, owning);
    var some :| some in owning;
    assert some.rank == owner.precedence;
  }

  lemma OwnerOfPeers(accounts: Accounts, k: SourceKey, owner: Owner, owning: set<Account>)
    requires k in Top(accounts) && owning == (set l | l in Top(accounts) && l != k :: accounts[l])
    requires forall a :: a in owning ==> owner.firstSeen <= a.firstSeen && a.stated <= owner.stated
    requires exists a :: a in owning && a.firstSeen == owner.firstSeen
    requires exists a :: a in owning && a.stated == owner.stated
    requires owner.partial <==> forall a :: a in owning ==> a.partial
    ensures var peers := set l | l in Top(accounts) && l != k;
      && (forall l :: l in peers ==> owner.firstSeen <= accounts[l].firstSeen && accounts[l].stated <= owner.stated)
      && (exists l :: l in peers && accounts[l].firstSeen == owner.firstSeen)
      && (exists l :: l in peers && accounts[l].stated == owner.stated)
      && (owner.partial <==> forall l :: l in peers ==> accounts[l].partial)
  {
    var peers := set l | l in Top(accounts) && l != k;
    forall l | l in peers ensures accounts[l] in owning {
    }
  }

  lemma PeersAreTheOwning(accounts: Accounts, k: SourceKey)
    requires k in Top(accounts) && exists l :: l in Top(accounts) && l != k
    ensures var owning := set l | l in Top(accounts) && l != k :: accounts[l];
      && owning != {} && owning <= Others(accounts, k)
      && (forall a :: a in owning ==> a.live && a.rank == accounts[k].rank)
      && forall a, b :: a in owning && b in Others(accounts, k) && b.live ==>
          b.rank <= a.rank && (b.rank == a.rank ==> b in owning)
  {
    var owning := set l | l in Top(accounts) && l != k :: accounts[l];
    var l :| l in Top(accounts) && l != k;
    assert accounts[l] in owning;
    forall a, b | a in owning && b in Others(accounts, k) && b.live
      ensures b.rank <= a.rank && (b.rank == a.rank ==> b in owning)
    {
      var i :| i in Top(accounts) && i != k && accounts[i] == a;
      var n :| n in accounts && n != k && accounts[n] == b;
      if b.rank == a.rank { assert n in Top(accounts); }
    }
  }

  lemma FullTextElsewhere(accounts: Accounts, k: SourceKey)
    requires k in accounts && accounts[k].partial
    ensures SuppliedFullText(Others(accounts, k)) <==> AnyFullText(accounts)
  {
    if AnyFullText(accounts) {
      var l :| l in accounts && !accounts[l].partial;
      assert accounts[l] in Others(accounts, k);
    }
  }

  /** The only live source of the highest rank outranks the others, unless it sends a
      snippet and anybody ever sent the text. */
  lemma AloneAtTheTopIff(accounts: Accounts, k: SourceKey)
    requires Top(accounts) == {k}
    ensures k in accounts && (Owns(accounts, k) <==> !(accounts[k].partial && AnyFullText(accounts)))
  {
    assert k in Top(accounts);
    if accounts[k].partial { FullTextElsewhere(accounts, k); }
    if l :| l in accounts && l != k && accounts[l].live {
      assert accounts[l] in Others(accounts, k);
      AllBelow(accounts, k);
    }
  }

  lemma AllBelow(accounts: Accounts, k: SourceKey)
    requires Top(accounts) == {k} && exists a :: a in Others(accounts, k) && a.live
    ensures k in accounts && OwnerOf(Others(accounts, k)).Some?
    ensures OwnerOf(Others(accounts, k)).value.precedence < accounts[k].rank
  {
    assert k in Top(accounts);
    OwnerOfOwning(Others(accounts, k));
    var a :| a in Owning(Others(accounts, k));
    var l :| l in accounts && l != k && accounts[l] == a;
    assert a.rank == accounts[k].rank ==> l in Top(accounts);
  }

  /** A source below the highest rank never does. */
  lemma OnlyTheTopOwns(accounts: Accounts, k: SourceKey)
    requires Owns(accounts, k)
    ensures k in Top(accounts)
  {
    forall l | l in accounts && accounts[l].live ensures accounts[l].rank <= accounts[k].rank {
      if l != k {
        assert accounts[l] in Others(accounts, k);
        OutranksEach(accounts[k].rank, accounts[k].partial, accounts[k].stated, accounts[k].firstSeen,
                     Others(accounts, k), accounts[l]);
      }
    }
  }

  lemma TwoAtTheTop(top: set<SourceKey>, k: SourceKey)
    requires k in top && |top| != 1
    ensures exists l :: l in top && l != k
  {
    assert (forall l :: l in top ==> l == k) ==> top == {k};
  }

  /** Which source owns a job, if any: one of the live sources of the highest rank, not a
      snippet where anybody ever sent the text, and alone there, or the only one there with
      the text, or leading the others there in what it states. */
  lemma OwnsIff(accounts: Accounts, k: SourceKey)
    ensures Owns(accounts, k) <==>
      && k in Top(accounts) && !(accounts[k].partial && AnyFullText(accounts))
      && (|Top(accounts)| == 1 || OnlyFullText(accounts, Top(accounts), k) || Leads(accounts, Top(accounts), k))
  {
    hide Owns, Top, OnlyFullText, Leads, AnyFullText;
    if k in Top(accounts) {
      if |Top(accounts)| == 1 {
        OneMember(Top(accounts), k);
        AloneAtTheTopIff(accounts, k);
      } else {
        TwoAtTheTop(Top(accounts), k);
        OutranksPeersIff(accounts, k);
      }
    } else if Owns(accounts, k) {
      OnlyTheTopOwns(accounts, k);
    }
  }

  lemma OneMember(top: set<SourceKey>, k: SourceKey)
    requires k in top && |top| == 1
    ensures top == {k}
  {
    assert |top - {k}| == 0;
  }

  function FullAtTop(accounts: Accounts): (full: set<SourceKey>)
    ensures full <= Top(accounts)
  {
    set k | k in Top(accounts) && !accounts[k].partial
  }

  /** When a job has an owner. Alone at the top rank, a source owns it unless it sends a
      snippet of what another sent in full. Of several there, exactly one with the text owns
      it. With several texts, or none sent by anybody, it has one exactly when some source
      there, of those with the text if any, states more than all the others there, or no
      less and was first. With none there but one elsewhere, it has none. */
  predicate SomeoneShould(accounts: Accounts) {
    var top, full := Top(accounts), FullAtTop(accounts);
    if |top| == 0 then false
    else if |top| == 1 then full == top || !AnyFullText(accounts)
    else if |full| == 1 then true
    else if |full| == 0 then !AnyFullText(accounts) && exists k :: k in top && Leads(accounts, top, k)
    else exists k :: k in full && Leads(accounts, top, k)
  }

  lemma AnOwnerExistsIff(accounts: Accounts)
    ensures (exists k :: Owns(accounts, k)) <==> SomeoneShould(accounts)
  {
    var top, full := Top(accounts), FullAtTop(accounts);
    hide Owns, Top, Leads, AnyFullText, OnlyFullText, FullAtTop;
    forall k ensures Owns(accounts, k) <==>
      && k in top && !(accounts[k].partial && AnyFullText(accounts))
      && (|top| == 1 || OnlyFullText(accounts, top, k) || Leads(accounts, top, k))
    {
      OwnsIff(accounts, k);
    }
    forall k | k in top ensures k in full <==> !accounts[k].partial {
      FullIs(accounts, k);
    }
    if |top| == 1 {
      var k :| k in top;
      OneMember(top, k);
      SnippetAlone(accounts, k);
    } else if |full| == 1 {
      var k :| k in full;
      OneMember(full, k);
      OnlyOneFull(accounts, k);
      assert Owns(accounts, k);
    } else {
      forall k | k in top ensures !OnlyFullText(accounts, top, k) {
        NotOnlyFull(accounts, k);
      }
      if |full| > 0 { TextIsThere(accounts); }
      if |full| == 0 { assert full == {}; }
    }
  }

  lemma FullIs(accounts: Accounts, k: SourceKey)
    requires k in Top(accounts)
    ensures k in FullAtTop(accounts) <==> !accounts[k].partial
  {
  }

  lemma SnippetAlone(accounts: Accounts, k: SourceKey)
    requires Top(accounts) == {k}
    ensures FullAtTop(accounts) == Top(accounts) <==> !accounts[k].partial
  {
    assert k in Top(accounts);
    FullIs(accounts, k);
  }

  lemma OnlyOneFull(accounts: Accounts, k: SourceKey)
    requires FullAtTop(accounts) == {k}
    ensures k in Top(accounts) && OnlyFullText(accounts, Top(accounts), k)
  {
    assert k in FullAtTop(accounts);
    forall l | l in Top(accounts) && l != k ensures accounts[l].partial {
      FullIs(accounts, l);
    }
  }

  lemma NotOnlyFull(accounts: Accounts, k: SourceKey)
    requires k in Top(accounts) && |FullAtTop(accounts)| != 1
    ensures !OnlyFullText(accounts, Top(accounts), k)
  {
    FullIs(accounts, k);
    if k in FullAtTop(accounts) {
      TwoAtTheTop(FullAtTop(accounts), k);
      var l :| l in FullAtTop(accounts) && l != k;
      FullIs(accounts, l);
    }
  }

  lemma TextIsThere(accounts: Accounts)
    requires |FullAtTop(accounts)| > 0
    ensures AnyFullText(accounts)
  {
    var k :| k in FullAtTop(accounts);
  }
}
