/** The boilerplate rule over postings already stored, where part of the catalogue may
    have been stripped before, and what a second pass of it does. */
module StoredBoilerplate {
  import opened Extremes
  import opened Catalogue
  import opened Paragraphs
  import opened Boilerplate
  import opened BoilerplateLaws

  const NEARLY_ALL := 0.9

  // ---------- The rule ----------

  /** The folded blocks of these postings that name the employer. */
  function Naming(lex: Lexicon, employer: string, descriptions: seq<string>): set<string> {
    set b | b in CarriedSomewhere(lex, descriptions) && Names(lex.marker(employer), b)
  }

  /** The largest count among some blocks. */
  function Most(blocks: set<string>, count: string -> nat): (n: nat)
    ensures forall b :: b in blocks ==> count(b) <= n
    ensures blocks != {} ==> exists b :: b in blocks && count(b) == n
    ensures blocks == {} ==> n == 0
  {
    if blocks == {} then 0
    else
      var counts: set<int> := set b | b in blocks :: count(b);
      assert counts != {} by {
        var b :| b in blocks;
        assert count(b) in counts;
      }
      assert forall b :: b in blocks ==> count(b) in counts;
      Greatest(counts)
  }

  /** How many postings carry the block that most of them carry. */
  function MostCarried(lex: Lexicon, descriptions: seq<string>, blocks: set<string>): nat {
    Most(blocks, b => Carrying(lex, descriptions, b))
  }

  /** Two thresholds, either of which will do: one against all the postings, the other
      against the number that carry the commonest naming block, if that is large enough. */
  predicate Template(policy: Policy, seen: nat, postings: nat, carrying: nat) {
    InMost(policy, seen, postings)
    || (carrying >= policy.minimumInHand && seen as real >= NEARLY_ALL * carrying as real)
  }

  function StoredBlocks(lex: Lexicon, employer: string, descriptions: seq<string>, policy: Policy): set<string> {
    if |descriptions| < policy.minimumPostings then {}
    else if lex.marker(employer) == "" then {}
    else
      var naming := Naming(lex, employer, descriptions);
      var carrying := MostCarried(lex, descriptions, naming);
      set b | b in naming && Template(policy, Carrying(lex, descriptions, b), |descriptions|, carrying)
  }

  /** Every posting without the blocks; unlike at ingestion also where there are none. */
  function Without(lex: Lexicon, descriptions: seq<string>, drop: set<string>): (after: seq<string>)
    ensures |after| == |descriptions|
    ensures forall i :: 0 <= i < |after| ==> after[i] == WithoutBlocks(lex, descriptions[i], drop)
  {
    Each(descriptions, d => WithoutBlocks(lex, d, drop))
  }

  /** One pass over one employer's stored postings. */
  function Pass(lex: Lexicon, employer: string, descriptions: seq<string>, policy: Policy): seq<string> {
    Without(lex, descriptions, StoredBlocks(lex, employer, descriptions, policy))
  }

  // ---------- What a pass leaves ----------

  lemma WithoutIsLeft(lex: Lexicon, descriptions: seq<string>, drop: set<string>)
    ensures IsLeft(lex, descriptions, Without(lex, descriptions, drop), drop)
  {
    hide WithoutBlocks, BlocksLeft, Blocks;
    forall i | 0 <= i < |descriptions| { BlocksWithout(lex, descriptions[i], drop); }
  }

  /** What a pass leaves carries a block as often as it is left. */
  lemma CarriedAfterPass(lex: Lexicon, descriptions: seq<string>, drop: set<string>, b: string)
    ensures Carrying(lex, Without(lex, descriptions, drop), b) == Left(lex, descriptions, drop, b)
    ensures Left(lex, descriptions, drop, b) <= Carrying(lex, descriptions, b)
  {
    hide Carrying, Left, Without, IsLeft;
    WithoutIsLeft(lex, descriptions, drop);
    LeftIsCarried(lex, descriptions, Without(lex, descriptions, drop), drop, b);
  }

  lemma CarriedIsCounted(lex: Lexicon, descriptions: seq<string>, b: string)
    ensures b in CarriedSomewhere(lex, descriptions) <==> Carrying(lex, descriptions, b) > 0
  {
    NotCarriedIsZero(lex, descriptions, b);
    if b in CarriedSomewhere(lex, descriptions) {
      var d, block :| d in descriptions && block in Blocks(d) && lex.fold(block) == b;
      assert b in FoldedBlocks(lex, d);
      SomeoneIsCounted(lex, descriptions, d, b);
    }
  }

  lemma {:induction false} SomeoneIsCounted(lex: Lexicon, descriptions: seq<string>, d: string, b: string)
    requires d in descriptions && b in FoldedBlocks(lex, d)
    ensures Carrying(lex, descriptions, b) > 0
  {
    hide FoldedBlocks;
    var last := |descriptions| - 1;
    if descriptions[last] != d { SomeoneIsCounted(lex, descriptions[..last], d, b); }
  }

  /** The blocks left that name the employer. */
  function NamingLeft(
    lex: Lexicon, employer: string, descriptions: seq<string>, drop: set<string>): set<string>
  {
    set b | b in Naming(lex, employer, descriptions) && Left(lex, descriptions, drop, b) > 0
  }

  lemma NamingAfter(lex: Lexicon, employer: string, descriptions: seq<string>, drop: set<string>)
    ensures Naming(lex, employer, Without(lex, descriptions, drop)) == NamingLeft(lex, employer, descriptions, drop)
  {
    hide Names, Carrying, CarriedSomewhere, Without, Left;
    var after := Without(lex, descriptions, drop);
    forall b ensures b in Naming(lex, employer, after) <==> b in NamingLeft(lex, employer, descriptions, drop) {
      CarriedAfterPass(lex, descriptions, drop, b);
      CarriedIsCounted(lex, after, b);
      CarriedIsCounted(lex, descriptions, b);
    }
  }

  // ---------- When a second pass finds nothing ----------

  /** The rule looks at this employer at all. */
  predicate Applies(lex: Lexicon, employer: string, descriptions: seq<string>, policy: Policy) {
    |descriptions| >= policy.minimumPostings && lex.marker(employer) != ""
  }

  /** The rule finds nothing exactly when no naming block is carried by as many postings
      as a pattern takes, nor by most of them. */
  lemma NothingFoundIff(lex: Lexicon, employer: string, descriptions: seq<string>, policy: Policy)
    requires Acceptable(policy) && Applies(lex, employer, descriptions, policy)
    ensures StoredBlocks(lex, employer, descriptions, policy) == {} <==>
            forall b :: b in Naming(lex, employer, descriptions) ==>
              TooFew(policy, Carrying(lex, descriptions, b), |descriptions|)
  {
    hide Naming, Carrying, InMost;
    var naming := Naming(lex, employer, descriptions);
    var carrying := MostCarried(lex, descriptions, naming);
    var found := StoredBlocks(lex, employer, descriptions, policy);
    if naming != {} {
      var top :| top in naming && Carrying(lex, descriptions, top) == carrying;
      if carrying >= policy.minimumInHand { assert top in found; }
      if found == {} {
        forall b | b in naming ensures TooFew(policy, Carrying(lex, descriptions, b), |descriptions|) {
          assert b !in found;
        }
      }
    }
  }

  predicate TooFew(policy: Policy, seen: nat, postings: nat) {
    seen < policy.minimumInHand && !InMost(policy, seen, postings)
  }

  /** A second pass finds nothing to remove exactly when too few postings still carry each
      naming block, and no removable one is left in most of them. */
  lemma NothingFoundAgainIff(lex: Lexicon, employer: string, descriptions: seq<string>, policy: Policy)
    requires Acceptable(policy)
    ensures var drop := StoredBlocks(lex, employer, descriptions, policy);
            StoredBlocks(lex, employer, Pass(lex, employer, descriptions, policy), policy) == {}
            <==> (Applies(lex, employer, descriptions, policy) ==>
                    forall b :: b in Naming(lex, employer, descriptions) ==>
                      && Left(lex, descriptions, drop, b) < policy.minimumInHand
                      && (b in drop ==> !InMost(policy, Left(lex, descriptions, drop, b), |descriptions|)))
  {
    hide Carrying, Left, Without, InMost, Naming, StoredBlocks;
    var drop := StoredBlocks(lex, employer, descriptions, policy);
    var after := Without(lex, descriptions, drop);
    if Applies(lex, employer, descriptions, policy) {
      NamingAfter(lex, employer, descriptions, drop);
      NothingFoundIff(lex, employer, after, policy);
      forall b ensures Carrying(lex, after, b) == Left(lex, descriptions, drop, b) {
        CarriedAfterPass(lex, descriptions, drop, b);
      }
      forall b | b in Naming(lex, employer, descriptions)
        ensures b !in drop || Left(lex, descriptions, drop, b) == 0 ==>
          !InMost(policy, Left(lex, descriptions, drop, b), |descriptions|)
      {
        NoneIsNotMost(policy, |descriptions|);
        if b !in drop { KeptIsNotInMost(lex, employer, descriptions, policy, b); }
      }
    } else {
      NotApplied(lex, employer, after, policy);
    }
  }

  lemma NotApplied(lex: Lexicon, employer: string, descriptions: seq<string>, policy: Policy)
    requires !Applies(lex, employer, descriptions, policy)
    ensures StoredBlocks(lex, employer, descriptions, policy) == {}
  {
  }

  lemma NoneIsNotMost(policy: Policy, n: nat)
    requires Acceptable(policy) && n >= policy.minimumPostings
    ensures !InMost(policy, 0, n)
  {
    var share, size := policy.minimumShare, n as real;
    Positive(share, size);
    assert InMost(policy, 0, n) <==> 0.0 >= share * size;
  }

  lemma Positive(x: real, y: real)
    requires x > 0.0 && y > 0.0
    ensures x * y > 0.0
  {
  }

  lemma KeptIsNotInMost(lex: Lexicon, employer: string, descriptions: seq<string>, policy: Policy, b: string)
    requires Applies(lex, employer, descriptions, policy)
    requires b in Naming(lex, employer, descriptions) && b !in StoredBlocks(lex, employer, descriptions, policy)
    ensures Left(lex, descriptions, StoredBlocks(lex, employer, descriptions, policy), b)
         == Carrying(lex, descriptions, b)
    ensures !InMost(policy, Carrying(lex, descriptions, b), |descriptions|)
  {
  }

  // ---------- When a second pass is idle ----------

  /** What a second pass would remove, told from the first pass's input. */
  function FoundAgain(lex: Lexicon, employer: string, descriptions: seq<string>, policy: Policy): set<string> {
    if !Applies(lex, employer, descriptions, policy) then {}
    else
      var drop := StoredBlocks(lex, employer, descriptions, policy);
      var naming := NamingLeft(lex, employer, descriptions, drop);
      var carrying := Most(naming, b => Left(lex, descriptions, drop, b));
      set b | b in naming && Template(policy, Left(lex, descriptions, drop, b), |descriptions|, carrying)
  }

  lemma FoundAgainIs(lex: Lexicon, employer: string, descriptions: seq<string>, policy: Policy)
    ensures StoredBlocks(lex, employer, Pass(lex, employer, descriptions, policy), policy)
         == FoundAgain(lex, employer, descriptions, policy)
  {
    hide Naming, NamingLeft, Left, Carrying, Without, InMost;
    if Applies(lex, employer, descriptions, policy) {
      var drop := StoredBlocks(lex, employer, descriptions, policy);
      hide StoredBlocks;
      var after := Without(lex, descriptions, drop);
      NamingAfter(lex, employer, descriptions, drop);
      forall b ensures Carrying(lex, after, b) == Left(lex, descriptions, drop, b) {
        CarriedAfterPass(lex, descriptions, drop, b);
      }
      AppliedTo(lex, employer, after, policy);
      SameMost(NamingLeft(lex, employer, descriptions, drop),
        b => Carrying(lex, after, b), b => Left(lex, descriptions, drop, b));
    } else {
      NotApplied(lex, employer, Pass(lex, employer, descriptions, policy), policy);
    }
  }

  lemma AppliedTo(lex: Lexicon, employer: string, descriptions: seq<string>, policy: Policy)
    requires Applies(lex, employer, descriptions, policy)
    ensures var naming := Naming(lex, employer, descriptions);
            StoredBlocks(lex, employer, descriptions, policy)
            == set b | b in naming
                 && Template(policy, Carrying(lex, descriptions, b), |descriptions|,
                             Most(naming, b => Carrying(lex, descriptions, b)))
  {
  }

  lemma SameMost(blocks: set<string>, count: string -> nat, again: string -> nat)
    requires forall b :: b in blocks ==> count(b) == again(b)
    ensures Most(blocks, count) == Most(blocks, again)
  {
    if blocks != {} {
      var b :| b in blocks && count(b) == Most(blocks, count);
      var c :| c in blocks && again(c) == Most(blocks, again);
      assert count(c) <= Most(blocks, count) && again(b) <= Most(blocks, again);
    }
  }

  /** A posting says nothing but what is to go, or nothing of it and is written as a pass
      writes it. */
  predicate Untouched(lex: Lexicon, d: string, drop: set<string>) {
    || (forall b :: b in Blocks(d) ==> lex.fold(b) in drop)
    || ((forall b :: b in Blocks(d) ==> lex.fold(b) !in drop) && Join(Blocks(d)) == d)
  }

  lemma UntouchedIff(lex: Lexicon, d: string, drop: set<string>)
    ensures WithoutBlocks(lex, d, drop) == d <==> Untouched(lex, d, drop)
  {
    var kept := Kept(lex, Blocks(d), drop);
    NothingKept(lex, Blocks(d), drop);
    if kept != [] {
      BlocksOfJoin(kept);
      if forall b :: b in Blocks(d) ==> lex.fold(b) !in drop { NothingDropped(lex, Blocks(d), drop); }
    }
  }

  /** The same of what a pass leaves of a posting, told from what it said before. */
  predicate Settles(lex: Lexicon, d: string, drop: set<string>, again: set<string>) {
    if Wholly(lex, d, drop) then Untouched(lex, d, again)
    else
      || (forall b :: b in Blocks(d) && lex.fold(b) !in drop ==> lex.fold(b) in again)
      || (forall b :: b in Blocks(d) && lex.fold(b) !in drop ==> lex.fold(b) !in again)
  }

  lemma SettlesIff(lex: Lexicon, d: string, drop: set<string>, again: set<string>)
    ensures var once := WithoutBlocks(lex, d, drop);
            WithoutBlocks(lex, once, again) == once <==> Settles(lex, d, drop, again)
  {
    var once := WithoutBlocks(lex, d, drop);
    BlocksWithout(lex, d, drop);
    UntouchedIff(lex, once, again);
    hide Untouched;
    if !Wholly(lex, d, drop) {
      var kept := Kept(lex, Blocks(d), drop);
      assert once == Join(kept) && Blocks(once) == kept;
      UntouchedAsWritten(lex, kept, once, again);
    }
  }

  lemma UntouchedAsWritten(lex: Lexicon, kept: seq<string>, once: string, again: set<string>)
    requires AllClean(kept) && once == Join(kept) && Blocks(once) == kept
    ensures Untouched(lex, once, again) <==>
      || (forall b :: b in kept ==> lex.fold(b) in again)
      || (forall b :: b in kept ==> lex.fold(b) !in again)
  {
  }

  /** A second pass over an employer's stored postings changes nothing if and only if each
      of them settles under what is then found. */
  lemma PassIsIdleIff(lex: Lexicon, employer: string, descriptions: seq<string>, policy: Policy)
    ensures var once := Pass(lex, employer, descriptions, policy);
            Pass(lex, employer, once, policy) == once <==>
            forall i :: 0 <= i < |descriptions| ==>
              Settles(lex, descriptions[i], StoredBlocks(lex, employer, descriptions, policy),
                      FoundAgain(lex, employer, descriptions, policy))
  {
    hide StoredBlocks, FoundAgain, WithoutBlocks, Settles;
    var drop := StoredBlocks(lex, employer, descriptions, policy);
    var once := Pass(lex, employer, descriptions, policy);
    FoundAgainIs(lex, employer, descriptions, policy);
    var again := StoredBlocks(lex, employer, once, policy);
    forall i | 0 <= i < |descriptions|
      ensures WithoutBlocks(lex, once[i], again) == once[i] <==> Settles(lex, descriptions[i], drop, again)
    {
      SettlesIff(lex, descriptions[i], drop, again);
    }
  }

  // ---------- Postings with words of their own ----------

  /** The posting says something that does not name the employer. */
  predicate HasOwnWords(lex: Lexicon, employer: string, d: string) {
    exists b :: b in Blocks(d) && !Names(lex.marker(employer), lex.fold(b))
  }

  lemma OnlyNamingIsFound(lex: Lexicon, employer: string, descriptions: seq<string>, policy: Policy, b: string)
    requires b in StoredBlocks(lex, employer, descriptions, policy) + FoundAgain(lex, employer, descriptions, policy)
    ensures Names(lex.marker(employer), b) && b in Naming(lex, employer, descriptions)
  {
    hide Names;
  }

  lemma OwnWordsStay(lex: Lexicon, employer: string, descriptions: seq<string>, policy: Policy, d: string)
    requires HasOwnWords(lex, employer, d)
    ensures !Wholly(lex, d, StoredBlocks(lex, employer, descriptions, policy))
    ensures !(forall b :: b in Blocks(d) && lex.fold(b) !in StoredBlocks(lex, employer, descriptions, policy) ==>
                lex.fold(b) in FoundAgain(lex, employer, descriptions, policy))
  {
    hide Names, StoredBlocks, FoundAgain;
    var own :| own in Blocks(d) && !Names(lex.marker(employer), lex.fold(own));
    var drop := StoredBlocks(lex, employer, descriptions, policy);
    if lex.fold(own) in drop + FoundAgain(lex, employer, descriptions, policy) {
      OnlyNamingIsFound(lex, employer, descriptions, policy, lex.fold(own));
      assert false;
    }
    assert own in Kept(lex, Blocks(d), drop);
  }

  /** Where every posting says something of its own, a second pass is idle exactly when each
      naming block the first pass leaves is carried by fewer postings than a pattern takes. */
  lemma PassIsIdleIffFewCarry(lex: Lexicon, employer: string, descriptions: seq<string>, policy: Policy)
    requires Acceptable(policy)
    requires forall i :: 0 <= i < |descriptions| ==> HasOwnWords(lex, employer, descriptions[i])
    ensures var once := Pass(lex, employer, descriptions, policy);
            Pass(lex, employer, once, policy) == once <==>
            (Applies(lex, employer, descriptions, policy) ==>
               forall b :: b in Naming(lex, employer, descriptions)
                           && b !in StoredBlocks(lex, employer, descriptions, policy) ==>
                 Carrying(lex, descriptions, b) < policy.minimumInHand)
  {
    var drop := StoredBlocks(lex, employer, descriptions, policy);
    var again := FoundAgain(lex, employer, descriptions, policy);
    hide StoredBlocks, FoundAgain, HasOwnWords, Naming, Carrying, InMost, Pass, Wholly, Settles;
    PassIsIdleIff(lex, employer, descriptions, policy);
    FoundAgainIs(lex, employer, descriptions, policy);
    NothingFoundAgainIff(lex, employer, descriptions, policy);
    forall i | 0 <= i < |descriptions| ensures !Wholly(lex, descriptions[i], drop) {
      OwnWordsStay(lex, employer, descriptions, policy, descriptions[i]);
    }
    NoneWholly(lex, descriptions, drop);
    if Applies(lex, employer, descriptions, policy) { NoneIsNotMost(policy, |descriptions|); }
    if again == {} {
      forall i | 0 <= i < |descriptions| ensures Settles(lex, descriptions[i], drop, again) {
        NothingUnsettles(lex, descriptions[i], drop);
      }
    } else {
      SomethingUnsettles(lex, employer, descriptions, policy);
    }
  }

  lemma {:induction false} NoneWholly(lex: Lexicon, descriptions: seq<string>, drop: set<string>)
    requires forall i :: 0 <= i < |descriptions| ==> !Wholly(lex, descriptions[i], drop)
    ensures WhollyRemovable(lex, descriptions, drop) == []
    ensures forall b :: b in drop ==> Left(lex, descriptions, drop, b) == 0
  {
    hide Wholly;
    if descriptions != [] { NoneWholly(lex, descriptions[..|descriptions| - 1], drop); }
  }

  lemma NothingUnsettles(lex: Lexicon, d: string, drop: set<string>)
    requires !Wholly(lex, d, drop)
    ensures Settles(lex, d, drop, {})
  {
  }

  lemma SomethingUnsettles(lex: Lexicon, employer: string, descriptions: seq<string>, policy: Policy)
    requires forall i :: 0 <= i < |descriptions| ==> HasOwnWords(lex, employer, descriptions[i])
    requires FoundAgain(lex, employer, descriptions, policy) != {}
    ensures exists i :: 0 <= i < |descriptions| && !Settles(lex, descriptions[i],
              StoredBlocks(lex, employer, descriptions, policy), FoundAgain(lex, employer, descriptions, policy))
  {
    hide StoredBlocks, FoundAgain, HasOwnWords, Left, WithoutBlocks, FoldedBlocks, Settles;
    var drop := StoredBlocks(lex, employer, descriptions, policy);
    var b :| b in FoundAgain(lex, employer, descriptions, policy);
    FoundIsLeft(lex, employer, descriptions, policy, b);
    var i := WhereLeft(lex, descriptions, drop, b);
    OneUnsettles(lex, employer, descriptions, policy, descriptions[i], b);
  }

  lemma OneUnsettles(
    lex: Lexicon, employer: string, descriptions: seq<string>, policy: Policy, d: string, b: string)
    requires HasOwnWords(lex, employer, d) && b in FoundAgain(lex, employer, descriptions, policy)
    requires b in FoldedBlocks(lex, WithoutBlocks(lex, d, StoredBlocks(lex, employer, descriptions, policy)))
    ensures !Settles(lex, d, StoredBlocks(lex, employer, descriptions, policy),
                     FoundAgain(lex, employer, descriptions, policy))
  {
    hide StoredBlocks, FoundAgain, HasOwnWords, WithoutBlocks, Wholly, BlocksLeft, Untouched;
    var drop := StoredBlocks(lex, employer, descriptions, policy);
    BlocksWithout(lex, d, drop);
    CarriedLeft(lex, d, WithoutBlocks(lex, d, drop), drop, b);
    OwnWordsStay(lex, employer, descriptions, policy, d);
    var block :| block in Blocks(d) && lex.fold(block) == b;
  }

  lemma FoundIsLeft(lex: Lexicon, employer: string, descriptions: seq<string>, policy: Policy, b: string)
    requires b in FoundAgain(lex, employer, descriptions, policy)
    ensures Left(lex, descriptions, StoredBlocks(lex, employer, descriptions, policy), b) > 0
  {
    hide StoredBlocks, Left, Template;
  }

  lemma WhereLeft(lex: Lexicon, descriptions: seq<string>, drop: set<string>, b: string) returns (i: nat)
    requires Left(lex, descriptions, drop, b) > 0
    ensures i < |descriptions| && b in FoldedBlocks(lex, WithoutBlocks(lex, descriptions[i], drop))
  {
    hide Left, WithoutBlocks, FoldedBlocks;
    CarriedAfterPass(lex, descriptions, drop, b);
    var after := Without(lex, descriptions, drop);
    i :| 0 <= i < |after| && b in FoldedBlocks(lex, after[i]);
  }

  // ---------- Every employer's postings ----------

  function Found(lex: Lexicon, postings: seq<Posting>, policy: Policy, employer: string): set<string> {
    StoredBlocks(lex, employer, TextsOf(postings, employer), policy)
  }

  /** One pass over everything stored. */
  function Rewritten(lex: Lexicon, postings: seq<Posting>, policy: Policy): (after: seq<Posting>)
    ensures |after| == |postings|
    ensures forall i :: 0 <= i < |after| ==>
      var drop := Found(lex, postings, policy, postings[i].employer);
      after[i] == Posting(postings[i].employer, WithoutBlocks(lex, postings[i].description, drop))
  {
    seq(|postings|, i requires 0 <= i < |postings| =>
      Posting(postings[i].employer,
              WithoutBlocks(lex, postings[i].description, Found(lex, postings, policy, postings[i].employer))))
  }

  /** A second pass over everything stored changes nothing if and only if every posting
      settles under what is then found for its employer. */
  lemma RewritingIsIdleIff(lex: Lexicon, postings: seq<Posting>, policy: Policy)
    ensures var once := Rewritten(lex, postings, policy);
            Rewritten(lex, once, policy) == once <==>
            forall i :: 0 <= i < |postings| ==>
              var e := postings[i].employer;
              Settles(lex, postings[i].description, Found(lex, postings, policy, e),
                      FoundAgain(lex, e, TextsOf(postings, e), policy))
  {
    hide Found, FoundAgain, WithoutBlocks, Settles, TextsOf;
    var once := Rewritten(lex, postings, policy);
    var twice := Rewritten(lex, once, policy);
    forall i | 0 <= i < |postings|
      ensures var e := postings[i].employer;
        twice[i] == once[i] <==>
        Settles(lex, postings[i].description, Found(lex, postings, policy, e),
                FoundAgain(lex, e, TextsOf(postings, e), policy))
    {
      OneRewrittenTwice(lex, postings, policy, i);
    }
  }

  lemma OneRewrittenTwice(lex: Lexicon, postings: seq<Posting>, policy: Policy, i: nat)
    requires i < |postings|
    ensures var once := Rewritten(lex, postings, policy);
            var e := postings[i].employer;
            Rewritten(lex, once, policy)[i] == once[i] <==>
            Settles(lex, postings[i].description, Found(lex, postings, policy, e),
                    FoundAgain(lex, e, TextsOf(postings, e), policy))
  {
    hide StoredBlocks, FoundAgain, WithoutBlocks, Settles, TextsOf;
    var once, e := Rewritten(lex, postings, policy), postings[i].employer;
    var drop := Found(lex, postings, policy, e);
    var rewrite := (d: string) => WithoutBlocks(lex, d, drop);
    TextsAfter(postings, once, e, rewrite);
    assert Each(TextsOf(postings, e), rewrite) == Without(lex, TextsOf(postings, e), drop);
    FoundAgainIs(lex, e, TextsOf(postings, e), policy);
    SettlesIff(lex, postings[i].description, drop, Found(lex, once, policy, e));
  }

  // ---------- What a pass reports ----------

  /** How many lines `splitlines` gives, blank ones too: a carriage return before a line feed
      is one boundary with it, and nothing follows a last one. */
  function LineCount(text: string): nat {
    if text == "" then 0
    else if |text| > 1 && text[0] == '\r' && text[1] == '\n' then 1 + LineCount(text[2..])
    else if Breaks(text[0]) then 1 + LineCount(text[1..])
    else Max(1, LineCount(text[1..]))
  }

  function TextIn(posting: Posting): string { posting.description }

  /** The postings a pass changed and the lines and characters it took from them. */
  function StoredTotals(before: seq<Posting>, after: seq<Posting>): Removal
    requires |before| == |after|
  {
    Totals(before, after, TextIn, LineCount)
  }

  // ---------- The loops ----------

  method FindStoredBlocks(lex: Lexicon, employer: string, descriptions: seq<string>, policy: Policy)
    returns (removable: set<string>)
    ensures removable == StoredBlocks(lex, employer, descriptions, policy)
  {
    hide Names, InMost, Carrying, CarriedSomewhere;
    if |descriptions| < policy.minimumPostings { return {}; }
    var marker := lex.marker(employer);
    if marker == "" { return {}; }
    var counts := CountBlocks(lex, descriptions);
    var naming := set b | b in counts && Names(marker, b);
    var carrying := Most(naming, b => if b in counts then counts[b] else 0);
    assert naming == Naming(lex, employer, descriptions);
    SameMost(naming, b => if b in counts then counts[b] else 0, b => Carrying(lex, descriptions, b));
    removable := set b | b in naming && Template(policy, counts[b], |descriptions|, carrying);
  }

  method FindEach(lex: Lexicon, texts: map<string, seq<string>>, policy: Policy)
    returns (removable: map<string, set<string>>)
    ensures removable.Keys == texts.Keys
    ensures forall e :: e in texts ==> removable[e] == StoredBlocks(lex, e, texts[e], policy)
  {
    hide StoredBlocks;
    removable := map[];
    var waiting := texts.Keys;
    while waiting != {}
      invariant waiting <= texts.Keys && removable.Keys == texts.Keys - waiting
      invariant forall e :: e in removable ==> removable[e] == StoredBlocks(lex, e, texts[e], policy)
      decreases waiting
    {
      var e :| e in waiting;
      waiting := waiting - {e};
      var found := FindStoredBlocks(lex, e, texts[e], policy);
      removable := removable[e := found];
    }
  }

  /** Group by employer, find each one's blocks, and rewrite what they change. */
  method RewriteStored(lex: Lexicon, postings: seq<Posting>, policy: Policy)
    returns (after: seq<Posting>, removal: Removal)
    ensures after == Rewritten(lex, postings, policy)
    ensures removal == StoredTotals(postings, after)
  {
    var texts := GroupByEmployer(postings);
    var removable := FindEach(lex, texts, policy);
    after, removal := RewriteEach(lex, postings, policy, removable);
  }

  method RewriteEach(lex: Lexicon, postings: seq<Posting>, policy: Policy, removable: map<string, set<string>>)
    returns (after: seq<Posting>, removal: Removal)
    requires forall i :: 0 <= i < |postings| ==>
      && postings[i].employer in removable
      && removable[postings[i].employer] == Found(lex, postings, policy, postings[i].employer)
    ensures after == Rewritten(lex, postings, policy)
    ensures removal == StoredTotals(postings, after)
  {
    hide Found, WithoutBlocks, Rewritten, Totals, LineCount;
    after := [];
    var changed, lines, characters := 0, 0, 0;
    NothingTotalled(postings[..0], after, TextIn, LineCount);
    for n := 0 to |postings|
      invariant |after| == n && forall i :: 0 <= i < n ==> after[i] == Rewritten(lex, postings, policy)[i]
      invariant Removal(changed, lines, characters) == StoredTotals(postings[..n], after)
    {
      var posting := postings[n];
      var stripped := WithoutBlocks(lex, posting.description, removable[posting.employer]);
      OneMoreTotalled(postings[..n], after, posting, Posting(posting.employer, stripped), TextIn, LineCount);
      assert postings[..n] + [posting] == postings[..n + 1];
      after := after + [Posting(posting.employer, stripped)];
      if stripped != posting.description {
        changed := changed + 1;
        lines := lines + LineCount(posting.description) - LineCount(stripped);
        characters := characters + |posting.description| - |stripped|;
      }
    }
    assert postings[..|postings|] == postings;
    removal := Removal(changed, lines, characters);
  }

  // ---------- Five postings a second pass changes ----------

  const DEFAULT := Policy(5, 0.6, 2)

  const ABOUT := "about acme"
  const PAYS := "acme pays"
  const ROLE := "a role"

  const TEMPLATED: seq<string> := [
    Join([ABOUT, PAYS, ROLE]), Join([ABOUT, PAYS, ROLE]), Join([ABOUT, ROLE]), Join([ROLE]), Join([ROLE])]

  /** Lower-case words need no folding but the padding, and the employer is its own marker. */
  predicate FoldsByPadding(lex: Lexicon) {
    && lex.marker("acme") == "acme"
    && forall b :: b in {ABOUT, PAYS, ROLE} ==> lex.fold(b) == " " + b + " "
  }

  function Carries(lex: Lexicon, d: string, b: string): nat {
    if b in FoldedBlocks(lex, d) then 1 else 0
  }

  lemma CarriedByFive(lex: Lexicon, ds: seq<string>, b: string)
    requires |ds| == 5
    ensures Carrying(lex, ds, b)
         == Carries(lex, ds[0], b) + Carries(lex, ds[1], b) + Carries(lex, ds[2], b) + Carries(lex, ds[3], b)
          + Carries(lex, ds[4], b)
  {
    hide FoldedBlocks, Carrying;
    for n := 0 to 5
      invariant Carrying(lex, ds[..n], b)
             == (if n > 0 then Carries(lex, ds[0], b) else 0) + (if n > 1 then Carries(lex, ds[1], b) else 0)
              + (if n > 2 then Carries(lex, ds[2], b) else 0) + (if n > 3 then Carries(lex, ds[3], b) else 0)
              + (if n > 4 then Carries(lex, ds[4], b) else 0)
    {
      CarryingOneMore(lex, ds[..n], ds[n], b);
      assert ds[..n] + [ds[n]] == ds[..n + 1];
    }
    assert ds[..5] == ds;
  }

  lemma TheyAreClean()
    ensures AllClean([ABOUT, PAYS, ROLE]) && AllClean([ABOUT, ROLE]) && AllClean([ROLE])
  {
    assert Clean(ABOUT) && Clean(PAYS) && Clean(ROLE);
  }

  lemma TheyName()
    ensures Names("acme", " " + ABOUT + " ") && Names("acme", " " + PAYS + " ") && !Names("acme", " " + ROLE + " ")
  {
    var about, pays, role := " " + ABOUT + " ", " " + PAYS + " ", " " + ROLE + " ";
    var word := " " + "acme" + " ";
    assert about == " about acme " && pays == " acme pays " && word == " acme ";
    assert word <= about[6..] && word <= pays[0..];
    assert forall k :: 0 <= k < |role| ==> role[k] != 'c';
    assert forall i :: 0 <= i <= |role| && word <= role[i..] ==> role[i + 2] == word[2];
  }

  lemma CarriedText(lex: Lexicon, blocks: seq<string>, b: string)
    requires AllClean(blocks)
    ensures Blocks(Join(blocks)) == blocks
    ensures Carries(lex, Join(blocks), b) == if exists i :: 0 <= i < |blocks| && lex.fold(blocks[i]) == b then 1 else 0
  {
    BlocksOfJoin(blocks);
    hide Join, Blocks, AllClean;
    if i :| 0 <= i < |blocks| && lex.fold(blocks[i]) == b { assert blocks[i] in blocks; }
  }

  lemma CarriedByTemplated(lex: Lexicon, all: string, some: string, own: string, b: string)
    ensures Carrying(lex, [all, all, some, own, own], b)
         == 2 * Carries(lex, all, b) + Carries(lex, some, b) + 2 * Carries(lex, own, b)
  {
    hide Carrying, Carries;
    CarriedByFive(lex, [all, all, some, own, own], b);
  }

  lemma CountsOf(lex: Lexicon, first: string, second: string, own: string, b: string)
    requires AllClean([first, second, own]) && AllClean([first, own]) && AllClean([own])
    requires lex.fold(own) != b
    ensures var all, some := Join([first, second, own]), Join([first, own]);
            Carrying(lex, [all, all, some, Join([own]), Join([own])], b)
            == (if lex.fold(first) == b then 3 else if lex.fold(second) == b then 2 else 0)
  {
    var three, two, one := [first, second, own], [first, own], [own];
    assert three[0] == first && three[1] == second && three[2] == own;
    assert two[0] == first && two[1] == own && one[0] == own;
    hide Join, Carrying, AllClean, Carries;
    CarriedText(lex, three, b);
    CarriedText(lex, two, b);
    CarriedText(lex, one, b);
    CarriedByTemplated(lex, Join(three), Join(two), Join(one), b);
  }

  lemma EachHasTheRole()
    ensures forall i :: 0 <= i < 5 ==> ROLE in Blocks(TEMPLATED[i])
  {
    TheyAreClean();
    hide Join, Blocks, AllClean;
    assert [ABOUT, PAYS] + [ROLE] == [ABOUT, PAYS, ROLE] && [ABOUT] + [ROLE] == [ABOUT, ROLE] && [] + [ROLE] == [ROLE];
    HasLast([ABOUT, PAYS], ROLE);
    HasLast([ABOUT], ROLE);
    HasLast([], ROLE);
  }

  lemma HasLast(blocks: seq<string>, last: string)
    requires AllClean(blocks + [last])
    ensures last in Blocks(Join(blocks + [last]))
  {
    BlocksOfJoin(blocks + [last]);
    assert (blocks + [last])[|blocks|] == last;
  }

  lemma DistinctFolds(lex: Lexicon)
    requires FoldsByPadding(lex)
    ensures lex.fold(ABOUT) != lex.fold(PAYS) && lex.fold(ABOUT) != lex.fold(ROLE) && lex.fold(PAYS) != lex.fold(ROLE)
  {
    assert ABOUT in {ABOUT, PAYS, ROLE} && PAYS in {ABOUT, PAYS, ROLE} && ROLE in {ABOUT, PAYS, ROLE};
    assert |lex.fold(ABOUT)| == 12 && |lex.fold(PAYS)| == 11 && |lex.fold(ROLE)| == 8;
  }

  /** The employer's five postings carry one naming block three times and another twice.
      The first pass takes the first and leaves the second, which two postings still
      carry; by the condition above that is a pattern, so the second pass is not idle. */
  lemma TheStoredRuleIsNotIdempotent(lex: Lexicon)
    requires FoldsByPadding(lex)
    ensures var once := Pass(lex, "acme", TEMPLATED, DEFAULT);
            Pass(lex, "acme", once, DEFAULT) != once
  {
    hide Carrying, Names, StoredBlocks, Blocks, Join, Pass, Naming;
    var about, pays := lex.fold(ABOUT), lex.fold(PAYS);
    TheyName();
    TheyAreClean();
    DistinctFolds(lex);
    CountsOf(lex, ABOUT, PAYS, ROLE, about);
    CountsOf(lex, ABOUT, PAYS, ROLE, pays);
    SecondStays(lex, TEMPLATED, about, pays);
    EachHasTheRole();
    forall i | 0 <= i < 5 ensures HasOwnWords(lex, "acme", TEMPLATED[i]) {
      assert ROLE in Blocks(TEMPLATED[i]);
    }
    PassIsIdleIffFewCarry(lex, "acme", TEMPLATED, DEFAULT);
  }

  lemma SecondStays(lex: Lexicon, descriptions: seq<string>, about: string, pays: string)
    requires |descriptions| == 5 && lex.marker("acme") == "acme" && Names("acme", about) && Names("acme", pays)
    requires Carrying(lex, descriptions, about) == 3 && Carrying(lex, descriptions, pays) == 2
    ensures pays in Naming(lex, "acme", descriptions)
    ensures pays !in StoredBlocks(lex, "acme", descriptions, DEFAULT)
  {
    hide Carrying, Names;
    CarriedIsCounted(lex, descriptions, about);
    CarriedIsCounted(lex, descriptions, pays);
    hide CarriedSomewhere;
    var naming := Naming(lex, "acme", descriptions);
    assert about in naming && pays in naming;
    MostIsAtLeast(lex, descriptions, naming, about);
    TwoOfFiveIsNoTemplate(MostCarried(lex, descriptions, naming));
  }

  lemma MostIsAtLeast(lex: Lexicon, descriptions: seq<string>, blocks: set<string>, b: string)
    requires b in blocks
    ensures MostCarried(lex, descriptions, blocks) >= Carrying(lex, descriptions, b)
  {
    hide Carrying;
    var count := (b: string) => Carrying(lex, descriptions, b);
    assert count(b) <= Most(blocks, count);
  }

  lemma TwoOfFiveIsNoTemplate(carrying: nat)
    requires carrying >= 3
    ensures !Template(DEFAULT, 2, 5, carrying)
  {
    assert NEARLY_ALL * carrying as real >= 2.7;
  }
}
