/** What a boilerplate pass keeps, what it counts, and when a second pass is idle. */
module BoilerplateLaws {
  import opened Extremes
  import opened Catalogue
  import opened Paragraphs
  import opened Boilerplate

  function Wholly(lex: Lexicon, description: string, removable: set<string>): bool {
    Kept(lex, Blocks(description), removable) == []
  }

  /** What is left of a posting's paragraphs: the kept ones, or all where none would be. */
  function BlocksLeft(lex: Lexicon, description: string, drop: set<string>): (blocks: seq<string>)
    ensures AllClean(blocks)
  {
    if Wholly(lex, description, drop) then Blocks(description) else Kept(lex, Blocks(description), drop)
  }

  lemma BlocksWithout(lex: Lexicon, description: string, drop: set<string>)
    ensures Blocks(WithoutBlocks(lex, description, drop)) == BlocksLeft(lex, description, drop)
  {
    var kept := Kept(lex, Blocks(description), drop);
    if kept != [] { BlocksOfJoin(kept); }
  }

  lemma BlocksAfterStrip(lex: Lexicon, description: string, drop: set<string>)
    ensures Blocks(StripDescription(lex, description, drop)) == BlocksLeft(lex, description, drop)
  {
    BlocksWithout(lex, description, drop);
    if drop == {} { NothingDropped(lex, Blocks(description), drop); }
  }

  lemma {:induction false} NothingDropped(lex: Lexicon, blocks: seq<string>, drop: set<string>)
    requires AllClean(blocks) && forall b :: b in blocks ==> lex.fold(b) !in drop
    ensures Kept(lex, blocks, drop) == blocks
  {
    if blocks != [] { NothingDropped(lex, blocks[1..], drop); }
  }

  /** A pass keeps every posting, its place and everything but its text; the text's
      paragraphs are the original ones minus the removable ones, unless nothing would
      be left. */
  lemma StripKeepsOrderAndIdentity(
    lex: Lexicon, jobs: seq<Record>, policy: Policy, stored: map<string, nat>, i: nat)
    requires i < |jobs|
    ensures var out := Strip(lex, jobs, policy, stored);
            var drop := Removable(lex, jobs, policy, stored, Employer(lex, jobs[i]));
            && |out| == |jobs|
            && out[i] == jobs[i].(fields := jobs[i].fields.(description := out[i].fields.description))
            && Blocks(out[i].fields.description)
               == (if Wholly(lex, jobs[i].fields.description, drop) then Blocks(jobs[i].fields.description)
                   else Kept(lex, Blocks(jobs[i].fields.description), drop))
  {
    hide Removable;
    BlocksAfterStrip(lex, jobs[i].fields.description, Removable(lex, jobs, policy, stored, Employer(lex, jobs[i])));
  }

  // ---------- The totals ----------

  function Droppable(lex: Lexicon, blocks: seq<string>, drop: set<string>): nat {
    if blocks == [] then 0
    else (if lex.fold(blocks[0]) in drop then 1 else 0) + Droppable(lex, blocks[1..], drop)
  }

  lemma {:induction false} KeptOrDropped(lex: Lexicon, blocks: seq<string>, drop: set<string>)
    requires AllClean(blocks)
    ensures |Kept(lex, blocks, drop)| + Droppable(lex, blocks, drop) == |blocks|
  {
    if blocks != [] { KeptOrDropped(lex, blocks[1..], drop); }
  }

  /** The removable paragraphs of the first `n` postings, none counted where they are all. */
  function RemovedBlocks(
    lex: Lexicon, jobs: seq<Record>, policy: Policy, stored: map<string, nat>, n: nat): nat
    requires n <= |jobs|
  {
    if n == 0 then 0
    else
      var d := jobs[n - 1].fields.description;
      var drop := Removable(lex, jobs, policy, stored, Employer(lex, jobs[n - 1]));
      RemovedBlocks(lex, jobs, policy, stored, n - 1)
      + if Wholly(lex, d, drop) then 0 else Droppable(lex, Blocks(d), drop)
  }

  predicate StrippedAt(
    lex: Lexicon, jobs: seq<Record>, policy: Policy, stored: map<string, nat>, out: seq<Record>, i: nat)
    requires i < |jobs| == |out|
  {
    out[i].fields.description
    == StripDescription(lex, jobs[i].fields.description, Removable(lex, jobs, policy, stored, Employer(lex, jobs[i])))
  }

  lemma TotalsStep(
    lex: Lexicon, jobs: seq<Record>, policy: Policy, stored: map<string, nat>, out: seq<Record>, n: nat)
    requires n < |jobs| == |out| && StrippedAt(lex, jobs, policy, stored, out, n)
    ensures var less, more := RemovalBetween(jobs[..n], out[..n]), RemovalBetween(jobs[..n + 1], out[..n + 1]);
            && more.blocks - less.blocks
               == RemovedBlocks(lex, jobs, policy, stored, n + 1) - RemovedBlocks(lex, jobs, policy, stored, n)
            && more.characters >= less.characters
  {
    hide Removable, StripDescription, RemovalBetween, Blocks, Wholly, Droppable;
    RemovalOneMore(jobs, out, n);
    RemovedFromOne(lex, jobs[n].fields.description, Removable(lex, jobs, policy, stored, Employer(lex, jobs[n])));
  }

  lemma NothingRemovedYet(
    lex: Lexicon, jobs: seq<Record>, policy: Policy, stored: map<string, nat>, none: seq<Record>, out: seq<Record>)
    requires none == out == []
    ensures RemovalBetween(none, out) == Removal(0, 0, 0) && RemovedBlocks(lex, jobs, policy, stored, 0) == 0
  {
  }

  lemma {:induction false} TotalsOver(
    lex: Lexicon, jobs: seq<Record>, policy: Policy, stored: map<string, nat>, out: seq<Record>, n: nat)
    requires n <= |jobs| == |out|
    requires forall i :: 0 <= i < |jobs| ==> StrippedAt(lex, jobs, policy, stored, out, i)
    ensures RemovalBetween(jobs[..n], out[..n]).blocks == RemovedBlocks(lex, jobs, policy, stored, n)
    ensures RemovalBetween(jobs[..n], out[..n]).characters >= 0
  {
    hide StrippedAt, RemovalBetween, RemovedBlocks;
    if n == 0 {
      NothingRemovedYet(lex, jobs, policy, stored, jobs[..0], out[..0]);
    } else {
      TotalsOver(lex, jobs, policy, stored, out, n - 1);
      TotalsStep(lex, jobs, policy, stored, out, n - 1);
    }
  }

  /** The reported block count is the number of removable paragraphs taken out, and a
      pass never lengthens the text. */
  lemma TotalsAreWhatWasRemoved(lex: Lexicon, jobs: seq<Record>, policy: Policy, stored: map<string, nat>)
    ensures var removal := RemovalBetween(jobs, Strip(lex, jobs, policy, stored));
            && removal.blocks == RemovedBlocks(lex, jobs, policy, stored, |jobs|)
            && removal.characters >= 0
  {
    var out := Strip(lex, jobs, policy, stored);
    hide Removable, StripDescription, RemovalBetween;
    TotalsOver(lex, jobs, policy, stored, out, |jobs|);
    assert jobs[..|jobs|] == jobs && out[..|jobs|] == out;
  }

  lemma RemovalOneMore(before: seq<Record>, after: seq<Record>, n: nat)
    requires |before| == |after| && n < |before|
    ensures var a, b := before[n].fields.description, after[n].fields.description;
            var less, more := RemovalBetween(before[..n], after[..n]), RemovalBetween(before[..n + 1], after[..n + 1]);
            && more.blocks == less.blocks + (if a == b then 0 else |Blocks(a)| - |Blocks(b)|)
            && more.characters == less.characters + |a| - |b|
  {
    hide Blocks, Totals;
    assert before[..n + 1] == before[..n] + [before[n]] && after[..n + 1] == after[..n] + [after[n]];
    OneMoreTotalled(before[..n], after[..n], before[n], after[n], Says, BlockCount);
  }

  lemma RemovedFromOne(lex: Lexicon, d: string, drop: set<string>)
    ensures |StripDescription(lex, d, drop)| <= |d|
    ensures |Blocks(d)| - |Blocks(StripDescription(lex, d, drop))|
         == if Wholly(lex, d, drop) then 0 else Droppable(lex, Blocks(d), drop)
  {
    BlocksAfterStrip(lex, d, drop);
    KeptOrDropped(lex, Blocks(d), drop);
    StripShortens(lex, d, drop);
  }

  /** Each line with its separator. */
  function Extent(lines: seq<string>): nat {
    if lines == [] then 0 else |lines[0]| + 1 + Extent(lines[1..])
  }

  lemma {:induction false} ExtentOfLines(text: string)
    ensures Extent(Lines(text)) == |text| + 1
  {
    if text == [] {
      assert Extent([[]]) == 1 + Extent([[]][1..]);
    } else {
      ExtentOfLines(text[1..]);
      var rest := Lines(text[1..]);
      assert ([[]] + rest)[1..] == rest;
      assert ([[text[0]] + rest[0]] + rest[1..])[1..] == rest[1..];
    }
  }

  lemma {:induction false} ParagraphsShorten(lines: seq<string>)
    requires forall i :: 0 <= i < |lines| ==> forall c :: c in lines[i] ==> !Breaks(c)
    ensures Extent(ParagraphsOf(lines)) <= Extent(lines)
  {
    if lines != [] {
      ParagraphsShorten(lines[1..]);
      TrimShortens(lines[0]);
      var head := Paragraph(lines[0]);
      if head == [] { assert ParagraphsOf(lines) == ParagraphsOf(lines[1..]); }
      else { assert (head + ParagraphsOf(lines[1..]))[1..] == ParagraphsOf(lines[1..]); }
    }
  }

  lemma {:induction false} TrimLeftShortens(s: string)
    ensures |TrimLeft(s)| <= |s|
  {
    if s != [] && Blank(s[0]) { TrimLeftShortens(s[1..]); }
  }

  lemma TrimShortens(s: string)
    ensures |Trim(s)| <= |s|
  {
    TrimLeftShortens(s);
  }

  lemma {:induction false} KeptIsShorter(lex: Lexicon, blocks: seq<string>, drop: set<string>)
    requires AllClean(blocks)
    ensures Extent(Kept(lex, blocks, drop)) <= Extent(blocks)
  {
    if blocks != [] {
      KeptIsShorter(lex, blocks[1..], drop);
      if lex.fold(blocks[0]) !in drop {
        assert ([blocks[0]] + Kept(lex, blocks[1..], drop))[1..] == Kept(lex, blocks[1..], drop);
      } else {
        assert Kept(lex, blocks, drop) == Kept(lex, blocks[1..], drop);
      }
    }
  }

  lemma {:induction false} ExtentOfJoin(blocks: seq<string>)
    requires blocks != []
    ensures Extent(blocks) == |Join(blocks)| + 1
  {
    if |blocks| > 1 { ExtentOfJoin(blocks[1..]); }
    else { assert blocks[1..] == []; }
  }

  lemma StripShortens(lex: Lexicon, d: string, drop: set<string>)
    ensures |StripDescription(lex, d, drop)| <= |d|
  {
    var kept := Kept(lex, Blocks(d), drop);
    ExtentOfLines(d);
    ParagraphsShorten(Lines(d));
    KeptIsShorter(lex, Blocks(d), drop);
    if kept != [] { ExtentOfJoin(kept); }
  }

  // ---------- A second pass ----------

  /** The descriptions a pass leaves. */
  function After(lex: Lexicon, descriptions: seq<string>, drop: set<string>): (after: seq<string>)
    ensures |after| == |descriptions|
    ensures forall i :: 0 <= i < |after| ==> after[i] == StripDescription(lex, descriptions[i], drop)
  {
    Each(descriptions, d => StripDescription(lex, d, drop))
  }

  function Each(texts: seq<string>, rewrite: string -> string): (rewritten: seq<string>)
    ensures |rewritten| == |texts|
    ensures forall i :: 0 <= i < |texts| ==> rewritten[i] == rewrite(texts[i])
  {
    seq(|texts|, i requires 0 <= i < |texts| => rewrite(texts[i]))
  }

  /** Rewriting an employer's postings where they stand rewrites its texts. */
  lemma {:induction false} TextsAfter(
    before: seq<Posting>, after: seq<Posting>, employer: string, rewrite: string -> string)
    requires |after| == |before|
    requires forall i :: 0 <= i < |after| ==>
      && after[i].employer == before[i].employer
      && (before[i].employer == employer ==> after[i].description == rewrite(before[i].description))
    ensures TextsOf(after, employer) == Each(TextsOf(before, employer), rewrite)
  {
    if before != [] {
      var last := |before| - 1;
      TextsAfter(before[..last], after[..last], employer, rewrite);
    }
  }

  /** The descriptions made of nothing but removable paragraphs, which a pass leaves alone. */
  function WhollyRemovable(lex: Lexicon, descriptions: seq<string>, drop: set<string>): seq<string> {
    if descriptions == [] then []
    else
      var last := |descriptions| - 1;
      WhollyRemovable(lex, descriptions[..last], drop)
      + if Wholly(lex, descriptions[last], drop) then [descriptions[last]] else []
  }

  /** The removable blocks that postings made of nothing else carry often enough, on
      their own, to be removable again. */
  function StillRemovable(
    lex: Lexicon, descriptions: seq<string>, drop: set<string>, policy: Policy): set<string>
  {
    set b | b in drop
            && InMost(policy, Carrying(lex, WhollyRemovable(lex, descriptions, drop), b), |descriptions|)
  }

  /** How many postings still carry a block, told from what they said before: a removable
      one only where a posting says nothing else, any other one everywhere. */
  function Left(lex: Lexicon, descriptions: seq<string>, drop: set<string>, b: string): nat {
    if b in drop then Carrying(lex, WhollyRemovable(lex, descriptions, drop), b) else Carrying(lex, descriptions, b)
  }

  /** The second list is what is left of the first. */
  predicate IsLeft(lex: Lexicon, before: seq<string>, after: seq<string>, drop: set<string>) {
    |after| == |before| && forall i :: 0 <= i < |before| ==> Blocks(after[i]) == BlocksLeft(lex, before[i], drop)
  }

  lemma CarriedLeft(lex: Lexicon, d: string, after: string, drop: set<string>, b: string)
    requires Blocks(after) == BlocksLeft(lex, d, drop)
    ensures b in FoldedBlocks(lex, after) <==> b in FoldedBlocks(lex, d) && (b !in drop || Wholly(lex, d, drop))
  {
    if b in FoldedBlocks(lex, d) && b !in drop {
      var block :| block in Blocks(d) && lex.fold(block) == b;
      assert block in Kept(lex, Blocks(d), drop);
      assert block in Blocks(after);
    }
    if b in FoldedBlocks(lex, after) {
      var block :| block in Blocks(after) && lex.fold(block) == b;
      assert block in Blocks(d);
    }
  }

  /** What is left of some postings carries a block as often as it is left in them. */
  lemma {:induction false} LeftIsCarried(
    lex: Lexicon, before: seq<string>, after: seq<string>, drop: set<string>, b: string)
    requires IsLeft(lex, before, after, drop)
    ensures Carrying(lex, after, b) == Left(lex, before, drop, b) <= Carrying(lex, before, b)
  {
    hide FoldedBlocks, Wholly, Carrying, Left, BlocksLeft, IsLeft, Blocks;
    if before == [] {
      NothingIsLeft(lex, before, after, drop, b);
    } else {
      var last := |before| - 1;
      AllButTheLast(lex, before, after, drop);
      LeftIsCarried(lex, before[..last], after[..last], drop, b);
      OneMoreLeft(lex, before[..last], after[..last], before[last], after[last], drop, b);
      assert before[..last] + [before[last]] == before && after[..last] + [after[last]] == after;
    }
  }

  lemma NothingIsLeft(lex: Lexicon, before: seq<string>, after: seq<string>, drop: set<string>, b: string)
    requires before == [] && IsLeft(lex, before, after, drop)
    ensures Carrying(lex, after, b) == Left(lex, before, drop, b) == Carrying(lex, before, b)
  {
  }

  lemma AllButTheLast(lex: Lexicon, before: seq<string>, after: seq<string>, drop: set<string>)
    requires IsLeft(lex, before, after, drop) && before != []
    ensures |after| == |before|
    ensures IsLeft(lex, before[..|before| - 1], after[..|before| - 1], drop)
    ensures Blocks(after[|before| - 1]) == BlocksLeft(lex, before[|before| - 1], drop)
  {
    hide Blocks, BlocksLeft;
  }

  lemma OneMoreLeft(
    lex: Lexicon, before: seq<string>, after: seq<string>, d: string, e: string, drop: set<string>, b: string)
    requires Blocks(e) == BlocksLeft(lex, d, drop)
    requires Carrying(lex, after, b) == Left(lex, before, drop, b) <= Carrying(lex, before, b)
    ensures Carrying(lex, after + [e], b) == Left(lex, before + [d], drop, b) <= Carrying(lex, before + [d], b)
  {
    hide FoldedBlocks, Wholly, Carrying, BlocksLeft, Blocks;
    CarriedLeft(lex, d, e, drop, b);
    CarryingOneMore(lex, after, e, b);
    CarryingOneMore(lex, before, d, b);
    WhollyOneMore(lex, before, d, drop);
    var whole := WhollyRemovable(lex, before, drop);
    CarryingOneMore(lex, whole, d, b);
    assert whole + [] == whole;
  }

  lemma WhollyOneMore(lex: Lexicon, descriptions: seq<string>, d: string, drop: set<string>)
    ensures WhollyRemovable(lex, descriptions + [d], drop)
         == WhollyRemovable(lex, descriptions, drop) + if Wholly(lex, d, drop) then [d] else []
  {
    hide Wholly;
    assert (descriptions + [d])[..|descriptions|] == descriptions;
  }

  lemma AfterIsLeft(lex: Lexicon, descriptions: seq<string>, drop: set<string>)
    ensures IsLeft(lex, descriptions, After(lex, descriptions, drop), drop)
  {
    hide StripDescription, BlocksLeft, Blocks;
    forall i | 0 <= i < |descriptions| { BlocksAfterStrip(lex, descriptions[i], drop); }
  }

  /** What a second pass would remove, told from the first pass's input. */
  lemma RemovableAgain(
    lex: Lexicon, employer: string, descriptions: seq<string>, policy: Policy, known: nat)
    requires Acceptable(policy)
    ensures var drop := SelfDescribing(lex, employer, descriptions, policy, known);
            SelfDescribing(lex, employer, After(lex, descriptions, drop), policy, known)
            == StillRemovable(lex, descriptions, drop, policy)
  {
    hide Names, Carrying, CarriedSomewhere, WhollyRemovable, After, InMost, IsLeft;
    var drop := SelfDescribing(lex, employer, descriptions, policy, known);
    var after := After(lex, descriptions, drop);
    var again := SelfDescribing(lex, employer, after, policy, known);
    AfterIsLeft(lex, descriptions, drop);
    forall b ensures b in again <==> b in StillRemovable(lex, descriptions, drop, policy) {
      LeftIsCarried(lex, descriptions, after, drop, b);
      if b in again {
        MostIsSome(lex, after, policy, b);
        MoreIsMost(policy, Carrying(lex, after, b), Carrying(lex, descriptions, b), |descriptions|);
        MostIsSome(lex, descriptions, policy, b);
      } else if b in StillRemovable(lex, descriptions, drop, policy) {
        MostIsSome(lex, after, policy, b);
      }
    }
  }

  lemma MoreIsMost(policy: Policy, a: nat, b: nat, n: nat)
    requires a <= b && InMost(policy, a, n)
    ensures InMost(policy, b, n)
  {
  }

  lemma MostIsSome(lex: Lexicon, descriptions: seq<string>, policy: Policy, b: string)
    requires Acceptable(policy) && |descriptions| > 0
    requires InMost(policy, Carrying(lex, descriptions, b), |descriptions|)
    ensures b in CarriedSomewhere(lex, descriptions)
  {
    assert policy.minimumShare * |descriptions| as real > 0.0;
    NotCarriedIsZero(lex, descriptions, b);
  }

  /** A posting a second pass would leave alone, told from the first pass's input. */
  predicate Rests(lex: Lexicon, d: string, drop: set<string>, still: set<string>) {
    Wholly(lex, d, drop) && Blocks(d) != [] && still != {} ==>
      || (forall b :: b in Blocks(d) ==> lex.fold(b) in still)
      || ((forall b :: b in Blocks(d) ==> lex.fold(b) !in still) && Join(Blocks(d)) == d)
  }

  lemma {:induction false} NothingKept(lex: Lexicon, blocks: seq<string>, drop: set<string>)
    requires AllClean(blocks)
    ensures Kept(lex, blocks, drop) == [] <==> forall b :: b in blocks ==> lex.fold(b) in drop
  {
    if blocks != [] {
      NothingKept(lex, blocks[1..], drop);
      assert blocks[0] in blocks && forall b :: b in blocks[1..] ==> b in blocks;
      assert forall b :: b in blocks ==> b == blocks[0] || b in blocks[1..];
    }
  }

  lemma SecondPassOverOne(lex: Lexicon, d: string, drop: set<string>, still: set<string>)
    requires still <= drop
    ensures var once := StripDescription(lex, d, drop);
            StripDescription(lex, once, still) == once <==> Rests(lex, d, drop, still)
  {
    var once := StripDescription(lex, d, drop);
    BlocksAfterStrip(lex, d, drop);
    if still != {} && !Wholly(lex, d, drop) {
      var kept := Kept(lex, Blocks(d), drop);
      NothingDropped(lex, kept, still);
    } else if still != {} {
      assert once == d;
      var kept := Kept(lex, Blocks(d), still);
      NothingKept(lex, Blocks(d), still);
      if kept != [] {
        BlocksOfJoin(kept);
        if forall b :: b in Blocks(d) ==> lex.fold(b) !in still { NothingDropped(lex, Blocks(d), still); }
      }
    }
  }

  lemma DescriptionsAfter(lex: Lexicon, jobs: seq<Record>, out: seq<Record>, employer: string, drop: set<string>)
    requires |out| == |jobs|
    requires forall i :: 0 <= i < |jobs| ==>
               Employer(lex, out[i]) == Employer(lex, jobs[i])
               && (Employer(lex, jobs[i]) == employer ==> out[i] == StripOne(lex, jobs[i], drop))
    ensures DescriptionsOf(lex, out, employer) == After(lex, DescriptionsOf(lex, jobs, employer), drop)
  {
    hide StripDescription, TextsOf;
    var strip := (d: string) => StripDescription(lex, d, drop);
    TextsAfter(PostingsOf(lex, jobs), PostingsOf(lex, out), employer, strip);
    assert Each(DescriptionsOf(lex, jobs, employer), strip) == After(lex, DescriptionsOf(lex, jobs, employer), drop);
  }

  function Known(lex: Lexicon, jobs: seq<Record>, stored: map<string, nat>, employer: string): nat {
    Max(|DescriptionsOf(lex, jobs, employer)|, if employer in stored then stored[employer] else 0)
  }

  lemma RemovableInSecondPass(
    lex: Lexicon, jobs: seq<Record>, policy: Policy, stored: map<string, nat>, employer: string)
    requires Acceptable(policy)
    ensures var drop := Removable(lex, jobs, policy, stored, employer);
            Removable(lex, Strip(lex, jobs, policy, stored), policy, stored, employer)
            == StillRemovable(lex, DescriptionsOf(lex, jobs, employer), drop, policy)
  {
    hide SelfDescribing, StillRemovable, StripDescription;
    var drop := Removable(lex, jobs, policy, stored, employer);
    var out := Strip(lex, jobs, policy, stored);
    DescriptionsAfter(lex, jobs, out, employer, drop);
    RemovableAgain(lex, employer, DescriptionsOf(lex, jobs, employer), policy, Known(lex, jobs, stored, employer));
  }

  /** A second pass over a run's postings changes nothing if and only if every posting
      made of nothing but removable paragraphs rests. */
  lemma SecondPassIsIdleIff(lex: Lexicon, jobs: seq<Record>, policy: Policy, stored: map<string, nat>)
    requires Acceptable(policy)
    ensures var once := Strip(lex, jobs, policy, stored);
            Strip(lex, once, policy, stored) == once <==>
            forall i :: 0 <= i < |jobs| ==>
              var e := Employer(lex, jobs[i]);
              var drop := Removable(lex, jobs, policy, stored, e);
              Rests(lex, jobs[i].fields.description, drop,
                    StillRemovable(lex, DescriptionsOf(lex, jobs, e), drop, policy))
  {
    hide Removable, StillRemovable, Rests, StripDescription;
    var once := Strip(lex, jobs, policy, stored);
    var twice := Strip(lex, once, policy, stored);
    forall i | 0 <= i < |jobs|
      ensures var e := Employer(lex, jobs[i]);
              var drop := Removable(lex, jobs, policy, stored, e);
              twice[i] == once[i] <==>
              Rests(lex, jobs[i].fields.description, drop,
                    StillRemovable(lex, DescriptionsOf(lex, jobs, e), drop, policy))
    {
      var e := Employer(lex, jobs[i]);
      var drop := Removable(lex, jobs, policy, stored, e);
      RemovableInSecondPass(lex, jobs, policy, stored, e);
      var still := StillRemovable(lex, DescriptionsOf(lex, jobs, e), drop, policy);
      StillIsRemovable(lex, DescriptionsOf(lex, jobs, e), drop, policy);
      assert Employer(lex, once[i]) == e;
      SecondPassOverOne(lex, jobs[i].fields.description, drop, still);
    }
  }

  lemma StillIsRemovable(lex: Lexicon, descriptions: seq<string>, drop: set<string>, policy: Policy)
    ensures StillRemovable(lex, descriptions, drop, policy) <= drop
  {
  }

  /** In particular when no posting is reduced to nothing. */
  lemma SecondPassIsIdle(lex: Lexicon, jobs: seq<Record>, policy: Policy, stored: map<string, nat>)
    requires Acceptable(policy)
    requires forall i :: 0 <= i < |jobs| && Blocks(jobs[i].fields.description) != [] ==>
               !Wholly(lex, jobs[i].fields.description, Removable(lex, jobs, policy, stored, Employer(lex, jobs[i])))
    ensures var once := Strip(lex, jobs, policy, stored);
            && Strip(lex, once, policy, stored) == once
            && RemovalBetween(once, Strip(lex, once, policy, stored)) == Removal(0, 0, 0)
  {
    hide Removable, StillRemovable, Wholly, Strip;
    SecondPassIsIdleIff(lex, jobs, policy, stored);
    NoRemoval(Strip(lex, jobs, policy, stored));
  }

  lemma {:induction false} NoRemoval(jobs: seq<Record>)
    ensures RemovalBetween(jobs, jobs) == Removal(0, 0, 0)
  {
    if jobs != [] { NoRemoval(jobs[..|jobs| - 1]); }
  }
}
