/** Which paragraphs a boilerplate pass takes from an employer's postings, by counting the
    postings that carry them. */
module BoilerplateEffects {
  import opened Extremes
  import opened Catalogue
  import opened Texts
  import opened Paragraphs
  import opened Boilerplate
  import opened StoredBoilerplate

  /** Some paragraph of the text reads as this one does. */
  predicate Carries(lex: Lexicon, description: string, b: string) {
    exists block :: block in Blocks(description) && lex.fold(block) == b
  }

  /** So many are the stated share of so many. */
  predicate IsTheShare(policy: Policy, some: nat, all: nat) {
    some as real >= policy.minimumShare * all as real
  }

  lemma MostIsTheShare(policy: Policy, some: nat, all: nat)
    ensures InMost(policy, some, all) <==> IsTheShare(policy, some, all)
  {
  }

  /** The employer's word stands in it, between blanks. */
  ghost predicate NamedIn(lex: Lexicon, employer: string, b: string) {
    exists before, after :: b == before + (" " + lex.marker(employer) + " ") + after
  }

  function Mine(postings: seq<Posting>, employer: string): set<int> {
    set i | 0 <= i < |postings| && postings[i].employer == employer
  }

  function Carriers(lex: Lexicon, postings: seq<Posting>, employer: string, b: string): set<int> {
    set i | 0 <= i < |postings| && postings[i].employer == employer && Carries(lex, postings[i].description, b)
  }

  // ---------- Counting ----------

  lemma {:induction false} TextsAreMine(lex: Lexicon, postings: seq<Posting>, employer: string, b: string)
    ensures |TextsOf(postings, employer)| == |Mine(postings, employer)|
    ensures Carrying(lex, TextsOf(postings, employer), b) == |Carriers(lex, postings, employer, b)|
  {
    hide *;
    if postings == [] {
      NobodyYet(lex, employer, b);
    } else {
      var last := |postings| - 1;
      var before, p := postings[..last], postings[last];
      TextsAreMine(lex, before, employer, b);
      assert before + [p] == postings;
      CarriesIsFolded(lex, p.description, b);
      TextsOneMore(lex, before, p, employer, b);
      MineOneMore(before, p, employer);
      CarriersOneMore(lex, before, p, employer, b);
    }
  }

  lemma NobodyYet(lex: Lexicon, employer: string, b: string)
    ensures |TextsOf([], employer)| == |Mine([], employer)|
    ensures Carrying(lex, TextsOf([], employer), b) == |Carriers(lex, [], employer, b)|
  {
    assert Mine([], employer) == {} && Carriers(lex, [], employer, b) == {};
  }

  lemma TextsOneMore(lex: Lexicon, before: seq<Posting>, p: Posting, employer: string, b: string)
    ensures var texts, more := TextsOf(before, employer), TextsOf(before + [p], employer);
      if p.employer == employer then
        && |more| == |texts| + 1
        && Carrying(lex, more, b) == Carrying(lex, texts, b) + if b in FoldedBlocks(lex, p.description) then 1 else 0
      else more == texts
  {
    hide Carrying, FoldedBlocks;
    assert (before + [p])[..|before|] == before;
    CarryingOneMore(lex, TextsOf(before, employer), p.description, b);
    assert TextsOf(before, employer) + [] == TextsOf(before, employer);
  }

  lemma MineOneMore(before: seq<Posting>, p: Posting, employer: string)
    ensures |Mine(before + [p], employer)| == |Mine(before, employer)| + if p.employer == employer then 1 else 0
  {
    var n, more := |before|, before + [p];
    assert more[n] == p && forall i :: 0 <= i < n ==> more[i] == before[i];
    OneIndexMore(n, Mine(before, employer), Mine(more, employer), p.employer == employer);
  }

  lemma CarriersOneMore(lex: Lexicon, before: seq<Posting>, p: Posting, employer: string, b: string)
    ensures |Carriers(lex, before + [p], employer, b)| == |Carriers(lex, before, employer, b)|
      + if p.employer == employer && Carries(lex, p.description, b) then 1 else 0
  {
    hide Carries;
    var n, more := |before|, before + [p];
    assert more[n] == p && forall i :: 0 <= i < n ==> more[i] == before[i];
    OneIndexMore(n, Carriers(lex, before, employer, b), Carriers(lex, more, employer, b),
                 p.employer == employer && Carries(lex, p.description, b));
  }

  lemma OneIndexMore(n: int, before: set<int>, more: set<int>, here: bool)
    requires n !in before
    requires forall i :: i in more <==> i in before || (i == n && here)
    ensures |more| == |before| + if here then 1 else 0
  {
    var grown := if here then before + {n} else before;
    forall i ensures i in more <==> i in grown {
    }
    assert more == grown;
  }

  lemma CarriesIsFolded(lex: Lexicon, d: string, b: string)
    ensures b in FoldedBlocks(lex, d) <==> Carries(lex, d, b)
  {
  }

  lemma {:induction false} SomewhereIsSomeone(lex: Lexicon, postings: seq<Posting>, employer: string, b: string)
    ensures b in CarriedSomewhere(lex, TextsOf(postings, employer)) <==> Carriers(lex, postings, employer, b) != {}
  {
    hide Carries, FoldedBlocks;
    var texts := TextsOf(postings, employer);
    TextsAreMine(lex, postings, employer, b);
    CarriedIffCounted(lex, texts, b);
  }

  lemma {:induction false} CarriedIffCounted(lex: Lexicon, texts: seq<string>, b: string)
    ensures b in CarriedSomewhere(lex, texts) <==> Carrying(lex, texts, b) > 0
  {
    hide CarriedSomewhere, Carrying, FoldedBlocks;
    if texts == [] {
      NothingCarried(lex, b);
    } else {
      var last := |texts| - 1;
      CarriedIffCounted(lex, texts[..last], b);
      CarriedByOneMore(lex, texts[..last], texts[last]);
      CarryingOneMore(lex, texts[..last], texts[last], b);
      assert texts[..last] + [texts[last]] == texts;
    }
  }

  lemma NothingCarried(lex: Lexicon, b: string)
    ensures b !in CarriedSomewhere(lex, []) && Carrying(lex, [], b) == 0
  {
  }

  lemma NamesIff(lex: Lexicon, employer: string, b: string)
    ensures Names(lex.marker(employer), b) <==> NamedIn(lex, employer, b)
  {
    var word := " " + lex.marker(employer) + " ";
    if Names(lex.marker(employer), b) {
      var i :| 0 <= i <= |b| && word <= b[i..];
      SplitAt(b, i, word);
    }
    if before, after :| b == before + (" " + lex.marker(employer) + " ") + after {
      FoundAt(b, before, word, after);
    }
  }

  lemma SplitAt(b: string, i: nat, word: string)
    requires i <= |b| && word <= b[i..]
    ensures b == b[..i] + word + b[i + |word|..]
  {
  }

  lemma FoundAt(b: string, before: string, word: string, after: string)
    requires b == before + word + after
    ensures |before| <= |b| && word <= b[|before|..]
  {
  }

  // ---------- What a run takes out ----------

  /** A run takes from an employer's postings what reads alike in the stated share of those it
      has in hand and names the employer, given enough of them in hand and enough of them here
      or in the catalogue. */
  lemma RemovableIff(
    lex: Lexicon, jobs: seq<Record>, policy: Policy, stored: map<string, nat>, employer: string, b: string)
    ensures var postings := PostingsOf(lex, jobs);
      var mine, carriers := |Mine(postings, employer)|, |Carriers(lex, postings, employer, b)|;
      b in Removable(lex, jobs, policy, stored, employer) <==>
        && mine >= policy.minimumInHand
        && (mine >= policy.minimumPostings || (employer in stored && stored[employer] >= policy.minimumPostings))
        && lex.marker(employer) != "" && NamedIn(lex, employer, b)
        && carriers > 0 && IsTheShare(policy, carriers, mine)
  {
    var postings := PostingsOf(lex, jobs);
    TextsAreMine(lex, postings, employer, b);
    SomewhereIsSomeone(lex, postings, employer, b);
    SomeoneCounts(Carriers(lex, postings, employer, b));
    NamesIff(lex, employer, b);
    RemovableBy(lex, jobs, policy, stored, employer, b);
    hide *;
  }

  lemma RemovableBy(
    lex: Lexicon, jobs: seq<Record>, policy: Policy, stored: map<string, nat>, employer: string, b: string)
    ensures var descriptions := TextsOf(PostingsOf(lex, jobs), employer);
      b in Removable(lex, jobs, policy, stored, employer) <==>
        && |descriptions| >= policy.minimumInHand
        && (|descriptions| >= policy.minimumPostings
            || (employer in stored && stored[employer] >= policy.minimumPostings))
        && lex.marker(employer) != "" && Names(lex.marker(employer), b)
        && b in CarriedSomewhere(lex, descriptions)
        && IsTheShare(policy, Carrying(lex, descriptions, b), |descriptions|)
  {
    hide Names, CarriedSomewhere, Carrying, TextsOf, PostingsOf, InMost, IsTheShare;
    var descriptions := TextsOf(PostingsOf(lex, jobs), employer);
    MostIsTheShare(policy, Carrying(lex, descriptions, b), |descriptions|);
  }

  lemma SomeoneCounts(those: set<int>)
    ensures those != {} <==> |those| > 0
  {
  }

  // ---------- What the stored rule takes out ----------

  /** The block names the employer, somebody carries it, and nobody's naming block is carried
      by more. */
  ghost predicate Commonest(lex: Lexicon, postings: seq<Posting>, employer: string, c: string) {
    && NamedIn(lex, employer, c) && |Carriers(lex, postings, employer, c)| > 0
    && forall d :: NamedIn(lex, employer, d) ==>
         |Carriers(lex, postings, employer, d)| <= |Carriers(lex, postings, employer, c)|
  }

  /** The stored rule takes what names the employer and is carried by the stated share of all
      its postings, or by nine in ten of as many as carry the commonest such block, if those
      are enough to be a pattern. */
  lemma StoredBlockIff(lex: Lexicon, postings: seq<Posting>, policy: Policy, employer: string, b: string)
    ensures var mine, carriers := |Mine(postings, employer)|, |Carriers(lex, postings, employer, b)|;
      b in StoredBlocks(lex, employer, TextsOf(postings, employer), policy) <==>
        && mine >= policy.minimumPostings && lex.marker(employer) != "" && NamedIn(lex, employer, b) && carriers > 0
        && (IsTheShare(policy, carriers, mine)
            || exists c ::
                 && Commonest(lex, postings, employer, c)
                 && var most := |Carriers(lex, postings, employer, c)|;
                 && most >= policy.minimumInHand && 10.0 * carriers as real >= 9.0 * most as real)
  {
    hide Carriers, Mine, NamedIn, Carrying, TextsOf, Commonest, Naming, MostCarried, InMost, IsTheShare;
    var texts := TextsOf(postings, employer);
    TextsAreMine(lex, postings, employer, b);
    NamingIff(lex, postings, employer, b);
    MostIsTheShare(policy, Carrying(lex, texts, b), |texts|);
    if b in Naming(lex, employer, texts) { MostIsTheCommonest(lex, postings, employer, b); }
  }

  /** What names the employer among its postings, by who carries it. */
  lemma NamingIff(lex: Lexicon, postings: seq<Posting>, employer: string, d: string)
    ensures d in Naming(lex, employer, TextsOf(postings, employer))
       <==> NamedIn(lex, employer, d) && |Carriers(lex, postings, employer, d)| > 0
    ensures Carrying(lex, TextsOf(postings, employer), d) == |Carriers(lex, postings, employer, d)|
  {
    hide Carriers, NamedIn, Names, CarriedSomewhere, Carrying, TextsOf;
    TextsAreMine(lex, postings, employer, d);
    SomewhereIsSomeone(lex, postings, employer, d);
    SomeoneCounts(Carriers(lex, postings, employer, d));
    NamesIff(lex, employer, d);
  }

  lemma MostIsTheCommonest(lex: Lexicon, postings: seq<Posting>, employer: string, b: string)
    requires b in Naming(lex, employer, TextsOf(postings, employer))
    ensures var texts := TextsOf(postings, employer);
      var most := MostCarried(lex, texts, Naming(lex, employer, texts));
      && (exists c :: Commonest(lex, postings, employer, c))
      && forall c :: Commonest(lex, postings, employer, c) ==> |Carriers(lex, postings, employer, c)| == most
  {
    var texts := TextsOf(postings, employer);
    var naming := Naming(lex, employer, texts);
    hide *;
    var top := TheMost(lex, texts, naming, b);
    forall d { NamingIff(lex, postings, employer, d); }
    forall d | NamedIn(lex, employer, d)
      ensures |Carriers(lex, postings, employer, d)| <= |Carriers(lex, postings, employer, top)|
    {
      if d in naming { assert Carrying(lex, texts, d) <= MostCarried(lex, texts, naming); }
    }
    NoneIsCommoner(lex, postings, employer, top);
    forall c | Commonest(lex, postings, employer, c)
      ensures |Carriers(lex, postings, employer, c)| == |Carriers(lex, postings, employer, top)|
    {
      EquallyCommon(lex, postings, employer, c, top);
    }
  }

  lemma TheMost(lex: Lexicon, texts: seq<string>, naming: set<string>, b: string) returns (top: string)
    requires b in naming
    ensures top in naming && Carrying(lex, texts, top) == MostCarried(lex, texts, naming)
    ensures forall d :: d in naming ==> Carrying(lex, texts, d) <= MostCarried(lex, texts, naming)
  {
    top :| top in naming && Carrying(lex, texts, top) == MostCarried(lex, texts, naming);
  }

  lemma NoneIsCommoner(lex: Lexicon, postings: seq<Posting>, employer: string, c: string)
    requires NamedIn(lex, employer, c) && |Carriers(lex, postings, employer, c)| > 0
    requires forall d :: NamedIn(lex, employer, d) ==>
      |Carriers(lex, postings, employer, d)| <= |Carriers(lex, postings, employer, c)|
    ensures Commonest(lex, postings, employer, c)
  {
  }

  lemma EquallyCommon(lex: Lexicon, postings: seq<Posting>, employer: string, c: string, d: string)
    requires Commonest(lex, postings, employer, c) && Commonest(lex, postings, employer, d)
    ensures |Carriers(lex, postings, employer, c)| == |Carriers(lex, postings, employer, d)|
  {
    hide Carriers, NamedIn;
  }

  // ---------- What is reported ----------

  function Sum<T>(xs: seq<T>, size: T -> int): int {
    if xs == [] then 0 else Sum(xs[..|xs| - 1], size) + size(xs[|xs| - 1])
  }

  function Differing<T>(before: seq<T>, after: seq<T>, says: T -> string): set<int> {
    set i | 0 <= i < |before| && i < |after| && says(before[i]) != says(after[i])
  }

  /** The totals balance: the postings counted are those that say something else, and the
      pieces and the characters reported are what is no longer there. */
  lemma {:induction false} TotalsBalance<T>(before: seq<T>, after: seq<T>, says: T -> string, pieces: string -> nat)
    requires |before| == |after|
    ensures var t := Totals(before, after, says, pieces);
      && t.postings == |Differing(before, after, says)|
      && t.blocks + Sum(after, x => pieces(says(x))) == Sum(before, x => pieces(says(x)))
      && t.characters + Sum(after, x => |says(x)|) == Sum(before, x => |says(x)|)
  {
    if before == [] {
      assert Differing(before, after, says) == {};
    } else {
      var last := |before| - 1;
      TotalsBalance(before[..last], after[..last], says, pieces);
      DifferingOneMore(before, after, says);
    }
  }

  lemma DifferingOneMore<T>(before: seq<T>, after: seq<T>, says: T -> string)
    requires |before| == |after| > 0
    ensures var last := |before| - 1;
      |Differing(before, after, says)|
      == |Differing(before[..last], after[..last], says)| + if says(before[last]) != says(after[last]) then 1 else 0
  {
    var last := |before| - 1;
    OneIndexMore(last, Differing(before[..last], after[..last], says), Differing(before, after, says),
                 says(before[last]) != says(after[last]));
  }

  // ---------- Counting lines ----------

  /** A line and what ends it: one boundary, or a carriage return with its line feed. */
  datatype Line = Line(text: string, end: string)

  predicate Ended(line: Line) {
    && (forall c :: c in line.text ==> !Breaks(c))
    && (line.end == "\r\n" || (|line.end| == 1 && Breaks(line.end[0])))
  }

  function Written(lines: seq<Line>, last: string): string {
    if lines == [] then last else lines[0].text + lines[0].end + Written(lines[1..], last)
  }

  /** A line feed right after a carriage return belongs to it. */
  predicate Unambiguous(lines: seq<Line>, last: string) {
    forall i :: 0 <= i < |lines| && lines[i].end == "\r" ==>
      Written(lines[i + 1..], last) == "" || Written(lines[i + 1..], last)[0] != '\n'
  }

  /** A text has as many lines as were ended in it, and one more if something follows. */
  lemma {:induction false} LinesAreCounted(lines: seq<Line>, last: string)
    requires (forall i :: 0 <= i < |lines| ==> Ended(lines[i])) && Unambiguous(lines, last)
    requires forall c :: c in last ==> !Breaks(c)
    ensures LineCount(Written(lines, last)) == |lines| + if last == "" then 0 else 1
  {
    if lines == [] {
      UnbrokenLine(last);
    } else {
      var rest := Written(lines[1..], last);
      assert forall i :: 0 <= i < |lines| - 1 ==>
        lines[1..][i] == lines[i + 1] && lines[1..][i + 1..] == lines[i + 2..];
      LinesAreCounted(lines[1..], last);
      assert lines[0 + 1..] == lines[1..];
      OneLine(lines[0].text, lines[0].end, rest);
    }
  }

  lemma {:induction false} UnbrokenLine(text: string)
    requires forall c :: c in text ==> !Breaks(c)
    ensures LineCount(text) == if text == "" then 0 else 1
  {
    if text != "" { UnbrokenLine(text[1..]); }
  }

  lemma {:induction false} OneLine(text: string, end: string, rest: string)
    requires Ended(Line(text, end)) && (end == "\r" ==> rest == "" || rest[0] != '\n')
    ensures LineCount(text + end + rest) == 1 + LineCount(rest)
  {
    var all := text + end + rest;
    if text == "" {
      if end == "\r\n" { assert all[2..] == rest; } else { assert all[1..] == rest; }
    } else {
      assert all[1..] == text[1..] + end + rest;
      OneLine(text[1..], end, rest);
    }
  }
}
