/** Removing what an employer repeats about itself from the postings one run fetched. */
module Boilerplate {
  import opened Extremes
  import opened Wrappers
  import opened Catalogue
  import opened Paragraphs

  /** The catalogue's name folding, block folding and the employer's distinctive word:
      deterministic, otherwise free. An employer nothing can name has the empty marker. */
  datatype Lexicon = Lexicon(
    matching: Matching,
    fold: string -> string,
    marker: string -> string)

  datatype Policy = Policy(minimumPostings: nat, minimumShare: real, minimumInHand: nat)

  predicate Acceptable(p: Policy) {
    p.minimumPostings >= 2 && p.minimumInHand >= 2 && 0.0 < p.minimumShare <= 1.0
  }

  predicate Contains(text: string, part: string) {
    exists i :: 0 <= i <= |text| && part <= text[i..]
  }

  predicate Names(marker: string, block: string) {
    Contains(block, " " + marker + " ")
  }

  function FoldedBlocks(lex: Lexicon, description: string): set<string> {
    set block | block in Blocks(description) :: lex.fold(block)
  }

  /** How many of the descriptions carry the block, each at most once. */
  function Carrying(lex: Lexicon, descriptions: seq<string>, block: string): (n: nat)
    ensures n <= |descriptions|
    ensures n > 0 ==> exists i :: 0 <= i < |descriptions| && block in FoldedBlocks(lex, descriptions[i])
  {
    if descriptions == [] then 0
    else
      var last := |descriptions| - 1;
      Carrying(lex, descriptions[..last], block)
      + if block in FoldedBlocks(lex, descriptions[last]) then 1 else 0
  }

  function CarriedSomewhere(lex: Lexicon, descriptions: seq<string>): set<string> {
    set d, block | d in descriptions && block in Blocks(d) :: lex.fold(block)
  }

  /** The block is in most of the postings in hand. */
  predicate InMost(policy: Policy, seen: nat, inHand: nat) {
    seen as real >= policy.minimumShare * inHand as real
  }

  /** What most of the postings in hand carry and names the employer, where there is a pattern at all. */
  function SelfDescribing(
    lex: Lexicon, employer: string, descriptions: seq<string>, policy: Policy, known: nat): set<string>
  {
    if |descriptions| < policy.minimumInHand then {}
    else if known < policy.minimumPostings then {}
    else if lex.marker(employer) == "" then {}
    else
      set block | block in CarriedSomewhere(lex, descriptions)
                  && InMost(policy, Carrying(lex, descriptions, block), |descriptions|)
                  && Names(lex.marker(employer), block)
  }

  function Kept(lex: Lexicon, blocks: seq<string>, removable: set<string>): (kept: seq<string>)
    requires AllClean(blocks)
    ensures AllClean(kept)
    ensures forall b :: b in kept <==> b in blocks && lex.fold(b) !in removable
    ensures |kept| <= |blocks|
  {
    if blocks == [] then []
    else (if lex.fold(blocks[0]) in removable then [] else [blocks[0]]) + Kept(lex, blocks[1..], removable)
  }

  /** The description with the named blocks gone; one reduced to nothing keeps its text. */
  function WithoutBlocks(lex: Lexicon, description: string, removable: set<string>): string {
    var kept := Kept(lex, Blocks(description), removable);
    if kept != [] then Join(kept) else description
  }

  // ---------- The rule over a run ----------

  function Employer(lex: Lexicon, job: Record): string { lex.matching.normalizeCompany(job.company) }

  /** What is read of a posting: whose it is and what it says. */
  datatype Posting = Posting(employer: string, description: string)

  function PostingsOf(lex: Lexicon, jobs: seq<Record>): (postings: seq<Posting>)
    ensures |postings| == |jobs|
    ensures forall i :: 0 <= i < |jobs| ==> postings[i] == Posting(Employer(lex, jobs[i]), jobs[i].fields.description)
  {
    seq(|jobs|, i requires 0 <= i < |jobs| => Posting(Employer(lex, jobs[i]), jobs[i].fields.description))
  }

  /** What an employer's postings say, in their order. */
  function TextsOf(postings: seq<Posting>, employer: string): seq<string> {
    if postings == [] then []
    else
      var last := |postings| - 1;
      TextsOf(postings[..last], employer)
      + if postings[last].employer == employer then [postings[last].description] else []
  }

  function DescriptionsOf(lex: Lexicon, jobs: seq<Record>, employer: string): seq<string> {
    TextsOf(PostingsOf(lex, jobs), employer)
  }

  /** What the run removes from an employer's postings. */
  function Removable(
    lex: Lexicon, jobs: seq<Record>, policy: Policy, stored: map<string, nat>, employer: string): set<string>
  {
    var descriptions := DescriptionsOf(lex, jobs, employer);
    SelfDescribing(lex, employer, descriptions, policy,
      Max(|descriptions|, if employer in stored then stored[employer] else 0))
  }

  function StripDescription(lex: Lexicon, description: string, drop: set<string>): string {
    if drop != {} then WithoutBlocks(lex, description, drop) else description
  }

  function StripOne(lex: Lexicon, job: Record, drop: set<string>): Record {
    job.(fields := job.fields.(description := StripDescription(lex, job.fields.description, drop)))
  }

  function Strip(lex: Lexicon, jobs: seq<Record>, policy: Policy, stored: map<string, nat>): (out: seq<Record>)
    ensures |out| == |jobs|
    ensures forall i :: 0 <= i < |jobs| ==>
              out[i] == StripOne(lex, jobs[i], Removable(lex, jobs, policy, stored, Employer(lex, jobs[i])))
  {
    seq(|jobs|, i requires 0 <= i < |jobs| =>
      StripOne(lex, jobs[i], Removable(lex, jobs, policy, stored, Employer(lex, jobs[i]))))
  }

  datatype Removal = Removal(postings: int, blocks: int, characters: int)

  /** The totals between two lists of the same things, by what they say and how its pieces
      are counted; what says the same before and after does not count. */
  function Totals<T>(before: seq<T>, after: seq<T>, says: T -> string, pieces: string -> nat): Removal
    requires |before| == |after|
  {
    if before == [] then Removal(0, 0, 0)
    else
      var last := |before| - 1;
      OneMore(Totals(before[..last], after[..last], says, pieces), says(before[last]), says(after[last]), pieces)
  }

  function OneMore(rest: Removal, from: string, to: string, pieces: string -> nat): Removal {
    if from == to then rest
    else Removal(rest.postings + 1, rest.blocks + pieces(from) - pieces(to), rest.characters + |from| - |to|)
  }

  function Says(job: Record): string { job.fields.description }

  function BlockCount(description: string): nat { |Blocks(description)| }

  function RemovalBetween(before: seq<Record>, after: seq<Record>): Removal
    requires |before| == |after|
  {
    Totals(before, after, Says, BlockCount)
  }

  // ---------- The loops ----------

  lemma CarriedByOneMore(lex: Lexicon, descriptions: seq<string>, d: string)
    ensures CarriedSomewhere(lex, descriptions + [d])
         == CarriedSomewhere(lex, descriptions) + FoldedBlocks(lex, d)
  {
    var all := descriptions + [d];
    forall b
      ensures b in CarriedSomewhere(lex, all) <==> b in CarriedSomewhere(lex, descriptions) + FoldedBlocks(lex, d)
    {
      if b in CarriedSomewhere(lex, all) {
        var e, block :| e in all && block in Blocks(e) && lex.fold(block) == b;
      }
      if b in FoldedBlocks(lex, d) {
        var block :| block in Blocks(d) && lex.fold(block) == b;
        assert d in all;
      }
      if b in CarriedSomewhere(lex, descriptions) {
        var e, block :| e in descriptions && block in Blocks(e) && lex.fold(block) == b;
        assert e in all;
      }
    }
  }

  lemma NotCarriedIsZero(lex: Lexicon, descriptions: seq<string>, b: string)
    ensures Carrying(lex, descriptions, b) > 0 ==> b in CarriedSomewhere(lex, descriptions)
  {
    if Carrying(lex, descriptions, b) > 0 {
      var i :| 0 <= i < |descriptions| && b in FoldedBlocks(lex, descriptions[i]);
      var block :| block in Blocks(descriptions[i]) && lex.fold(block) == b;
      assert descriptions[i] in descriptions;
    }
  }

  lemma CarryingOneMore(lex: Lexicon, descriptions: seq<string>, d: string, b: string)
    ensures Carrying(lex, descriptions + [d], b)
         == Carrying(lex, descriptions, b) + if b in FoldedBlocks(lex, d) then 1 else 0
  {
    assert (descriptions + [d])[..|descriptions|] == descriptions;
  }

  /** The counts after one more description. */
  function Counted(counts: map<string, nat>, here: set<string>): map<string, nat> {
    map b | b in counts.Keys + here ::
      (if b in counts then counts[b] else 0) + (if b in here then 1 else 0)
  }

  predicate CountsOf(lex: Lexicon, counts: map<string, nat>, descriptions: seq<string>) {
    && counts.Keys == CarriedSomewhere(lex, descriptions)
    && forall b :: b in counts ==> counts[b] == Carrying(lex, descriptions, b)
  }

  lemma CountedOneMore(lex: Lexicon, counts: map<string, nat>, descriptions: seq<string>, d: string)
    requires CountsOf(lex, counts, descriptions)
    ensures CountsOf(lex, Counted(counts, FoldedBlocks(lex, d)), descriptions + [d])
  {
    hide CarriedSomewhere, FoldedBlocks, Carrying;
    CarriedByOneMore(lex, descriptions, d);
    forall b { NotCarriedIsZero(lex, descriptions, b); }
    forall b { CarryingOneMore(lex, descriptions, d, b); }
  }

  method CountBlocks(lex: Lexicon, descriptions: seq<string>) returns (counts: map<string, nat>)
    ensures CountsOf(lex, counts, descriptions)
  {
    counts := map[];
    for i := 0 to |descriptions|
      invariant CountsOf(lex, counts, descriptions[..i])
    {
      CountedOneMore(lex, counts, descriptions[..i], descriptions[i]);
      assert descriptions[..i + 1] == descriptions[..i] + [descriptions[i]];
      counts := Counted(counts, FoldedBlocks(lex, descriptions[i]));
    }
    assert descriptions[..|descriptions|] == descriptions;
  }

  method SelfDescribingBlocks(
    lex: Lexicon, employer: string, descriptions: seq<string>, policy: Policy, known: nat)
    returns (removable: set<string>)
    ensures removable == SelfDescribing(lex, employer, descriptions, policy, known)
  {
    hide Names, InMost, Carrying, CarriedSomewhere;
    if |descriptions| < policy.minimumInHand || known < policy.minimumPostings { return {}; }
    var marker := lex.marker(employer);
    if marker == "" { return {}; }
    var counts := CountBlocks(lex, descriptions);
    removable := set b | b in counts && InMost(policy, counts[b], |descriptions|) && Names(marker, b);
  }

  /** Each employer's texts, in order. */
  ghost predicate Grouped(texts: map<string, seq<string>>, postings: seq<Posting>) {
    && (forall e :: e in texts ==> texts[e] == TextsOf(postings, e))
    && (forall e :: e !in texts ==> TextsOf(postings, e) == [])
    && (forall i :: 0 <= i < |postings| ==> postings[i].employer in texts)
  }

  lemma NothingGrouped(none: seq<Posting>)
    requires none == []
    ensures Grouped(map[], none)
  {
  }

  lemma GroupedOneMore(texts: map<string, seq<string>>, postings: seq<Posting>, posting: Posting)
    requires Grouped(texts, postings)
    ensures var e := posting.employer;
            Grouped(texts[e := (if e in texts then texts[e] else []) + [posting.description]], postings + [posting])
  {
    assert (postings + [posting])[..|postings|] == postings;
  }

  method GroupByEmployer(postings: seq<Posting>) returns (texts: map<string, seq<string>>)
    ensures Grouped(texts, postings)
  {
    hide Grouped;
    texts := map[];
    NothingGrouped(postings[..0]);
    for n := 0 to |postings|
      invariant Grouped(texts, postings[..n])
    {
      var e := postings[n].employer;
      GroupedOneMore(texts, postings[..n], postings[n]);
      assert postings[..n] + [postings[n]] == postings[..n + 1];
      texts := texts[e := (if e in texts then texts[e] else []) + [postings[n].description]];
    }
    assert postings[..|postings|] == postings;
  }

  method RemovableByEmployer(
    lex: Lexicon, grouped: map<string, seq<string>>, jobs: seq<Record>, policy: Policy, stored: map<string, nat>)
    returns (removable: map<string, set<string>>)
    requires Grouped(grouped, PostingsOf(lex, jobs))
    ensures removable.Keys == grouped.Keys
    ensures forall e :: e in removable ==> removable[e] == Removable(lex, jobs, policy, stored, e)
  {
    hide SelfDescribing;
    removable := map[];
    var waiting := grouped.Keys;
    while waiting != {}
      invariant waiting <= grouped.Keys && removable.Keys == grouped.Keys - waiting
      invariant forall e :: e in removable ==> removable[e] == Removable(lex, jobs, policy, stored, e)
      decreases waiting
    {
      var e :| e in waiting;
      waiting := waiting - {e};
      var drop := SelfDescribingBlocks(lex, e, grouped[e], policy,
        Max(|grouped[e]|, if e in stored then stored[e] else 0));
      removable := removable[e := drop];
    }
  }

  lemma EveryEmployerIsGrouped(lex: Lexicon, grouped: map<string, seq<string>>, jobs: seq<Record>)
    requires Grouped(grouped, PostingsOf(lex, jobs))
    ensures forall i :: 0 <= i < |jobs| ==> Employer(lex, jobs[i]) in grouped
  {
    hide TextsOf;
    var postings := PostingsOf(lex, jobs);
    assert forall i :: 0 <= i < |jobs| ==> postings[i].employer == Employer(lex, jobs[i]);
  }

  lemma NothingTotalled<T>(none: seq<T>, after: seq<T>, says: T -> string, pieces: string -> nat)
    requires none == after == []
    ensures Totals(none, after, says, pieces) == Removal(0, 0, 0)
  {
  }

  lemma OneMoreTotalled<T>(before: seq<T>, after: seq<T>, a: T, b: T, says: T -> string, pieces: string -> nat)
    requires |before| == |after|
    ensures Totals(before + [a], after + [b], says, pieces)
         == OneMore(Totals(before, after, says, pieces), says(a), says(b), pieces)
  {
    assert (before + [a])[..|before|] == before && (after + [b])[..|after|] == after;
  }

  /** One pass over a run's postings, with the totals it reports. */
  method StripEmployerBoilerplate(lex: Lexicon, jobs: seq<Record>, policy: Policy, stored: map<string, nat>)
    returns (stripped: seq<Record>, removal: Removal)
    ensures stripped == Strip(lex, jobs, policy, stored)
    ensures removal == RemovalBetween(jobs, stripped)
  {
    var grouped := GroupByEmployer(PostingsOf(lex, jobs));
    EveryEmployerIsGrouped(lex, grouped, jobs);
    hide *;
    var removable := RemovableByEmployer(lex, grouped, jobs, policy, stored);
    stripped, removal := StripEach(lex, jobs, policy, stored, removable);
  }

  lemma StrippedPrefix(
    lex: Lexicon, jobs: seq<Record>, policy: Policy, stored: map<string, nat>, n: nat, before: seq<Record>, job: Record)
    requires n < |jobs| && before == Strip(lex, jobs, policy, stored)[..n]
    requires job == StripOne(lex, jobs[n], Removable(lex, jobs, policy, stored, Employer(lex, jobs[n])))
    ensures before + [job] == Strip(lex, jobs, policy, stored)[..n + 1]
  {
    hide Removable, StripOne;
    assert Strip(lex, jobs, policy, stored)[n] == job;
  }

  lemma UntouchedPosting(lex: Lexicon, job: Record, drop: set<string>)
    ensures StripOne(lex, job, drop)
      == job.(fields := job.fields.(description := StripDescription(lex, Says(job), drop)))
    ensures StripDescription(lex, Says(job), drop) == Says(job) ==> StripOne(lex, job, drop) == job
    ensures Says(StripOne(lex, job, drop)) == StripDescription(lex, Says(job), drop)
  {
  }

  method StripEach(
    lex: Lexicon, jobs: seq<Record>, policy: Policy, stored: map<string, nat>, removable: map<string, set<string>>)
    returns (stripped: seq<Record>, removal: Removal)
    requires forall i :: 0 <= i < |jobs| ==>
      && Employer(lex, jobs[i]) in removable
      && removable[Employer(lex, jobs[i])] == Removable(lex, jobs, policy, stored, Employer(lex, jobs[i]))
    ensures stripped == Strip(lex, jobs, policy, stored)
    ensures removal == RemovalBetween(jobs, stripped)
  {
    hide Removable, StripOne, StripDescription, Blocks, Totals, Strip, Employer;
    stripped := [];
    var postings, blocks, characters := 0, 0, 0;
    NothingTotalled(jobs[..0], stripped, Says, BlockCount);
    for n := 0 to |jobs|
      invariant |stripped| == n
      invariant stripped == Strip(lex, jobs, policy, stored)[..n]
      invariant Removal(postings, blocks, characters) == RemovalBetween(jobs[..n], stripped)
    {
      var job := jobs[n];
      var drop := removable[Employer(lex, job)];
      var description := StripDescription(lex, job.fields.description, drop);
      ghost var after := StripOne(lex, job, drop);
      UntouchedPosting(lex, job, drop);
      StrippedPrefix(lex, jobs, policy, stored, n, stripped, after);
      OneMoreTotalled(jobs[..n], stripped, job, after, Says, BlockCount);
      assert jobs[..n] + [job] == jobs[..n + 1];
      if description == job.fields.description {
        stripped := stripped + [job];
      } else {
        postings := postings + 1;
        blocks := blocks + |Blocks(job.fields.description)| - |Blocks(description)|;
        characters := characters + |job.fields.description| - |description|;
        stripped := stripped + [job.(fields := job.fields.(description := description))];
      }
    }
    assert jobs[..|jobs|] == jobs;
    removal := Removal(postings, blocks, characters);
  }
}
