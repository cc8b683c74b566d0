/** Scoring postings by the share of their skills a candidate has, and ranking them. */
module Ranking {
  import opened Sorting
  import opened Wrappers

  type Concept = nat
  type Posting = nat

  datatype SkillMatch = SkillMatch(score: real, matched: seq<Concept>, missing: seq<Concept>)

  /** What takes the place of the share of skills, if anything does. */
  type Weighing = Option<(set<Concept>, set<Concept>) -> real>

  datatype Ranked = Ranked(posting: Posting, fit: SkillMatch, relevance: int)

  /** The covered share of what a posting asks for; asking for nothing scores nothing. */
  function MatchSkills(candidate: set<Concept>, required: set<Concept>): SkillMatch {
    var matched := candidate * required;
    SkillMatch(
      if required == {} then 0.0 else |matched| as real / |required| as real,
      Sorted(matched, Ascends),
      Sorted(required - candidate, Ascends))
  }

  lemma SplitByCandidate(candidate: set<Concept>, required: set<Concept>)
    ensures |candidate * required| + |required - candidate| == |required|
    ensures |required - candidate| == 0 <==> required <= candidate
    ensures |candidate * required| == 0 <==> candidate !! required
  {
    assert required == candidate * required + (required - candidate);
    assert (candidate * required) !! (required - candidate);
    assert required - candidate == {} <==> required <= candidate;
  }

  lemma Share(part: nat, whole: nat)
    requires part <= whole && whole > 0
    ensures 0.0 <= part as real / whole as real <= 1.0
    ensures part as real / whole as real == 1.0 <==> part == whole
    ensures part as real / whole as real == 0.0 <==> part == 0
  {
    var share := part as real / whole as real;
    assert share * whole as real == part as real;
  }

  /** A share is a share: full exactly when the candidate has all that is asked for, nothing
      exactly when none of it, and both halves of the explanation add up. */
  lemma ScoreIsCoverage(candidate: set<Concept>, required: set<Concept>)
    ensures var m := MatchSkills(candidate, required);
      && 0.0 <= m.score <= 1.0
      && (m.score == 1.0 <==> required != {} && required <= candidate)
      && (m.score == 0.0 <==> candidate !! required)
      && |m.matched| + |m.missing| == |required|
      && (forall c :: c in m.matched <==> c in candidate && c in required)
      && (forall c :: c in m.missing <==> c in required && c !in candidate)
  {
    SplitByCandidate(candidate, required);
    if required != {} {
      Share(|candidate * required|, |required|);
    }
  }

  /** Knowing more never lowers a score. */
  lemma MoreSkillsNeverHurt(candidate: set<Concept>, more: set<Concept>, required: set<Concept>)
    requires candidate <= more
    ensures MatchSkills(candidate, required).score <= MatchSkills(more, required).score
  {
    if required != {} {
      assert |more * required| == |candidate * required| + |(more - candidate) * required| by {
        assert more * required == candidate * required + (more - candidate) * required;
      }
      LargerShare(|candidate * required|, |more * required|, |required|);
    }
  }

  lemma LargerShare(small: nat, large: nat, whole: nat)
    requires small <= large && whole > 0
    ensures small as real / whole as real <= large as real / whole as real
  {
  }

  /** One candidate's corpus: what each posting asks for, how relevant it was judged, and
      what scores it. */
  datatype Corpus = Corpus(
    candidate: set<Concept>, postings: map<Posting, set<Concept>>, relevance: map<Posting, int>, weighing: Weighing)

  /** The match as it is ranked: the same skills, and another score where one is given. */
  function Fit(c: Corpus, required: set<Concept>): SkillMatch {
    var fit := MatchSkills(c.candidate, required);
    if c.weighing.Some? then fit.(score := c.weighing.value(c.candidate, required)) else fit
  }

  /** Higher score first, then the smaller key. */
  function Before(c: Corpus): (Posting, Posting) -> bool {
    (p, q) =>
      var a := if p in c.postings then Fit(c, c.postings[p]).score else 0.0;
      var b := if q in c.postings then Fit(c, c.postings[q]).score else 0.0;
      a > b || (a == b && p < q)
  }

  function EntryFor(c: Corpus, p: Posting): Ranked
    requires p in c.postings
  {
    Ranked(p, Fit(c, c.postings[p]), if p in c.relevance then c.relevance[p] else 0)
  }

  ghost predicate IsRanking(c: Corpus, ranked: seq<Ranked>) {
    && (forall r :: r in ranked ==> r.posting in c.postings && r == EntryFor(c, r.posting))
    && (forall p :: p in c.postings ==> EntryFor(c, p) in ranked)
    && (forall i, j :: 0 <= i < j < |ranked| ==>
          ranked[i].fit.score > ranked[j].fit.score
          || (ranked[i].fit.score == ranked[j].fit.score && ranked[i].posting < ranked[j].posting))
  }

  lemma EntryIs(c: Corpus, p: Posting)
    requires p in c.postings
    ensures EntryFor(c, p) == Ranked(p, Fit(c, c.postings[p]), if p in c.relevance then c.relevance[p] else 0)
  {
  }

  lemma BeforeIsTotal(c: Corpus)
    ensures StrictTotal(Before(c))
  {
    hide Fit;
  }

  method Rank(c: Corpus, keys: seq<Posting>) returns (ranked: seq<Ranked>)
    requires forall p :: p in keys <==> p in c.postings
    ensures IsRanking(c, ranked)
  {
    hide Fit, Before, Sorted, EntryFor, IsRanking;
    var scored: map<Posting, Ranked> := map[];
    for n := 0 to |keys|
      invariant forall p :: p in scored <==> p in keys[..n]
      invariant forall p :: p in scored ==> scored[p] == EntryFor(c, p)
    {
      var p := keys[n];
      EntryIs(c, p);
      scored := scored[p := Ranked(p, Fit(c, c.postings[p]), if p in c.relevance then c.relevance[p] else 0)];
    }
    assert keys[..|keys|] == keys;
    BeforeIsTotal(c);
    var order := Sorted(c.postings.Keys, Before(c));
    ranked := seq(|order|, i requires 0 <= i < |order| => scored[order[i]]);
    ListedInOrder(c, order, ranked);
  }

  lemma ListedInOrder(c: Corpus, order: seq<Posting>, ranked: seq<Ranked>)
    requires |ranked| == |order| && Ascending(order, Before(c))
    requires forall p :: p in order <==> p in c.postings
    requires forall i :: 0 <= i < |order| ==> order[i] in c.postings && ranked[i] == EntryFor(c, order[i])
    ensures IsRanking(c, ranked)
  {
    hide Fit;
    forall p | p in c.postings ensures EntryFor(c, p) in ranked {
      assert p in order;
      var i :| 0 <= i < |order| && order[i] == p;
      assert ranked[i] == EntryFor(c, p);
    }
    forall i, j | 0 <= i < j < |ranked|
      ensures ranked[i].fit.score > ranked[j].fit.score
        || (ranked[i].fit.score == ranked[j].fit.score && ranked[i].posting < ranked[j].posting)
    {
      assert Before(c)(order[i], order[j]);
    }
  }

  /** What an entry of a ranking says of its posting: the skills asked for that the candidate
      has and has not, and the given score, or the share of those it has. */
  lemma EntriesSay(c: Corpus, ranked: seq<Ranked>, r: Ranked)
    requires IsRanking(c, ranked) && r in ranked
    ensures r.posting in c.postings
    ensures var required := c.postings[r.posting];
      && (forall k :: k in r.fit.matched <==> k in c.candidate && k in required)
      && (forall k :: k in r.fit.missing <==> k in required && k !in c.candidate)
      && (c.weighing.None? && required != {} ==>
            r.fit.score == |c.candidate * required| as real / |required| as real)
      && (c.weighing.None? && required == {} ==> r.fit.score == 0.0)
      && (c.weighing.Some? ==> r.fit.score == c.weighing.value(c.candidate, required))
      && r.relevance == if r.posting in c.relevance then c.relevance[r.posting] else 0
  {
    hide Fit, MatchSkills;
    EntryOfItsPosting(c, ranked, r);
    FitIs(c, c.postings[r.posting]);
    var required := c.postings[r.posting];
    ScoreIsCoverage(c.candidate, required);
  }

  lemma EntryOfItsPosting(c: Corpus, ranked: seq<Ranked>, r: Ranked)
    requires IsRanking(c, ranked) && r in ranked
    ensures r.posting in c.postings && r == EntryFor(c, r.posting)
  {
  }

  lemma FitIs(c: Corpus, required: set<Concept>)
    ensures var fit, plain := Fit(c, required), MatchSkills(c.candidate, required);
      && fit.matched == plain.matched && fit.missing == plain.missing
      && (c.weighing.None? && required != {} ==>
            fit.score == |c.candidate * required| as real / |required| as real)
      && (c.weighing.None? && required == {} ==> fit.score == 0.0)
      && (c.weighing.Some? ==> fit.score == c.weighing.value(c.candidate, required))
  {
  }

  /** The order postings arrive in never shows: there is one ranking. */
  lemma RankingIsFixed(c: Corpus, one: seq<Ranked>, other: seq<Ranked>)
    requires IsRanking(c, one) && IsRanking(c, other)
    ensures one == other
  {
    hide Fit;
    var ps := seq(|one|, i requires 0 <= i < |one| => one[i].posting);
    var qs := seq(|other|, i requires 0 <= i < |other| => other[i].posting);
    SameElements(c, one, ps);
    SameElements(c, other, qs);
    AscendingIsUnique(ps, qs, Before(c));
    forall i | 0 <= i < |one| ensures one[i] == other[i] {
      assert one[i] in one && other[i] in other && ps[i] == qs[i];
    }
  }

  lemma SameElements(c: Corpus, ranked: seq<Ranked>, ps: seq<Posting>)
    requires IsRanking(c, ranked)
    requires |ps| == |ranked| && forall i :: 0 <= i < |ps| ==> ps[i] == ranked[i].posting
    ensures Ascending(ps, Before(c))
    ensures forall p :: p in ps <==> p in c.postings
  {
    hide Fit;
    forall i, j | 0 <= i < j < |ps| ensures Before(c)(ps[i], ps[j]) {
      assert ranked[i] in ranked && ranked[j] in ranked;
    }
    forall p ensures p in ps <==> p in c.postings {
      if p in ps {
        var i :| 0 <= i < |ps| && ps[i] == p;
        assert ranked[i] in ranked;
      }
      if p in c.postings {
        var i :| 0 <= i < |ranked| && ranked[i] == EntryFor(c, p);
        assert ps[i] == p;
      }
    }
  }
}
