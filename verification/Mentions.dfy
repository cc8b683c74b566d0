/** What an extraction answers, told in the text and the vocabulary alone. */
module Mentions {
  import opened Sorting
  import opened Texts
  import opened Extraction

  /** The tokens from `a` to `b` are those of the form. */
  predicate Spells(lexer: Lexer, text: string, vocabulary: seq<Form>, a: nat, b: nat, form: nat) {
    var tokens := lexer.tokenize(text);
    a <= b < |tokens| && form < |vocabulary| && Values(tokens[a..b + 1]) == TermOf(lexer, vocabulary[form])
  }

  /** The answer of an extraction. */
  ghost predicate Answers(
    lexer: Lexer, text: string, vocabulary: seq<Form>, entries: Entries, chosen: set<Window>, mentions: seq<Mention>)
  {
    && Orderly(text, lexer.tokenize(text)) && EntriesOf(lexer, vocabulary, entries)
    && IsGreedyAnswer(lexer.tokenize(text), entries, chosen)
    && Reports(text, lexer.tokenize(text), entries, chosen, mentions)
  }

  function Written(lexer: Lexer, text: string, form: Form, first: Token, last: Token): Mention
    requires first.start <= last.end <= |text|
  {
    Mention(text[first.start..last.end], JoinWith(TermOf(lexer, form), ' '), first.start, last.end, form.concept)
  }

  /** The mention of the form that these tokens spell. */
  predicate Mentioned(
    lexer: Lexer, text: string, vocabulary: seq<Form>, m: Mention, a: nat, b: nat, form: nat)
  {
    && Spells(lexer, text, vocabulary, a, b, form)
    && var first, last := lexer.tokenize(text)[a], lexer.tokenize(text)[b];
    && first.start < last.end <= |text| && m == Written(lexer, text, vocabulary[form], first, last)
  }

  /** The mention covers the text from token `c` to token `d`. */
  predicate Covers(lexer: Lexer, text: string, m: Mention, c: nat, d: nat) {
    var tokens := lexer.tokenize(text);
    c <= d < |tokens| && m.start == tokens[c].start && m.end == tokens[d].end
  }

  /** It is the mention of a form that consecutive tokens spell. */
  ghost predicate IsOfTheVocabulary(lexer: Lexer, text: string, vocabulary: seq<Form>, m: Mention) {
    exists a: nat, b: nat, form: nat :: Mentioned(lexer, text, vocabulary, m, a, b, form)
  }

  /** Some mention has a token of these, and at least as many as these. */
  ghost predicate Prevails(lexer: Lexer, text: string, mentions: seq<Mention>, a: nat, b: nat) {
    exists m, c: nat, d: nat :: m in mentions && Covers(lexer, text, m, c, d) && c <= b && a <= d && b - a <= d - c
  }

  lemma WindowsAndMentions(
    lexer: Lexer, text: string, vocabulary: seq<Form>, entries: Entries, chosen: set<Window>, mentions: seq<Mention>)
    returns (ordered: seq<Window>)
    requires Answers(lexer, text, vocabulary, entries, chosen, mentions)
    ensures |mentions| == |ordered| && (forall w :: w in ordered <==> w in chosen)
    ensures forall i, j :: 0 <= i < j < |ordered| ==> Earlier(ordered[i], ordered[j])
    ensures forall w :: w in chosen ==> InVocabulary(lexer.tokenize(text), entries, w)
    ensures forall i :: 0 <= i < |mentions| ==>
      ordered[i] in chosen && mentions[i] == MentionOf(text, lexer.tokenize(text), entries, ordered[i])
  {
    hide InVocabulary, EntriesOf, Orderly, MentionOf, Earlier, Overlap, Outranks;
    EarlierIsTotal();
    ordered := Sorted(chosen, Earlier);
  }

  lemma WindowSpells(lexer: Lexer, text: string, vocabulary: seq<Form>, entries: Entries, w: Window)
    returns (form: nat)
    requires Orderly(text, lexer.tokenize(text)) && EntriesOf(lexer, vocabulary, entries)
    requires InVocabulary(lexer.tokenize(text), entries, w)
    ensures w.size >= 1
    ensures var m := MentionOf(text, lexer.tokenize(text), entries, w);
      && Mentioned(lexer, text, vocabulary, m, w.index, w.index + w.size - 1, form)
      && Covers(lexer, text, m, w.index, w.index + w.size - 1)
  {
    hide JoinWith, TermOf;
    var tokens := lexer.tokenize(text);
    StartsBeforeEnds(text, tokens, w.index, w.index + w.size - 1);
    form :| form < |vocabulary| && TermOf(lexer, vocabulary[form]) == Values(tokens[w.index..w.index + w.size]);
  }

  /** Every mention is of consecutive tokens that spell a form of the vocabulary: its text and
      place are theirs, its form and concept the vocabulary's. */
  lemma MentionSays(
    lexer: Lexer, text: string, vocabulary: seq<Form>, entries: Entries, chosen: set<Window>, mentions: seq<Mention>,
    m: Mention)
    requires Answers(lexer, text, vocabulary, entries, chosen, mentions) && m in mentions
    ensures IsOfTheVocabulary(lexer, text, vocabulary, m)
  {
    hide *;
    var ordered := WindowsAndMentions(lexer, text, vocabulary, entries, chosen, mentions);
    var i :| 0 <= i < |mentions| && mentions[i] == m;
    AnswersAreOrderly(lexer, text, vocabulary, entries, chosen, mentions);
    var form := WindowSpells(lexer, text, vocabulary, entries, ordered[i]);
    OfTheVocabulary(lexer, text, vocabulary, m, ordered[i].index, ordered[i].index + ordered[i].size - 1, form);
  }

  lemma OfTheVocabulary(
    lexer: Lexer, text: string, vocabulary: seq<Form>, m: Mention, a: nat, b: nat, form: nat)
    requires Mentioned(lexer, text, vocabulary, m, a, b, form)
    ensures IsOfTheVocabulary(lexer, text, vocabulary, m)
  {
  }

  lemma PrevailsBy(
    lexer: Lexer, text: string, mentions: seq<Mention>, m: Mention, a: nat, b: nat, c: nat, d: nat)
    requires m in mentions && Covers(lexer, text, m, c, d) && c <= b && a <= d && b - a <= d - c
    ensures Prevails(lexer, text, mentions, a, b)
  {
  }

  lemma AnswersAreOrderly(
    lexer: Lexer, text: string, vocabulary: seq<Form>, entries: Entries, chosen: set<Window>, mentions: seq<Mention>)
    requires Answers(lexer, text, vocabulary, entries, chosen, mentions)
    ensures Orderly(text, lexer.tokenize(text)) && EntriesOf(lexer, vocabulary, entries)
  {
  }

  /** Wherever the text spells a form, it is mentioned, or something at least as long that
      shares text with it is. */
  lemma NothingIsMissed(
    lexer: Lexer, text: string, vocabulary: seq<Form>, entries: Entries, chosen: set<Window>, mentions: seq<Mention>,
    a: nat, b: nat, form: nat)
    requires Answers(lexer, text, vocabulary, entries, chosen, mentions)
    requires Spells(lexer, text, vocabulary, a, b, form)
    ensures Prevails(lexer, text, mentions, a, b)
  {
    hide *;
    SpelledIsAWindow(lexer, text, vocabulary, entries, chosen, mentions, a, b, form);
    var v := Prevailing(lexer.tokenize(text), entries, chosen, Window(a, b - a + 1));
    var m := MentionOfWindow(lexer, text, vocabulary, entries, chosen, mentions, v);
    PrevailsBy(lexer, text, mentions, m, a, b, v.index, v.index + v.size - 1);
  }

  lemma MentionOfWindow(
    lexer: Lexer, text: string, vocabulary: seq<Form>, entries: Entries, chosen: set<Window>, mentions: seq<Mention>,
    v: Window)
    returns (m: Mention)
    requires Answers(lexer, text, vocabulary, entries, chosen, mentions) && v in chosen && v.size >= 1
    ensures m in mentions && Covers(lexer, text, m, v.index, v.index + v.size - 1)
  {
    hide *;
    var ordered := WindowsAndMentions(lexer, text, vocabulary, entries, chosen, mentions);
    assert v in ordered;
    var i :| 0 <= i < |ordered| && ordered[i] == v;
    AnswersAreOrderly(lexer, text, vocabulary, entries, chosen, mentions);
    var spelled := WindowSpells(lexer, text, vocabulary, entries, v);
    m := mentions[i];
  }

  lemma SpelledIsAWindow(
    lexer: Lexer, text: string, vocabulary: seq<Form>, entries: Entries, chosen: set<Window>, mentions: seq<Mention>,
    a: nat, b: nat, form: nat)
    requires Answers(lexer, text, vocabulary, entries, chosen, mentions)
    requires Spells(lexer, text, vocabulary, a, b, form)
    ensures a <= b
    ensures InVocabulary(lexer.tokenize(text), entries, Window(a, b - a + 1))
    ensures IsGreedyAnswer(lexer.tokenize(text), entries, chosen)
  {
    hide Reports, Orderly, TermOf, IsGreedyAnswer;
  }

  lemma Prevailing(tokens: seq<Token>, entries: Entries, chosen: set<Window>, w: Window) returns (v: Window)
    requires IsGreedyAnswer(tokens, entries, chosen) && InVocabulary(tokens, entries, w)
    ensures v in chosen && v.size >= w.size >= 1 && v.size >= 1 && v.index + v.size <= |tokens|
    ensures v.index < w.index + w.size && w.index < v.index + v.size
  {
    if w in chosen { v := w; }
    else {
      assert w == Window(w.index, w.size);
      v :| v in chosen && Overlap(v, w) && Outranks(v, w);
    }
  }

  /** They come in the order of the text and share none of it. */
  lemma MentionsAscend(
    lexer: Lexer, text: string, vocabulary: seq<Form>, entries: Entries, chosen: set<Window>, mentions: seq<Mention>,
    i: nat, j: nat)
    requires Answers(lexer, text, vocabulary, entries, chosen, mentions) && i < j < |mentions|
    ensures mentions[i].end <= mentions[j].start
  {
    var tokens := lexer.tokenize(text);
    var ordered := WindowsAndMentions(lexer, text, vocabulary, entries, chosen, mentions);
    AnswersAreOrderly(lexer, text, vocabulary, entries, chosen, mentions);
    var v, w := ordered[i], ordered[j];
    assert Earlier(v, w) && v != w && !Overlap(v, w);
    assert InVocabulary(tokens, entries, v) && InVocabulary(tokens, entries, w);
    assert v.index + v.size <= w.index;
    EndsBeforeStarts(text, tokens, v.index + v.size - 1, w.index);
    hide Reports, IsGreedyAnswer, Orderly;
  }

  lemma EndsBeforeStarts(text: string, tokens: seq<Token>, i: nat, j: nat)
    requires Orderly(text, tokens) && i < j < |tokens|
    ensures tokens[i].end <= tokens[j].start
  {
  }
}
