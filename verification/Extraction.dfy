/** Longest-first extraction of vocabulary phrases from a token stream. */
module Extraction {
  import opened Texts
  import opened Wrappers
  import opened Sorting

  type Concept = nat

  datatype Token = Token(value: string, start: nat, end: nat)

  /** Normalization and tokenizing, as the patterns define them. */
  datatype Lexer = Lexer(normalize: string -> string, tokenize: string -> seq<Token>)

  /** Tokens are non-empty, in order, and lie within the text. */
  predicate Orderly(text: string, tokens: seq<Token>) {
    && (forall i :: 0 <= i < |tokens| ==> tokens[i].start < tokens[i].end <= |text|)
    && (forall i, j :: 0 <= i < j < |tokens| ==> tokens[i].end <= tokens[j].start)
  }

  function Values(tokens: seq<Token>): (values: seq<string>)
    ensures |values| == |tokens|
    ensures forall i :: 0 <= i < |tokens| ==> values[i] == tokens[i].value
  {
    seq(|tokens|, i requires 0 <= i < |tokens| => tokens[i].value)
  }

  // ---------- The vocabulary ----------

  datatype Form = Form(surface: string, concept: Option<Concept>)

  datatype Entry = Entry(form: string, concept: Option<Concept>)

  function TermOf(lexer: Lexer, form: Form): seq<string> {
    Values(lexer.tokenize(lexer.normalize(form.surface)))
  }

  function EntryOf(lexer: Lexer, form: Form): Entry {
    Entry(JoinWith(TermOf(lexer, form), ' '), form.concept)
  }

  /** Every form contains a term, and forms of one term agree on their concept. */
  predicate Consistent(lexer: Lexer, vocabulary: seq<Form>) {
    && (forall i :: 0 <= i < |vocabulary| ==> TermOf(lexer, vocabulary[i]) != [])
    && (forall i, j | 0 <= i < |vocabulary| && 0 <= j < |vocabulary|
                      && TermOf(lexer, vocabulary[i]) == TermOf(lexer, vocabulary[j])
          :: vocabulary[i].concept == vocabulary[j].concept)
  }

  type Entries = map<seq<string>, Entry>

  predicate EntriesOf(lexer: Lexer, vocabulary: seq<Form>, entries: Entries) {
    && (forall i :: 0 <= i < |vocabulary| ==>
          TermOf(lexer, vocabulary[i]) in entries
          && entries[TermOf(lexer, vocabulary[i])] == EntryOf(lexer, vocabulary[i]))
    && (forall term :: term in entries ==>
          term != [] && exists i :: 0 <= i < |vocabulary| && TermOf(lexer, vocabulary[i]) == term)
  }

  /** One entry per term, or nothing when the forms conflict or one has no term. */
  method VocabularyEntries(lexer: Lexer, vocabulary: seq<Form>) returns (entries: Option<Entries>)
    ensures entries.Some? <==> Consistent(lexer, vocabulary)
    ensures entries.Some? ==> EntriesOf(lexer, vocabulary, entries.value)
  {
    hide JoinWith;
    var built: Entries := map[];
    for i := 0 to |vocabulary|
      invariant Consistent(lexer, vocabulary[..i])
      invariant EntriesOf(lexer, vocabulary[..i], built)
    {
      var term := TermOf(lexer, vocabulary[i]);
      assert vocabulary[..i + 1] == vocabulary[..i] + [vocabulary[i]];
      if term == [] { return None; }
      var entry := EntryOf(lexer, vocabulary[i]);
      if term in built && built[term] != entry {
        ghost var j :| 0 <= j < i && TermOf(lexer, vocabulary[..i][j]) == term;
        assert vocabulary[j].concept != vocabulary[i].concept;
        return None;
      }
      AddForm(lexer, vocabulary[..i], vocabulary[i], built);
      built := built[term := entry];
    }
    assert vocabulary[..|vocabulary|] == vocabulary;
    entries := Some(built);
  }

  lemma AddForm(lexer: Lexer, vocabulary: seq<Form>, form: Form, entries: Entries)
    requires Consistent(lexer, vocabulary) && EntriesOf(lexer, vocabulary, entries)
    requires TermOf(lexer, form) != []
    requires TermOf(lexer, form) in entries ==> entries[TermOf(lexer, form)] == EntryOf(lexer, form)
    ensures Consistent(lexer, vocabulary + [form])
    ensures EntriesOf(lexer, vocabulary + [form], entries[TermOf(lexer, form) := EntryOf(lexer, form)])
  {
    hide JoinWith, TermOf;
    var all := vocabulary + [form];
    var built := entries[TermOf(lexer, form) := EntryOf(lexer, form)];
    forall term | term in built
      ensures term != [] && exists i :: 0 <= i < |all| && TermOf(lexer, all[i]) == term
    {
      if term in entries {
        var i :| 0 <= i < |vocabulary| && TermOf(lexer, vocabulary[i]) == term;
        assert TermOf(lexer, all[i]) == term;
      } else {
        assert TermOf(lexer, all[|vocabulary|]) == term;
      }
    }
  }

  // ---------- Windows ----------

  /** A run of consecutive tokens. */
  datatype Window = Window(index: nat, size: nat)

  predicate InVocabulary(tokens: seq<Token>, entries: Entries, w: Window) {
    && w.size >= 1 && w.index + w.size <= |tokens|
    && Values(tokens[w.index..w.index + w.size]) in entries
  }

  predicate Overlap(w: Window, v: Window) {
    w.index < v.index + v.size && v.index < w.index + w.size
  }

  /** Longer, or equally long and earlier. */
  predicate Outranks(v: Window, w: Window) {
    v.size > w.size || (v.size == w.size && v.index < w.index)
  }

  predicate SpansOverlap(a: (nat, nat), b: (nat, nat)) {
    a.0 < b.1 && b.0 < a.1
  }

  function Span(tokens: seq<Token>, w: Window): (nat, nat)
    requires w.size >= 1 && w.index + w.size <= |tokens|
  {
    (tokens[w.index].start, tokens[w.index + w.size - 1].end)
  }

  /** Two windows share text exactly when they share a token. */
  lemma SpansOverlapIffWindowsDo(text: string, tokens: seq<Token>, w: Window, v: Window)
    requires Orderly(text, tokens)
    requires w.size >= 1 && w.index + w.size <= |tokens|
    requires v.size >= 1 && v.index + v.size <= |tokens|
    ensures SpansOverlap(Span(tokens, w), Span(tokens, v)) <==> Overlap(w, v)
  {
    StartsBeforeEnds(text, tokens, w.index, v.index + v.size - 1);
    StartsBeforeEnds(text, tokens, v.index, w.index + w.size - 1);
  }

  lemma StartsBeforeEnds(text: string, tokens: seq<Token>, i: nat, j: nat)
    requires Orderly(text, tokens) && i < |tokens| && j < |tokens|
    ensures tokens[i].start < tokens[j].end <==> i <= j
  {
  }

  // ---------- The declarative answer ----------

  /** Disjoint vocabulary windows such that every vocabulary window left out overlaps
      one that outranks it. */
  predicate IsGreedyAnswer(tokens: seq<Token>, entries: Entries, chosen: set<Window>) {
    && (forall w :: w in chosen ==> InVocabulary(tokens, entries, w))
    && (forall w, v :: w in chosen && v in chosen && w != v ==> !Overlap(w, v))
    && (forall index, size | 0 <= index < |tokens| && 1 <= size <= |tokens|
          :: InVocabulary(tokens, entries, Window(index, size)) && Window(index, size) !in chosen ==>
               exists v :: v in chosen && Overlap(v, Window(index, size)) && Outranks(v, Window(index, size)))
  }

  /** A window in one answer is in any other, by descending rank. */
  lemma {:induction false} AgreeOneWay(
    tokens: seq<Token>, entries: Entries, a: set<Window>, b: set<Window>, w: Window)
    requires IsGreedyAnswer(tokens, entries, a) && IsGreedyAnswer(tokens, entries, b)
    requires InVocabulary(tokens, entries, w) && w in a
    ensures w in b
    decreases |tokens| - w.size, w.index
  {
    if w !in b {
      assert w == Window(w.index, w.size);
      var v :| v in b && Overlap(v, w) && Outranks(v, w);
      AgreeOneWay(tokens, entries, b, a, v);
      assert false;
    }
  }

  /** The greedy answer is unique. */
  lemma AnswerIsUnique(tokens: seq<Token>, entries: Entries, a: set<Window>, b: set<Window>)
    requires IsGreedyAnswer(tokens, entries, a) && IsGreedyAnswer(tokens, entries, b)
    ensures a == b
  {
    forall w | w in a ensures w in b { AgreeOneWay(tokens, entries, a, b, w); }
    forall w | w in b ensures w in a { AgreeOneWay(tokens, entries, b, a, w); }
  }

  // ---------- Mentions ----------

  datatype Mention = Mention(surface: string, form: string, start: nat, end: nat, concept: Option<Concept>)

  function MentionOf(text: string, tokens: seq<Token>, entries: Entries, w: Window): Mention
    requires Orderly(text, tokens) && InVocabulary(tokens, entries, w)
  {
    var (start, end) := Span(tokens, w);
    StartsBeforeEnds(text, tokens, w.index, w.index + w.size - 1);
    var entry := entries[Values(tokens[w.index..w.index + w.size])];
    Mention(text[start..end], entry.form, start, end, entry.concept)
  }

  predicate Earlier(w: Window, v: Window) {
    w.index < v.index || (w.index == v.index && w.size < v.size)
  }

  lemma EarlierIsTotal()
    ensures StrictTotal(Earlier)
  {
  }

  /** The mentions of some windows, in source order. */
  ghost predicate Reports(
    text: string, tokens: seq<Token>, entries: Entries, chosen: set<Window>, mentions: seq<Mention>)
    requires Orderly(text, tokens) && forall w :: w in chosen ==> InVocabulary(tokens, entries, w)
  {
    EarlierIsTotal();
    var ordered := Sorted(chosen, Earlier);
    && |mentions| == |ordered|
    && forall i :: 0 <= i < |mentions| ==> mentions[i] == MentionOf(text, tokens, entries, ordered[i])
  }

  /** The found windows' mentions, in the order they were found. */
  ghost predicate Finds(
    text: string, tokens: seq<Token>, entries: Entries, windows: seq<Window>, found: seq<Mention>)
    requires Orderly(text, tokens)
  {
    && |found| == |windows|
    && (forall i :: 0 <= i < |windows| ==>
          InVocabulary(tokens, entries, windows[i])
          && found[i] == MentionOf(text, tokens, entries, windows[i]))
    && (forall i, j :: 0 <= i < j < |windows| ==> !Overlap(windows[i], windows[j]))
  }

  /** Windows ranked above a point have been decided: chosen, or overlapped by a
      chosen one that outranks them. */
  ghost predicate Decided(
    tokens: seq<Token>, entries: Entries, windows: seq<Window>, size: nat, index: nat)
  {
    && (forall w :: w in windows ==> Outranks(w, Window(index, size)))
    && (forall i, n | 0 <= i < |tokens| && 1 <= n <= |tokens|
          :: InVocabulary(tokens, entries, Window(i, n)) && Outranks(Window(i, n), Window(index, size))
             && Window(i, n) !in windows ==>
               exists v :: v in windows && Overlap(v, Window(i, n)) && Outranks(v, Window(i, n)))
  }

  // ---------- The loops ----------

  function LongestTerm(entries: Entries): (n: nat)
    ensures forall term :: term in entries ==> |term| <= n
    decreases |entries|
  {
    if entries == map[] then 0
    else
      assert entries.Keys != {};
      var lengths := set term | term in entries :: |term|;
      assert lengths != {} by { var term :| term in entries; assert |term| in lengths; }
      assert forall term :: term in entries ==> |term| in lengths;
      First(lengths, (a: int, b: int) => a > b)
  }

  /** Whether some chosen window overlaps this one, asked of their spans. */
  lemma TakenIffOverlapped(
    text: string, tokens: seq<Token>, entries: Entries, windows: seq<Window>, taken: seq<(nat, nat)>, w: Window)
    requires Orderly(text, tokens) && InVocabulary(tokens, entries, w)
    requires |taken| == |windows|
    requires forall i :: 0 <= i < |windows| ==>
               InVocabulary(tokens, entries, windows[i]) && taken[i] == Span(tokens, windows[i])
    ensures (exists s :: s in taken && SpansOverlap(Span(tokens, w), s))
       <==> exists i :: 0 <= i < |windows| && Overlap(windows[i], w)
  {
    hide InVocabulary, SpansOverlap, Overlap;
    VocabularyBounds(tokens, entries, w);
    forall i | 0 <= i < |windows|
      ensures SpansOverlap(Span(tokens, w), taken[i]) <==> Overlap(windows[i], w)
    {
      VocabularyBounds(tokens, entries, windows[i]);
      SpansOverlapIffWindowsDo(text, tokens, w, windows[i]);
      OverlapIsSymmetric(w, windows[i]);
    }
    if s :| s in taken && SpansOverlap(Span(tokens, w), s) {
      var i :| 0 <= i < |taken| && taken[i] == s;
      assert Overlap(windows[i], w);
    }
    if i :| 0 <= i < |windows| && Overlap(windows[i], w) {
      assert taken[i] in taken;
    }
  }

  lemma VocabularyBounds(tokens: seq<Token>, entries: Entries, w: Window)
    requires InVocabulary(tokens, entries, w)
    ensures w.size >= 1 && w.index + w.size <= |tokens|
  {
  }

  lemma OverlapIsSymmetric(w: Window, v: Window)
    ensures Overlap(w, v) <==> Overlap(v, w)
  {
  }

  /** Passing a window that is not in the vocabulary, or is overlapped. */
  lemma DecidedBySkipping(tokens: seq<Token>, entries: Entries, windows: seq<Window>, size: nat, index: nat)
    requires Decided(tokens, entries, windows, size, index)
    requires InVocabulary(tokens, entries, Window(index, size)) ==>
               exists i :: 0 <= i < |windows| && Overlap(windows[i], Window(index, size))
    ensures Decided(tokens, entries, windows, size, index + 1)
  {
    hide InVocabulary, Overlap;
    if InVocabulary(tokens, entries, Window(index, size)) {
      var k :| 0 <= k < |windows| && Overlap(windows[k], Window(index, size));
      assert windows[k] in windows;
    }
    forall i, n | 0 <= i < |tokens| && 1 <= n <= |tokens|
                  && InVocabulary(tokens, entries, Window(i, n)) && Outranks(Window(i, n), Window(index + 1, size))
                  && Window(i, n) !in windows
      ensures exists v :: v in windows && Overlap(v, Window(i, n)) && Outranks(v, Window(i, n))
    {
      if !Outranks(Window(i, n), Window(index, size)) { assert Window(i, n) == Window(index, size); }
    }
  }

  /** Taking a window no chosen one overlaps. */
  lemma DecidedByTaking(tokens: seq<Token>, entries: Entries, windows: seq<Window>, size: nat, index: nat)
    requires Decided(tokens, entries, windows, size, index)
    ensures Decided(tokens, entries, windows + [Window(index, size)], size, index + 1)
  {
    hide InVocabulary, Overlap;
    var more := windows + [Window(index, size)];
    assert more[|windows|] == Window(index, size) && Window(index, size) in more;
    assert forall w :: w in windows ==> w in more;
    forall i, n | 0 <= i < |tokens| && 1 <= n <= |tokens|
                  && InVocabulary(tokens, entries, Window(i, n)) && Outranks(Window(i, n), Window(index + 1, size))
                  && Window(i, n) !in more
      ensures exists v :: v in more && Overlap(v, Window(i, n)) && Outranks(v, Window(i, n))
    {
      assert Window(i, n) != Window(index, size);
      var v :| v in windows && Overlap(v, Window(i, n)) && Outranks(v, Window(i, n));
      assert v in more;
    }
  }

  /** The end of one size is the start of the next smaller. */
  lemma DecidedNextSize(tokens: seq<Token>, entries: Entries, windows: seq<Window>, size: nat, index: nat)
    requires Decided(tokens, entries, windows, size, index)
    requires size >= 1 && index + size > |tokens|
    ensures Decided(tokens, entries, windows, size - 1, 0)
  {
    hide Overlap;
  }

  lemma DecidedIsGreedy(text: string, tokens: seq<Token>, entries: Entries, windows: seq<Window>, found: seq<Mention>)
    requires Orderly(text, tokens) && Finds(text, tokens, entries, windows, found)
    requires Decided(tokens, entries, windows, 0, 0)
    ensures IsGreedyAnswer(tokens, entries, set w | w in windows)
  {
    hide InVocabulary, Overlap;
    var chosen := set w | w in windows;
    forall w, v | w in chosen && v in chosen && w != v ensures !Overlap(w, v) {
      var i :| 0 <= i < |windows| && windows[i] == w;
      var j :| 0 <= j < |windows| && windows[j] == v;
      OverlapIsSymmetric(w, v);
      if i < j { assert !Overlap(windows[i], windows[j]); } else { assert !Overlap(windows[j], windows[i]); }
    }
    forall index, size | 0 <= index < |tokens| && 1 <= size <= |tokens|
                         && InVocabulary(tokens, entries, Window(index, size)) && Window(index, size) !in chosen
      ensures exists v :: v in chosen && Overlap(v, Window(index, size)) && Outranks(v, Window(index, size))
    {
      var v :| v in windows && Overlap(v, Window(index, size)) && Outranks(v, Window(index, size));
      assert v in chosen;
    }
  }

  /** Mentions and the windows they came from, in source order. */
  ghost predicate InOrder(
    text: string, tokens: seq<Token>, entries: Entries, ordered: seq<Window>, sorted: seq<Mention>)
    requires Orderly(text, tokens)
  {
    && |sorted| == |ordered|
    && (forall i :: 0 <= i < |sorted| ==>
          InVocabulary(tokens, entries, ordered[i]) && sorted[i] == MentionOf(text, tokens, entries, ordered[i]))
    && (forall i, j :: 0 <= i < j < |ordered| ==> ordered[i].index < ordered[j].index)
  }

  lemma MentionsInOrder(text: string, tokens: seq<Token>, entries: Entries, v: Window, w: Window)
    requires Orderly(text, tokens) && InVocabulary(tokens, entries, v) && InVocabulary(tokens, entries, w)
    requires !Overlap(v, w)
    ensures v.index != w.index
    ensures MentionOf(text, tokens, entries, v).start < MentionOf(text, tokens, entries, w).start
       <==> v.index < w.index
  {
    hide Overlap, Orderly;
    StartsInOrder(text, tokens, v, w);
  }

  /** Put one mention in its place among mentions it does not overlap. */
  method InsertBySpan(
    text: string, tokens: seq<Token>, ghost entries: Entries, ghost ordered: seq<Window>, sorted: seq<Mention>,
    ghost w: Window, mention: Mention)
    returns (sorted': seq<Mention>, ghost ordered': seq<Window>)
    requires Orderly(text, tokens) && InOrder(text, tokens, entries, ordered, sorted)
    requires InVocabulary(tokens, entries, w) && mention == MentionOf(text, tokens, entries, w)
    requires forall v :: v in ordered ==> !Overlap(v, w)
    ensures InOrder(text, tokens, entries, ordered', sorted')
    ensures forall v :: v in ordered' <==> v in ordered || v == w
  {
    hide InVocabulary, Overlap, Values, Orderly, MentionOf;
    var at := 0;
    while at < |sorted| && sorted[at].start < mention.start
      invariant 0 <= at <= |sorted|
      invariant forall i :: 0 <= i < at ==> sorted[i].start < mention.start
    {
      at := at + 1;
    }
    forall i | 0 <= i < |ordered|
      ensures sorted[i].start < mention.start <==> ordered[i].index < w.index
      ensures ordered[i].index != w.index
    {
      MentionsInOrder(text, tokens, entries, ordered[i], w);
    }
    InsertedWindows(ordered, at, w);
    sorted' := sorted[..at] + [mention] + sorted[at..];
    ordered' := ordered[..at] + [w] + ordered[at..];
  }

  /** Sort mentions by span, carrying along the windows they came from. */
  method SortBySpan(
    text: string, tokens: seq<Token>, ghost entries: Entries, ghost windows: seq<Window>, found: seq<Mention>)
    returns (sorted: seq<Mention>, ghost ordered: seq<Window>)
    requires Orderly(text, tokens) && Finds(text, tokens, entries, windows, found)
    ensures InOrder(text, tokens, entries, ordered, sorted)
    ensures forall w :: w in ordered <==> w in windows
  {
    hide InVocabulary, Overlap, MentionOf, InOrder, Orderly;
    sorted, ordered := [], [];
    NoneInOrder(text, tokens, entries);
    for n := 0 to |found|
      invariant InOrder(text, tokens, entries, ordered, sorted)
      invariant forall w :: w in ordered <==> w in windows[..n]
    {
      assert windows[..n + 1] == windows[..n] + [windows[n]];
      forall v | v in ordered ensures !Overlap(v, windows[n]) {
        var k :| 0 <= k < n && windows[k] == v;
      }
      sorted, ordered := InsertBySpan(text, tokens, entries, ordered, sorted, windows[n], found[n]);
    }
    assert windows[..|windows|] == windows;
  }

  lemma NoneInOrder(text: string, tokens: seq<Token>, entries: Entries)
    requires Orderly(text, tokens)
    ensures InOrder(text, tokens, entries, [], [])
  {
  }

  lemma InOrderAscends(
    text: string, tokens: seq<Token>, entries: Entries, ordered: seq<Window>, sorted: seq<Mention>)
    requires Orderly(text, tokens) && InOrder(text, tokens, entries, ordered, sorted)
    ensures Ascending(ordered, Earlier)
  {
  }

  lemma InsertedWindows(ordered: seq<Window>, at: nat, w: Window)
    requires at <= |ordered|
    ensures forall v :: v in ordered[..at] + [w] + ordered[at..] <==> v in ordered || v == w
  {
    assert ordered == ordered[..at] + ordered[at..];
  }

  lemma StartsInOrder(text: string, tokens: seq<Token>, v: Window, w: Window)
    requires Orderly(text, tokens)
    requires v.size >= 1 && v.index + v.size <= |tokens|
    requires w.size >= 1 && w.index + w.size <= |tokens|
    requires !Overlap(v, w)
    ensures v.index != w.index
    ensures tokens[v.index].start < tokens[w.index].start <==> v.index < w.index
  {
    if v.index < w.index { assert tokens[v.index].end <= tokens[w.index].start; }
    if w.index < v.index { assert tokens[w.index].end <= tokens[v.index].start; }
  }

  /** The two lists the loops grow describe the same windows. */
  ghost predicate Grown(
    text: string, tokens: seq<Token>, entries: Entries,
    windows: seq<Window>, found: seq<Mention>, taken: seq<(nat, nat)>)
    requires Orderly(text, tokens)
  {
    && Finds(text, tokens, entries, windows, found)
    && |taken| == |windows|
    && forall i :: 0 <= i < |taken| ==> taken[i] == (found[i].start, found[i].end)
  }

  lemma GrowsByOne(
    text: string, tokens: seq<Token>, entries: Entries,
    windows: seq<Window>, found: seq<Mention>, taken: seq<(nat, nat)>, w: Window)
    requires Orderly(text, tokens) && Grown(text, tokens, entries, windows, found, taken)
    requires InVocabulary(tokens, entries, w)
    ensures (exists s :: s in taken && SpansOverlap(Span(tokens, w), s))
       <==> exists i :: 0 <= i < |windows| && Overlap(windows[i], w)
    ensures !(exists s :: s in taken && SpansOverlap(Span(tokens, w), s)) ==>
              Grown(text, tokens, entries, windows + [w],
                    found + [MentionOf(text, tokens, entries, w)], taken + [Span(tokens, w)])
  {
    hide Overlap, SpansOverlap, Values, Orderly;
    TakenSpans(text, tokens, entries, windows, found, taken);
    TakenIffOverlapped(text, tokens, entries, windows, taken, w);
  }

  /** Every window of one size, from the left. */
  method ScanSize(
    text: string, tokens: seq<Token>, entries: Entries, size: nat,
    ghost windows: seq<Window>, found: seq<Mention>, taken: seq<(nat, nat)>)
    returns (ghost windows': seq<Window>, found': seq<Mention>, taken': seq<(nat, nat)>)
    requires Orderly(text, tokens) && size >= 1
    requires Grown(text, tokens, entries, windows, found, taken)
    requires Decided(tokens, entries, windows, size, 0)
    ensures Grown(text, tokens, entries, windows', found', taken')
    ensures Decided(tokens, entries, windows', size - 1, 0)
  {
    hide Decided, Overlap, Grown, Orderly;
    windows', found', taken' := windows, found, taken;
    var index := 0;
    while index + size <= |tokens|
      invariant Decided(tokens, entries, windows', size, index)
      invariant Grown(text, tokens, entries, windows', found', taken')
    {
      ghost var w := Window(index, size);
      var term := Values(tokens[index..index + size]);
      if term in entries {
        var span := (tokens[index].start, tokens[index + size - 1].end);
        assert InVocabulary(tokens, entries, w) && span == Span(tokens, w);
        GrowsByOne(text, tokens, entries, windows', found', taken', w);
        if exists s :: s in taken' && SpansOverlap(span, s) {
          DecidedBySkipping(tokens, entries, windows', size, index);
        } else {
          StartsBeforeEnds(text, tokens, index, index + size - 1);
          SpanInText(text, tokens, index, size);
          var entry := entries[term];
          taken' := taken' + [span];
          found' := found' + [Mention(text[span.0..span.1], entry.form, span.0, span.1, entry.concept)];
          DecidedByTaking(tokens, entries, windows', size, index);
          windows' := windows' + [w];
        }
      } else {
        assert !InVocabulary(tokens, entries, w);
        DecidedBySkipping(tokens, entries, windows', size, index);
      }
      index := index + 1;
    }
    DecidedNextSize(tokens, entries, windows', size, index);
  }

  lemma SpanInText(text: string, tokens: seq<Token>, index: nat, size: nat)
    requires Orderly(text, tokens) && size >= 1 && index + size <= |tokens|
    ensures tokens[index].start <= tokens[index + size - 1].end <= |text|
  {
    StartsBeforeEnds(text, tokens, index, index + size - 1);
  }

  /** Extract a text's mentions, or nothing when the vocabulary is inconsistent. The
      answer is the greedy one, reported in source order. */
  method ExtractMentions(lexer: Lexer, text: string, vocabulary: seq<Form>)
    returns (mentions: Option<seq<Mention>>, ghost entries: Entries, ghost chosen: set<Window>)
    requires Orderly(text, lexer.tokenize(text))
    ensures mentions.Some? <==> Consistent(lexer, vocabulary)
    ensures mentions.Some? ==>
              && EntriesOf(lexer, vocabulary, entries)
              && IsGreedyAnswer(lexer.tokenize(text), entries, chosen)
              && Reports(text, lexer.tokenize(text), entries, chosen, mentions.value)
  {
    hide Consistent, EntriesOf, Overlap, Decided, Orderly, Finds, Reports, Sorted;
    chosen, entries := {}, map[];
    var built := VocabularyEntries(lexer, vocabulary);
    if built.None? { return None, entries, chosen; }
    entries := built.value;
    var tokens := lexer.tokenize(text);
    ghost var windows: seq<Window> := [];
    var found: seq<Mention> := [];
    var taken: seq<(nat, nat)> := [];
    var size: nat := LongestTerm(built.value);
    NothingDecided(tokens, entries, size);
    NothingGrown(text, tokens, entries);
    while size > 0
      invariant Decided(tokens, entries, windows, size, 0)
      invariant Grown(text, tokens, entries, windows, found, taken)
    {
      windows, found, taken := ScanSize(text, tokens, built.value, size, windows, found, taken);
      size := size - 1;
    }
    DecidedIsGreedy(text, tokens, entries, windows, found);
    chosen := set w | w in windows;
    var sorted, ordered := SortBySpan(text, tokens, entries, windows, found);
    SortedIsReported(text, tokens, entries, chosen, ordered, sorted);
    mentions := Some(sorted);
  }

  lemma NothingGrown(text: string, tokens: seq<Token>, entries: Entries)
    requires Orderly(text, tokens)
    ensures Grown(text, tokens, entries, [], [], [])
  {
  }

  lemma SortedIsReported(
    text: string, tokens: seq<Token>, entries: Entries, chosen: set<Window>, ordered: seq<Window>, sorted: seq<Mention>)
    requires Orderly(text, tokens) && InOrder(text, tokens, entries, ordered, sorted)
    requires forall w :: w in ordered <==> w in chosen
    requires forall w :: w in chosen ==> InVocabulary(tokens, entries, w)
    ensures Reports(text, tokens, entries, chosen, sorted)
  {
    hide InVocabulary, Orderly, MentionOf, Earlier, StrictTotal, Sorted;
    EarlierIsTotal();
    InOrderAscends(text, tokens, entries, ordered, sorted);
    AscendingIsUnique(ordered, Sorted(chosen, Earlier), Earlier);
  }

  lemma NothingDecided(tokens: seq<Token>, entries: Entries, longest: nat)
    requires forall term :: term in entries ==> |term| <= longest
    ensures Decided(tokens, entries, [], longest, 0)
  {
  }

  lemma TakenSpans(
    text: string, tokens: seq<Token>, entries: Entries, windows: seq<Window>, found: seq<Mention>,
    taken: seq<(nat, nat)>)
    requires Orderly(text, tokens) && Finds(text, tokens, entries, windows, found)
    requires |taken| == |windows| && forall i :: 0 <= i < |taken| ==> taken[i] == (found[i].start, found[i].end)
    ensures forall i :: 0 <= i < |windows| ==>
              InVocabulary(tokens, entries, windows[i]) && taken[i] == Span(tokens, windows[i])
  {
    hide Overlap;
  }
}
