/** A description's paragraphs: line splitting, trimming and joining, as the text
    operations the boilerplate rule is built from. */
module Paragraphs {
  import opened Texts

  /** The line boundaries `splitlines` recognises. A carriage return before a line
      feed reads as one more empty line here, which no paragraph comes from. */
  predicate Breaks(c: char) {
    || '\U{000A}' <= c <= '\U{000D}'
    || '\U{001C}' <= c <= '\U{001E}'
    || c == '\U{0085}' || c == '\U{2028}' || c == '\U{2029}'
  }

  /** What trimming removes: every boundary, and the blanks. */
  predicate Blank(c: char) {
    || Breaks(c)
    || c == '\U{0009}' || c == '\U{0020}' || c == '\U{001F}' || c == '\U{00A0}' || c == '\U{1680}'
    || '\U{2000}' <= c <= '\U{200A}'
    || c == '\U{202F}' || c == '\U{205F}' || c == '\U{3000}'
  }

  function Lines(text: string): (lines: seq<string>)
    ensures lines != []
    ensures forall i :: 0 <= i < |lines| ==> forall c :: c in lines[i] ==> !Breaks(c)
  {
    if text == [] then [[]]
    else
      var rest := Lines(text[1..]);
      if Breaks(text[0]) then [[]] + rest else [[text[0]] + rest[0]] + rest[1..]
  }

  function TrimLeft(s: string): (t: string)
    ensures t == [] || !Blank(t[0])
    ensures forall c :: c in t ==> c in s
  {
    if s == [] || !Blank(s[0]) then s else TrimLeft(s[1..])
  }

  function TrimRight(s: string): (t: string)
    ensures t == [] || !Blank(t[|t| - 1])
    ensures t <= s
  {
    if s == [] || !Blank(s[|s| - 1]) then s else TrimRight(s[..|s| - 1])
  }

  function Trim(s: string): (t: string)
    ensures t == [] || (!Blank(t[0]) && !Blank(t[|t| - 1]))
    ensures forall c :: c in t ==> c in s
  {
    TrimRight(TrimLeft(s))
  }

  /** One trimmed, unbroken, non-empty line. */
  predicate Clean(block: string) {
    && block != []
    && !Blank(block[0]) && !Blank(block[|block| - 1])
    && forall c :: c in block ==> !Breaks(c)
  }

  predicate AllClean(blocks: seq<string>) {
    forall i :: 0 <= i < |blocks| ==> Clean(blocks[i])
  }

  function Paragraph(line: string): (blocks: seq<string>)
    requires forall c :: c in line ==> !Breaks(c)
    ensures AllClean(blocks)
  {
    if Trim(line) == [] then [] else [Trim(line)]
  }

  function ParagraphsOf(lines: seq<string>): (blocks: seq<string>)
    requires forall i :: 0 <= i < |lines| ==> forall c :: c in lines[i] ==> !Breaks(c)
    ensures AllClean(blocks)
  {
    if lines == [] then [] else Paragraph(lines[0]) + ParagraphsOf(lines[1..])
  }

  /** A description's paragraphs. */
  function Blocks(description: string): (blocks: seq<string>)
    ensures AllClean(blocks)
  {
    ParagraphsOf(Lines(description))
  }

  /** One paragraph per line. */
  function Join(blocks: seq<string>): string {
    JoinWith(blocks, '\n')
  }

  lemma {:induction false} LinesOfUnbroken(s: string)
    requires forall c :: c in s ==> !Breaks(c)
    ensures Lines(s) == [s]
  {
    if s != [] {
      assert forall c :: c in s[1..] ==> c in s;
      LinesOfUnbroken(s[1..]);
      assert [s[0]] + s[1..] == s;
    }
  }

  lemma {:induction false} LinesOfFirst(s: string, rest: string)
    requires forall c :: c in s ==> !Breaks(c)
    ensures Lines(s + ['\n'] + rest) == [s] + Lines(rest)
  {
    if s == [] {
      assert ([] + ['\n'] + rest)[1..] == rest;
    } else {
      assert (s + ['\n'] + rest)[1..] == s[1..] + ['\n'] + rest;
      LinesOfFirst(s[1..], rest);
      assert [s[0]] + s[1..] == s;
    }
  }

  lemma CleanIsTrimmed(s: string)
    requires Clean(s)
    ensures Trim(s) == s
  {
  }

  /** Reading back joined paragraphs gives those paragraphs. */
  lemma {:induction false} BlocksOfJoin(blocks: seq<string>)
    requires AllClean(blocks)
    ensures Blocks(Join(blocks)) == blocks
  {
    if blocks == [] {
      assert Lines([]) == [[]];
      assert ParagraphsOf([[]]) == Paragraph([]) + ParagraphsOf([[]][1..]);
    } else if |blocks| == 1 {
      CleanIsTrimmed(blocks[0]);
      LinesOfUnbroken(blocks[0]);
      assert ParagraphsOf([blocks[0]]) == Paragraph(blocks[0]) + ParagraphsOf([blocks[0]][1..]);
      assert [blocks[0]][1..] == [];
    } else {
      CleanIsTrimmed(blocks[0]);
      BlocksOfJoin(blocks[1..]);
      LinesOfFirst(blocks[0], Join(blocks[1..]));
      assert ([blocks[0]] + Lines(Join(blocks[1..])))[1..] == Lines(Join(blocks[1..]));
    }
  }
}
