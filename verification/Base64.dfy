/** The URL-safe base64 of RFC 4648, section 5, with the padding taken off and put
    back by length. */
module Base64 {
  import opened Wrappers

  type Sextet = v: int | 0 <= v < 64

  function Digit(v: Sextet): char {
    if v < 26 then ('A' as int + v) as char
    else if v < 52 then ('a' as int + v - 26) as char
    else if v < 62 then ('0' as int + v - 52) as char
    else if v == 62 then '-'
    else '_'
  }

  /** The value of a digit. The reader maps the URL-safe pair onto the plain one first,
      so it accepts both spellings. */
  function Value(c: char): Option<Sextet> {
    if 'A' <= c <= 'Z' then Some(c as int - 'A' as int)
    else if 'a' <= c <= 'z' then Some(c as int - 'a' as int + 26)
    else if '0' <= c <= '9' then Some(c as int - '0' as int + 52)
    else if c == '-' || c == '+' then Some(62)
    else if c == '_' || c == '/' then Some(63)
    else None
  }

  lemma ValueOfDigit(v: Sextet)
    ensures Value(Digit(v)) == Some(v) && Digit(v) != '='
  {
  }

  /** Three bytes as four digits; one or two as two or three, padded. */
  function Group(g: seq<Byte>): (text: string)
    requires 1 <= |g| <= 3
    ensures |text| == 4
  {
    if |g| == 1 then [Digit(g[0] / 4), Digit(g[0] % 4 * 16), '=', '=']
    else if |g| == 2 then
      [Digit(g[0] / 4), Digit(g[0] % 4 * 16 + g[1] / 16), Digit(g[1] % 16 * 4), '=']
    else
      [Digit(g[0] / 4), Digit(g[0] % 4 * 16 + g[1] / 16), Digit(g[1] % 16 * 4 + g[2] / 64), Digit(g[2] % 64)]
  }

  function Encode(bytes: seq<Byte>): string {
    if bytes == [] then []
    else if |bytes| <= 3 then Group(bytes)
    else Group(bytes[..3]) + Encode(bytes[3..])
  }

  /** One group of four digits, the last one possibly padded. */
  function DecodeGroup(g: string, last: bool): Option<seq<Byte>>
    requires |g| == 4
  {
    var a, b, c, d := Value(g[0]), Value(g[1]), Value(g[2]), Value(g[3]);
    if a.None? || b.None? then None
    else if last && g[2] == '=' && g[3] == '=' then Some([a.value * 4 + b.value / 16])
    else if c.None? then None
    else if last && g[3] == '=' then
      Some([a.value * 4 + b.value / 16, b.value % 16 * 16 + c.value / 4])
    else if d.None? then None
    else Some([a.value * 4 + b.value / 16, b.value % 16 * 16 + c.value / 4, c.value % 4 * 64 + d.value])
  }

  /** Strict: whole groups of known digits, padding only at the very end. */
  function Decode(text: string): Option<seq<Byte>> {
    if text == [] then Some([])
    else if |text| < 4 then None
    else
      var first := DecodeGroup(text[..4], |text| == 4);
      var rest := Decode(text[4..]);
      if first.None? || rest.None? then None else Some(first.value + rest.value)
  }

  lemma GroupReadsBack(g: seq<Byte>, last: bool)
    requires 1 <= |g| <= 3 && (|g| == 3 || last)
    ensures DecodeGroup(Group(g), last) == Some(g)
  {
    hide Digit, Value;
    assert Value('=').None? by { PadIsNoDigit(); }
    ValueOfDigit(g[0] / 4);
    if |g| == 1 {
      ValueOfDigit(g[0] % 4 * 16);
      assert g == [g[0]];
    } else {
      ValueOfDigit(g[0] % 4 * 16 + g[1] / 16);
      if |g| == 2 {
        ValueOfDigit(g[1] % 16 * 4);
        assert g == [g[0], g[1]];
      } else {
        ValueOfDigit(g[1] % 16 * 4 + g[2] / 64);
        ValueOfDigit(g[2] % 64);
        assert g == [g[0], g[1], g[2]];
      }
    }
  }

  // The alphabet in order, a quarter at a time.
  const UPPER := "ABCDEFGHIJKLMNOPQRSTUVWXYZ"
  const LOWER := "abcdefghijklmnopqrstuvwxyz"
  const LAST := "0123456789-_"

  /** The digits are those of the URL-safe alphabet, in its order. */
  lemma DigitsOfTheAlphabet(v: Sextet)
    ensures |UPPER| == 26 && |LOWER| == 26 && |LAST| == 12
    ensures Digit(v) == if v < 26 then UPPER[v] else if v < 52 then LOWER[v - 26] else LAST[v - 52]
  {
  }

  /** Four digits are the number that three bytes are, most significant first; with fewer
      bytes, as if zeros followed. */
  lemma GroupIsTheNumber(g: seq<Byte>)
    requires 1 <= |g| <= 3
    ensures var text := Group(g);
      var a: int, b: int, c: int := g[0], if |g| > 1 then g[1] else 0, if |g| > 2 then g[2] else 0;
      var third := if text[2] == '=' then Some(0) else Value(text[2]);
      var fourth := if text[3] == '=' then Some(0) else Value(text[3]);
      && Value(text[0]).Some? && Value(text[1]).Some? && third.Some? && fourth.Some?
      && var first: int, second: int := Value(text[0]).value, Value(text[1]).value;
      && ((first * 64 + second) * 64 + third.value) * 64 + fourth.value == (a * 256 + b) * 256 + c
      && (text[2] == '=' <==> |g| == 1) && (text[3] == '=' <==> |g| < 3)
  {
    hide Digit, Value;
    ValueOfDigit(g[0] / 4);
    if |g| == 1 {
      ValueOfDigit(g[0] % 4 * 16);
    } else {
      ValueOfDigit(g[0] % 4 * 16 + g[1] / 16);
      if |g| == 2 {
        ValueOfDigit(g[1] % 16 * 4);
      } else {
        ValueOfDigit(g[1] % 16 * 4 + g[2] / 64);
        ValueOfDigit(g[2] % 64);
      }
    }
  }

  lemma PadIsNoDigit()
    ensures Value('=').None?
  {
  }

  lemma {:induction false} DecodeOfEncode(bytes: seq<Byte>)
    ensures Decode(Encode(bytes)) == Some(bytes)
    decreases |bytes|
  {
    if bytes != [] {
      hide Group, DecodeGroup;
      var text := Encode(bytes);
      if |bytes| <= 3 {
        GroupReadsBack(bytes, true);
        assert text[..4] == text && text[4..] == [];
        assert bytes + [] == bytes;
      } else {
        GroupReadsBack(bytes[..3], false);
        DecodeOfEncode(bytes[3..]);
        EncodingIsNotEmpty(bytes[3..]);
        assert text[..4] == Group(bytes[..3]) && text[4..] == Encode(bytes[3..]);
        assert bytes[..3] + bytes[3..] == bytes;
      }
    }
  }

  lemma EncodingIsNotEmpty(bytes: seq<Byte>)
    requires bytes != []
    ensures |Encode(bytes)| >= 4
  {
  }

  // ---------- Padding ----------

  function StripPadding(text: string): string {
    if text != [] && text[|text| - 1] == '=' then StripPadding(text[..|text| - 1]) else text
  }

  function Padding(n: nat): (p: string)
    ensures |p| == n
  {
    seq(n, i => '=')
  }

  /** As many signs as bring the length to a multiple of four. */
  function RestorePadding(token: string): string {
    token + Padding((4 - |token| % 4) % 4)
  }

  lemma {:induction false} StripOfPadded(body: string, n: nat)
    requires body == [] || body[|body| - 1] != '='
    ensures StripPadding(body + Padding(n)) == body
  {
    if n == 0 {
      assert body + Padding(0) == body;
    } else {
      assert (body + Padding(n))[..|body| + n - 1] == body + Padding(n - 1);
      StripOfPadded(body, n - 1);
    }
  }

  lemma GroupShape(g: seq<Byte>)
    requires 1 <= |g| <= 3
    ensures Group(g) == Group(g)[..|g| + 1] + Padding(3 - |g|)
    ensures Group(g)[|g|] != '='
  {
    hide Digit, Value;
    if |g| == 1 { ValueOfDigit(g[0] % 4 * 16); }
    else if |g| == 2 { ValueOfDigit(g[1] % 16 * 4); }
    else { ValueOfDigit(g[2] % 64); }
  }

  /** How much of an encoding is padding. */
  function PaddingOf(bytes: seq<Byte>): nat {
    if bytes == [] then 0 else if |bytes| <= 3 then 3 - |bytes| else PaddingOf(bytes[3..])
  }

  /** An encoding is whole groups: digits, then at most two padding signs. */
  lemma {:induction false} EncodingShape(bytes: seq<Byte>)
    ensures |Encode(bytes)| % 4 == 0 && PaddingOf(bytes) < 3 && PaddingOf(bytes) <= |Encode(bytes)|
    ensures var body := Encode(bytes)[..|Encode(bytes)| - PaddingOf(bytes)];
            && Encode(bytes) == body + Padding(PaddingOf(bytes))
            && (body == [] || body[|body| - 1] != '=')
    decreases |bytes|
  {
    hide Group;
    if bytes == [] {
      assert Encode(bytes) == Padding(0);
    } else if |bytes| <= 3 {
      GroupShape(bytes);
    } else {
      EncodingShape(bytes[3..]);
      EncodingIsNotEmpty(bytes[3..]);
      var head, rest, n := Group(bytes[..3]), Encode(bytes[3..]), PaddingOf(bytes[3..]);
      assert (head + rest)[..4 + |rest| - n] == head + rest[..|rest| - n];
    }
  }

  lemma PaddingCount(total: nat, n: nat)
    requires total % 4 == 0 && n < 4 && n <= total
    ensures (4 - (total - n) % 4) % 4 == n
  {
    var q := total / 4;
    assert total == 4 * q;
    if n > 0 { assert total - n == 4 * (q - 1) + (4 - n); }
  }

  /** The length alone tells how much padding was taken off. */
  lemma PaddingIsRestored(bytes: seq<Byte>)
    ensures RestorePadding(StripPadding(Encode(bytes))) == Encode(bytes)
  {
    hide Encode, PaddingOf, StripPadding, Padding;
    EncodingShape(bytes);
    var text, n := Encode(bytes), PaddingOf(bytes);
    StripOfPadded(text[..|text| - n], n);
    PaddingCount(|text|, n);
  }
}
