/** The opaque token a reader sends back: a position written out, and read again. */
module Cursor {
  import opened Texts
  import opened Wrappers
  import opened Base64

  const CURSOR_VERSION := "1"
  const SEPARATOR := '|'

  /** A date as it is written: an instant, with or without its time zone. */
  datatype Stamp = Stamp(instant: int, zoned: bool)

  datatype JobCursor = JobCursor(published: Option<Stamp>, id: nat)

  datatype Reason = NotReadable | NotAPosition | OtherOrdering | NoTimeZone

  datatype Decoded = Read(cursor: JobCursor) | Refused(reason: Reason)

  /** The text formats a cursor is built from. */
  datatype Formats = Formats(
    utf8: string -> seq<Byte>,
    readUtf8: seq<Byte> -> Option<string>,
    iso: Stamp -> string,
    readIso: string -> Option<Stamp>,
    hex: nat -> string,
    readHex: string -> Option<nat>)

  /** Each format reads back what it wrote, and neither dates nor identifiers are
      empty or contain the separator. */
  ghost predicate Faithful(f: Formats) {
    && (forall s :: f.readUtf8(f.utf8(s)) == Some(s))
    && (forall t :: f.readIso(f.iso(t)) == Some(t) && f.iso(t) != [] && SEPARATOR !in f.iso(t))
    && (forall j: nat :: f.readHex(f.hex(j)) == Some(j) && SEPARATOR !in f.hex(j))
  }

  function Split(text: string): (fields: seq<string>)
    ensures fields != []
  {
    if text == [] then [[]]
    else
      var rest := Split(text[1..]);
      if text[0] == SEPARATOR then [[]] + rest else [[text[0]] + rest[0]] + rest[1..]
  }

  lemma {:induction false} SplitOfPlain(field: string)
    requires SEPARATOR !in field
    ensures Split(field) == [field]
  {
    if field != [] {
      SplitOfPlain(field[1..]);
      assert [field[0]] + field[1..] == field;
    }
  }

  lemma {:induction false} SplitOfFirst(field: string, rest: string)
    requires SEPARATOR !in field
    ensures Split(field + [SEPARATOR] + rest) == [field] + Split(rest)
  {
    if field == [] {
      assert ([] + [SEPARATOR] + rest)[1..] == rest;
    } else {
      assert (field + [SEPARATOR] + rest)[1..] == field[1..] + [SEPARATOR] + rest;
      SplitOfFirst(field[1..], rest);
      assert [field[0]] + field[1..] == field;
    }
  }

  /** Splitting undoes joining for any fields free of the separator. */
  lemma {:induction false} SplitOfJoin(fields: seq<string>)
    requires fields != [] && forall i :: 0 <= i < |fields| ==> SEPARATOR !in fields[i]
    ensures Split(JoinWith(fields, SEPARATOR)) == fields
  {
    if |fields| == 1 {
      SplitOfPlain(fields[0]);
    } else {
      SplitOfJoin(fields[1..]);
      SplitOfFirst(fields[0], JoinWith(fields[1..], SEPARATOR));
    }
  }

  function Payload(f: Formats, cursor: JobCursor): string {
    var published := if cursor.published.Some? then f.iso(cursor.published.value) else [];
    JoinWith([CURSOR_VERSION, published, f.hex(cursor.id)], SEPARATOR)
  }

  function EncodeCursor(f: Formats, cursor: JobCursor): string {
    StripPadding(Encode(f.utf8(Payload(f, cursor))))
  }

  /** Everything unreadable is refused, each with its reason. */
  function DecodeCursor(f: Formats, token: string): Decoded {
    var bytes := Decode(RestorePadding(token));
    if bytes.None? then Refused(NotReadable)
    else
      var payload := f.readUtf8(bytes.value);
      if payload.None? then Refused(NotReadable)
      else
        var fields := Split(payload.value);
        if |fields| != 3 then Refused(NotAPosition)
        else if fields[0] != CURSOR_VERSION then Refused(OtherOrdering)
        else
          var published := if fields[1] != [] then f.readIso(fields[1]) else None;
          var id := f.readHex(fields[2]);
          if (fields[1] != [] && published.None?) || id.None? then Refused(NotAPosition)
          else if published.Some? && !published.value.zoned then Refused(NoTimeZone)
          else Read(JobCursor(published, id.value))
  }

  lemma PayloadSplits(f: Formats, cursor: JobCursor)
    requires Faithful(f)
    ensures Split(Payload(f, cursor))
         == [CURSOR_VERSION, if cursor.published.Some? then f.iso(cursor.published.value) else [], f.hex(cursor.id)]
  {
    var published := if cursor.published.Some? then f.iso(cursor.published.value) else [];
    var fields := [CURSOR_VERSION, published, f.hex(cursor.id)];
    assert SEPARATOR !in CURSOR_VERSION && SEPARATOR !in published && SEPARATOR !in f.hex(cursor.id);
    SplitOfJoin(fields);
  }

  /** A token reads back as the position it was written from if and only if the
      position is undated or its date carries a time zone; one without is refused for it. */
  lemma RoundTripIffZoned(f: Formats, cursor: JobCursor)
    requires Faithful(f)
    ensures DecodeCursor(f, EncodeCursor(f, cursor)) == Read(cursor)
       <==> (cursor.published.Some? ==> cursor.published.value.zoned)
    ensures cursor.published.Some? && !cursor.published.value.zoned ==>
              DecodeCursor(f, EncodeCursor(f, cursor)) == Refused(NoTimeZone)
  {
    var bytes := f.utf8(Payload(f, cursor));
    PaddingIsRestored(bytes);
    DecodeOfEncode(bytes);
    PayloadSplits(f, cursor);
  }

  /** How any token that was put together from fields is read: as a position only in this
      ordering, with an identifier, and undated or dated with a time zone; and refused for
      what is wrong with it. */
  lemma FieldsAreRead(f: Formats, fields: seq<string>)
    requires Faithful(f) && fields != [] && forall i :: 0 <= i < |fields| ==> SEPARATOR !in fields[i]
    ensures var read := DecodeCursor(f, StripPadding(Encode(f.utf8(JoinWith(fields, SEPARATOR)))));
      && (read == Refused(OtherOrdering) <==> |fields| == 3 && fields[0] != "1")
      && (read == Refused(NoTimeZone) <==>
            |fields| == 3 && fields[0] == "1" && f.readHex(fields[2]).Some?
            && exists at :: fields[1] != "" && f.readIso(fields[1]) == Some(Stamp(at, false)))
      && (forall c :: read == Read(c) <==>
            && |fields| == 3 && fields[0] == "1" && f.readHex(fields[2]) == Some(c.id)
            && if fields[1] == "" then c.published == None
               else c.published.Some? && c.published.value.zoned && f.readIso(fields[1]) == c.published)
      && read != Refused(NotReadable)
  {
    hide Encode, Decode, StripPadding, RestorePadding, Split, JoinWith;
    var bytes := f.utf8(JoinWith(fields, SEPARATOR));
    PaddingIsRestored(bytes);
    DecodeOfEncode(bytes);
    SplitOfJoin(fields);
    assert f.readUtf8(bytes) == Some(JoinWith(fields, SEPARATOR));
    if |fields| == 3 && f.readIso(fields[1]).Some? {
      assert f.readIso(fields[1]).value == Stamp(f.readIso(fields[1]).value.instant, f.readIso(fields[1]).value.zoned);
    }
  }

  /** Different positions have different tokens. */
  lemma TokensAreDistinct(f: Formats, a: JobCursor, b: JobCursor)
    requires Faithful(f)
    requires a.published.Some? ==> a.published.value.zoned
    requires EncodeCursor(f, a) == EncodeCursor(f, b)
    ensures a == b
  {
    RoundTripIffZoned(f, a);
    RoundTripIffZoned(f, b);
  }
}
