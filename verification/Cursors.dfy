/** Page cursors: the keyset position as JSON inside base64. */
module Cursors {
  import opened Base
  import opened Base64
  import opened Hexadecimal
  import opened Timestamps
  import opened Ids

  /** An identifier whose JSON string is itself between quotes: printable ASCII that JSON
      does not escape. Every identifier NewID produces is one. */
  predicate Plain(id: string) {
    forall i :: 0 <= i < |id| ==>
      ' ' <= id[i] <= '~' && id[i] !in "\"\\<>&"
  }

  predicate Ascii(s: string) {
    forall i :: 0 <= i < |s| ==> (s[i] as int) < 128
  }

  function ToBytes(s: string): (b: seq<byte>)
    requires Ascii(s)
    ensures |b| == |s| && forall i :: 0 <= i < |s| ==> b[i] == s[i] as int
  {
    seq(|s|, i requires 0 <= i < |s| => s[i] as int)
  }

  function ToText(b: seq<byte>): (s: string)
    ensures |s| == |b| && forall i :: 0 <= i < |s| ==> s[i] as int == b[i]
  {
    seq(|b|, i requires 0 <= i < |b| => b[i] as char)
  }

  const OPENING := "{\"createdAt\":\""
  const MIDDLE := ",\"id\":\""

  function Text(stamp: string, id: string): string {
    OPENING + stamp + "\"" + MIDDLE + id + "\"}"
  }

  lemma TextOfAsciiIsAscii(stamp: string, id: string)
    requires Ascii(stamp) && Ascii(id)
    ensures Ascii(Text(stamp, id))
  {
  }

  lemma StampCharsAreAscii(s: string)
    requires forall c :: c in s ==> StampChar(c)
    ensures Ascii(s)
  {
    assert forall i :: 0 <= i < |s| ==> s[i] in s;
  }

  lemma StampIsAscii(t: Time)
    requires Civil(t) && Expressible(t)
    ensures Ascii(Stamp(t))
  {
    StampAlphabet(t);
    StampCharsAreAscii(Stamp(t));
  }

  lemma TextIsAscii(t: Time, id: string)
    requires Civil(t) && Expressible(t) && Plain(id)
    ensures Ascii(Text(Stamp(t), id))
  {
    StampIsAscii(t);
    TextOfAsciiIsAscii(Stamp(t), id);
  }

  /** The cursor for a position. JSON refuses a year outside 0..9999, and then there is none. */
  function EncodeCursor(createdAt: Time, id: string): string
    requires Civil(createdAt) && Plain(id)
  {
    if !Expressible(createdAt) then ""
    else
      TextIsAscii(createdAt, id);
      Encode(ToBytes(Text(Stamp(createdAt), id)))
  }

  /** Foreign: text the service never writes, whose fate is the JSON library's to decide. */
  datatype Decoded = Position(createdAt: Time, id: string) | InvalidCursor | Foreign

  predicate StartsWith(s: string, prefix: string) {
    |prefix| <= |s| && s[..|prefix|] == prefix
  }

  /** What stands before the first quote, and after it. */
  function Cut(s: string): Option<(string, string)>
    decreases |s|
  {
    if s == "" then None
    else if s[0] == '"' then Some(("", s[1..]))
    else
      match Cut(s[1..])
      case None => None
      case Some((before, after)) => Some(([s[0]] + before, after))
  }

  function ParseText(s: string): Option<(string, string)> {
    if !StartsWith(s, OPENING) then None
    else
      match Cut(s[|OPENING|..])
      case None => None
      case Some((stamp, rest)) =>
        if !StartsWith(rest, MIDDLE) then None
        else
          match Cut(rest[|MIDDLE|..])
          case None => None
          case Some((id, end)) => if end == "}" then Some((stamp, id)) else None
  }

  function DecodeCursor(cursor: string): Decoded {
    if '\n' in cursor || '\r' in cursor then Foreign
    else
      match Decode(cursor)
      case None => InvalidCursor
      case Some(raw) =>
        match ParseText(ToText(raw))
        case None => Foreign
        case Some((stamp, id)) =>
          if !Plain(id) then Foreign
          else
            match ParseStamp(stamp)
            case None => Foreign
            case Some(createdAt) =>
              if id == "" || createdAt == ZERO then InvalidCursor
              else Position(createdAt, id)
  }

  // ----- Round trip -----

  lemma {:induction false} CutAtQuote(before: string, after: string)
    requires '"' !in before
    ensures Cut(before + "\"" + after) == Some((before, after))
    decreases |before|
  {
    var s := before + "\"" + after;
    if before == "" {
      assert s[1..] == after;
    } else {
      assert before == [before[0]] + before[1..];
      assert s[1..] == before[1..] + "\"" + after;
      CutAtQuote(before[1..], after);
    }
  }

  lemma TextParses(stamp: string, id: string)
    requires '"' !in stamp && '"' !in id
    ensures ParseText(Text(stamp, id)) == Some((stamp, id))
  {
    var s := Text(stamp, id);
    var rest := MIDDLE + id + "\"}";
    assert s[|OPENING|..] == stamp + "\"" + rest;
    CutAtQuote(stamp, rest);
    assert rest[|MIDDLE|..] == id + "\"" + "}";
    CutAtQuote(id, "}");
  }

  lemma TextSurvivesBytes(s: string)
    requires Ascii(s)
    ensures ToText(ToBytes(s)) == s
  {
  }

  lemma EncodingHasNoNewline(b: seq<byte>)
    ensures '\n' !in Encode(b) && '\r' !in Encode(b)
  {
    EncodingShape(b);
  }

  /** A cursor issued for any nonzero time JSON can express, and any identifier, is decoded to
      exactly that position. */
  lemma CursorRoundTrip(createdAt: Time, id: string)
    requires Civil(createdAt) && Expressible(createdAt) && createdAt != ZERO && Plain(id) && id != ""
    ensures DecodeCursor(EncodeCursor(createdAt, id)) == Position(createdAt, id)
    ensures EncodeCursor(createdAt, id) != ""
  {
    var text := Text(Stamp(createdAt), id);
    TextIsAscii(createdAt, id);
    RoundTrip(ToBytes(text));
    EncodingHasNoNewline(ToBytes(text));
    EncodingShape(ToBytes(text));
    TextSurvivesBytes(text);
    StampAlphabet(createdAt);
    TextParses(Stamp(createdAt), id);
    StampRoundTrip(createdAt);
  }

  // ----- What a cursor spells -----

  lemma {:induction false} CutRejoins(s: string)
    ensures Cut(s).None? <==> '"' !in s
    ensures Cut(s).Some? ==> s == Cut(s).value.0 + "\"" + Cut(s).value.1 && '"' !in Cut(s).value.0
    decreases |s|
  {
    if s != "" {
      assert s == [s[0]] + s[1..];
      if s[0] == '"' {
        assert s == "" + "\"" + s[1..];
      } else {
        CutRejoins(s[1..]);
      }
    }
  }

  lemma PrefixAndRest(s: string, prefix: string)
    requires StartsWith(s, prefix)
    ensures s == prefix + s[|prefix|..]
  {
  }

  lemma Regrouped(opening: string, stamp: string, quote: string, middle: string, id: string, end: string)
    ensures opening + (stamp + quote + (middle + (id + quote + end))) ==
            opening + stamp + quote + middle + id + (quote + end)
  {
  }

  lemma ParsedRejoins(s: string)
    requires ParseText(s).Some?
    ensures s == Text(ParseText(s).value.0, ParseText(s).value.1)
    ensures '"' !in ParseText(s).value.0
  {
    PrefixAndRest(s, OPENING);
    CutRejoins(s[|OPENING|..]);
    var (stamp, rest) := Cut(s[|OPENING|..]).value;
    PrefixAndRest(rest, MIDDLE);
    CutRejoins(rest[|MIDDLE|..]);
    var id := Cut(rest[|MIDDLE|..]).value.0;
    Regrouped(OPENING, stamp, "\"", MIDDLE, id, "}");
    assert "\"" + "}" == "\"}";
  }

  /** The text of a position, in base64: an object with the members createdAt and id. */
  ghost predicate Spells(cursor: string, stamp: string, id: string) {
    && '"' !in stamp
    && exists raw: seq<byte> ::
         && Decode(cursor) == Some(raw)
         && ToText(raw) == "{\"createdAt\":\"" + stamp + "\",\"id\":\"" + id + "\"}"
  }

  lemma TextIsAnObject(stamp: string, id: string)
    ensures Text(stamp, id) == "{\"createdAt\":\"" + stamp + "\",\"id\":\"" + id + "\"}"
  {
    assert OPENING + stamp + "\"" + MIDDLE == "{\"createdAt\":\"" + stamp + "\",\"id\":\"";
  }

  /** An issued cursor spells its position; a year that JSON cannot express has none. */
  lemma IssuedCursorSpells(createdAt: Time, id: string)
    requires Civil(createdAt) && Plain(id)
    ensures if Expressible(createdAt) then Spells(EncodeCursor(createdAt, id), Stamp(createdAt), id)
            else EncodeCursor(createdAt, id) == ""
  {
    if Expressible(createdAt) {
      var text := Text(Stamp(createdAt), id);
      TextIsAscii(createdAt, id);
      RoundTrip(ToBytes(text));
      TextSurvivesBytes(text);
      TextIsAnObject(Stamp(createdAt), id);
      StampAlphabet(createdAt);
    }
  }

  predicate OneLine(s: string) {
    '\n' !in s && '\r' !in s
  }

  /** Text that is not base64 is refused. */
  lemma NotBase64IsRefused(cursor: string)
    requires OneLine(cursor) && !IsBase64(cursor)
    ensures DecodeCursor(cursor) == InvalidCursor
  {
    DecodesIff(cursor);
  }

  /** What becomes of text that spells a position. */
  lemma SpelledIsDecoded(cursor: string, stamp: string, id: string)
    requires OneLine(cursor) && Spells(cursor, stamp, id) && Plain(id)
    ensures match ParseStamp(stamp)
            case None => DecodeCursor(cursor) == Foreign
            case Some(t) =>
              Civil(t) && DecodeCursor(cursor) == if id == "" || t == ZERO then InvalidCursor else Position(t, id)
  {
    TextIsAnObject(stamp, id);
    TextParses(stamp, id);
  }

  /** No other text yields a position. */
  lemma DecodedIsSpelled(cursor: string)
    requires DecodeCursor(cursor).Position?
    ensures OneLine(cursor) && Plain(DecodeCursor(cursor).id) && Civil(DecodeCursor(cursor).createdAt)
    ensures exists stamp ::
              && Spells(cursor, stamp, DecodeCursor(cursor).id)
              && ParseStamp(stamp) == Some(DecodeCursor(cursor).createdAt)
  {
    var raw := Decode(cursor).value;
    ParsedRejoins(ToText(raw));
    var stamp, id := ParseText(ToText(raw)).value.0, ParseText(ToText(raw)).value.1;
    TextIsAnObject(stamp, id);
    assert Spells(cursor, stamp, id);
  }

  // ----- The codec as a value -----

  /** How positions travel through a client. */
  datatype Codec = Codec(encode: (Time, string) -> string, decode: string -> Decoded)

  /** A position of a stored post: a nonzero time that JSON can express, and an identifier. */
  predicate Issuable(createdAt: Time, id: string) {
    Civil(createdAt) && Expressible(createdAt) && createdAt != ZERO && Plain(id) && id != ""
  }

  /** Every position of a stored post has a cursor, which is read back as that position. */
  ghost predicate Faithful(codec: Codec) {
    forall t, id :: Issuable(t, id) ==>
      codec.encode(t, id) != "" && codec.decode(codec.encode(t, id)) == Position(t, id)
  }

  function Encoded(createdAt: Time, id: string): string {
    if Civil(createdAt) && Plain(id) then EncodeCursor(createdAt, id) else ""
  }

  /** The codec that the service uses. */
  const STANDARD := Codec(Encoded, DecodeCursor)

  lemma StandardIsFaithful()
    ensures Faithful(STANDARD)
  {
    forall t, id | Issuable(t, id)
      ensures STANDARD.encode(t, id) != "" && STANDARD.decode(STANDARD.encode(t, id)) == Position(t, id)
    {
      CursorRoundTrip(t, id);
    }
  }

  /** The zero time and the empty identifier, and only they, are turned away. */
  lemma OnlyEmptyPositionsAreRefused(createdAt: Time, id: string)
    requires Civil(createdAt) && Expressible(createdAt) && Plain(id)
    ensures DecodeCursor(EncodeCursor(createdAt, id)) == InvalidCursor <==> (id == "" || createdAt == ZERO)
  {
    var text := Text(Stamp(createdAt), id);
    TextIsAscii(createdAt, id);
    RoundTrip(ToBytes(text));
    EncodingHasNoNewline(ToBytes(text));
    TextSurvivesBytes(text);
    StampAlphabet(createdAt);
    TextParses(Stamp(createdAt), id);
    StampRoundTrip(createdAt);
  }

  /** Different positions have different cursors. */
  lemma CursorsAreDistinct(s: Time, x: string, t: Time, y: string)
    requires Civil(s) && Expressible(s) && s != ZERO && Plain(x) && x != ""
    requires Civil(t) && Expressible(t) && t != ZERO && Plain(y) && y != ""
    requires EncodeCursor(s, x) == EncodeCursor(t, y)
    ensures s == t && x == y
  {
    CursorRoundTrip(s, x);
    CursorRoundTrip(t, y);
  }

  // ----- The cursor in a query string -----

  /** What a server reads for a query value the client sent as it stands: '+' is a space, and
      '%' introduces two hexadecimal digits. */
  function Unescape(s: string): Option<string>
    decreases |s|
  {
    if s == "" then Some("")
    else if s[0] == '%' then
      if |s| < 3 then None
      else
        match (HexValue(s[1]), HexValue(s[2]), Unescape(s[3..]))
        case (Some(h), Some(l), Some(rest)) => Some([(h * 16 + l) as char] + rest)
        case (_, _, _) => None
    else
      match Unescape(s[1..])
      case None => None
      case Some(rest) => Some([if s[0] == '+' then ' ' else s[0]] + rest)
  }

  lemma {:induction false} UnescapeLeavesAlone(s: string)
    requires '%' !in s && '+' !in s
    ensures Unescape(s) == Some(s)
    decreases |s|
  {
    if s != "" {
      UnescapeLeavesAlone(s[1..]);
      assert s == [s[0]] + s[1..];
    }
  }

  /** Text whose bytes are quiet. */
  predicate QuietText(s: string) {
    forall i :: 0 <= i < |s| ==> (s[i] as int) < 128 && (s[i] as int) % 64 < 62
  }

  lemma QuietPieces(stamp: string, id: string)
    requires QuietText(stamp) && QuietText(id)
    ensures QuietText(Text(stamp, id))
  {
  }

  lemma StampCharsAreQuiet(s: string)
    requires forall c :: c in s ==> StampChar(c)
    ensures QuietText(s)
  {
    forall i | 0 <= i < |s| ensures (s[i] as int) < 128 && (s[i] as int) % 64 < 62 {
      assert StampChar(s[i]);
    }
  }

  lemma IdsAreQuiet(id: string)
    requires IsId(id)
    ensures QuietText(id) && Plain(id)
  {
    forall i | 0 <= i < |id|
      ensures (id[i] as int) < 128 && (id[i] as int) % 64 < 62 && ' ' <= id[i] <= '~' && id[i] !in "\"\\<>&"
    {
      assert IdChar(id[i]);
    }
  }

  lemma IssuedTextIsQuiet(createdAt: Time, id: string)
    requires Civil(createdAt) && Expressible(createdAt) && IsId(id)
    ensures Plain(id) && QuietText(Text(Stamp(createdAt), id))
  {
    StampAlphabet(createdAt);
    StampCharsAreQuiet(Stamp(createdAt));
    IdsAreQuiet(id);
    QuietPieces(Stamp(createdAt), id);
  }

  /** A cursor issued for an identifier of this service contains neither '+' nor '/', although
      the standard alphabet has both, and so survives a query string unescaped. */
  lemma IssuedCursorsAreUrlSafe(createdAt: Time, id: string)
    requires Civil(createdAt) && IsId(id)
    ensures Plain(id)
    ensures var c := EncodeCursor(createdAt, id);
            '+' !in c && '/' !in c && '%' !in c && '&' !in c && Unescape(c) == Some(c)
  {
    IdsAreQuiet(id);
    if Expressible(createdAt) {
      IssuedTextIsQuiet(createdAt, id);
      QuietTextNeedsNoEscape(Text(Stamp(createdAt), id));
    }
    UnescapeLeavesAlone(EncodeCursor(createdAt, id));
  }

  lemma QuietTextNeedsNoEscape(s: string)
    requires QuietText(s)
    ensures Ascii(s)
    ensures var c := Encode(ToBytes(s)); '+' !in c && '/' !in c && '%' !in c && '&' !in c
  {
    QuietBytesNeedNoEscape(ToBytes(s));
    EncodingShape(ToBytes(s));
  }
}
