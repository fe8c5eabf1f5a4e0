/** Base64 with padding (section 4 of RFC 4648), as Go's standard encoding decodes it: the
    bits left over in a padded block are not checked. */
module Base64 {
  import opened Base

  type byte = x: int | 0 <= x < 256

  /** The letter of a six-bit value. */
  function Letter(v: int): (c: char)
    requires 0 <= v < 64
    ensures ValueOf(c) == Some(v)
    ensures c == '+' <==> v == 62
    ensures c == '/' <==> v == 63
  {
    if v < 26 then (v + 65) as char
    else if v < 52 then (v - 26 + 97) as char
    else if v < 62 then (v - 52 + 48) as char
    else if v == 62 then '+' else '/'
  }

  function ValueOf(c: char): (v: Option<int>)
    ensures v.Some? ==> 0 <= v.value < 64
  {
    if 'A' <= c <= 'Z' then Some(c as int - 65)
    else if 'a' <= c <= 'z' then Some(c as int - 97 + 26)
    else if '0' <= c <= '9' then Some(c as int - 48 + 52)
    else if c == '+' then Some(62)
    else if c == '/' then Some(63)
    else None
  }

  function Block3(a: byte, b: byte, c: byte): string {
    [Letter(a / 4), Letter(a % 4 * 16 + b / 16), Letter(b % 16 * 4 + c / 64), Letter(c % 64)]
  }

  function Block2(a: byte, b: byte): string {
    [Letter(a / 4), Letter(a % 4 * 16 + b / 16), Letter(b % 16 * 4), '=']
  }

  function Block1(a: byte): string {
    [Letter(a / 4), Letter(a % 4 * 16), '=', '=']
  }

  function Encode(s: seq<byte>): string
    decreases |s|
  {
    if |s| == 0 then ""
    else if |s| == 1 then Block1(s[0])
    else if |s| == 2 then Block2(s[0], s[1])
    else Block3(s[0], s[1], s[2]) + Encode(s[3..])
  }

  /** The bytes of one block; padding is allowed only in the last one. */
  function DecodeBlock(a: char, b: char, c: char, d: char, last: bool): Option<seq<byte>> {
    match (ValueOf(a), ValueOf(b))
    case (Some(v), Some(w)) =>
      if last && c == '=' && d == '=' then Some([v * 4 + w / 16])
      else if last && d == '=' then
        match ValueOf(c)
        case Some(x) => Some([v * 4 + w / 16, w % 16 * 16 + x / 4])
        case None => None
      else (
        match (ValueOf(c), ValueOf(d))
        case (Some(x), Some(y)) => Some([v * 4 + w / 16, w % 16 * 16 + x / 4, x % 4 * 64 + y])
        case (_, _) => None)
    case (_, _) => None
  }

  function Decode(s: string): Option<seq<byte>>
    decreases |s|
  {
    if s == "" then Some([])
    else if |s| < 4 then None
    else
      match (DecodeBlock(s[0], s[1], s[2], s[3], |s| == 4), Decode(s[4..]))
      case (Some(front), Some(rest)) => Some(front + rest)
      case (_, _) => None
  }

  /** Cutting three bytes into four six-bit values loses nothing. */
  lemma SixBits(a: byte, b: byte, c: byte)
    ensures a / 4 * 4 + (a % 4 * 16 + b / 16) / 16 == a
    ensures (a % 4 * 16 + b / 16) % 16 * 16 + (b % 16 * 4 + c / 64) / 4 == b
    ensures (b % 16 * 4 + c / 64) % 4 * 64 + c % 64 == c
  {
    assert (a % 4 * 16 + b / 16) / 16 == a % 4 && (a % 4 * 16 + b / 16) % 16 == b / 16;
    assert (b % 16 * 4 + c / 64) / 4 == b % 16 && (b % 16 * 4 + c / 64) % 4 == c / 64;
  }

  lemma ThreeBytes(a: char, b: char, c: char, d: char, v: int, w: int, x: int, y: int, last: bool)
    requires 0 <= v < 64 && 0 <= w < 64 && 0 <= x < 64 && 0 <= y < 64
    requires ValueOf(a) == Some(v) && ValueOf(b) == Some(w) && ValueOf(c) == Some(x) && ValueOf(d) == Some(y)
    ensures DecodeBlock(a, b, c, d, last) == Some([v * 4 + w / 16, w % 16 * 16 + x / 4, x % 4 * 64 + y])
  {
  }

  lemma OneByte(a: char, b: char, v: int, w: int)
    requires 0 <= v < 64 && 0 <= w < 64 && ValueOf(a) == Some(v) && ValueOf(b) == Some(w)
    ensures DecodeBlock(a, b, '=', '=', true) == Some([v * 4 + w / 16])
  {
  }

  lemma TwoBytes(a: char, b: char, c: char, v: int, w: int, x: int)
    requires 0 <= v < 64 && 0 <= w < 64 && 0 <= x < 64
    requires ValueOf(a) == Some(v) && ValueOf(b) == Some(w) && ValueOf(c) == Some(x)
    ensures DecodeBlock(a, b, c, '=', true) == Some([v * 4 + w / 16, w % 16 * 16 + x / 4])
  {
  }

  lemma Block3RoundTrip(a: byte, b: byte, c: byte, last: bool)
    ensures var t := Block3(a, b, c); DecodeBlock(t[0], t[1], t[2], t[3], last) == Some([a, b, c])
  {
    SixBits(a, b, c);
    var t := Block3(a, b, c);
    ThreeBytes(t[0], t[1], t[2], t[3], a / 4, a % 4 * 16 + b / 16, b % 16 * 4 + c / 64, c % 64, last);
  }

  lemma Block2RoundTrip(a: byte, b: byte)
    ensures var t := Block2(a, b); DecodeBlock(t[0], t[1], t[2], t[3], true) == Some([a, b])
  {
    SixBits(a, b, 0);
    var t := Block2(a, b);
    TwoBytes(t[0], t[1], t[2], a / 4, a % 4 * 16 + b / 16, b % 16 * 4);
  }

  lemma Block1RoundTrip(a: byte)
    ensures var t := Block1(a); DecodeBlock(t[0], t[1], t[2], t[3], true) == Some([a])
  {
    SixBits(a, 0, 0);
    var t := Block1(a);
    OneByte(t[0], t[1], a / 4, a % 4 * 16);
  }

  /** Every byte string survives, at all three residues of its length. */
  lemma {:induction false} RoundTrip(s: seq<byte>)
    ensures Decode(Encode(s)) == Some(s)
    decreases |s|
  {
    if |s| >= 3 {
      Block3RoundTrip(s[0], s[1], s[2], s[3..] == []);
      RoundTrip(s[3..]);
      var t := Encode(s);
      assert t[4..] == Encode(s[3..]);
      assert s == [s[0], s[1], s[2]] + s[3..];
    } else if |s| == 2 {
      Block2RoundTrip(s[0], s[1]);
      var t := Encode(s);
      assert t == Block2(s[0], s[1]) && t[4..] == "" && |t| == 4;
      assert s == [s[0], s[1]] + [];
    } else if |s| == 1 {
      Block1RoundTrip(s[0]);
      var t := Encode(s);
      assert t == Block1(s[0]) && t[4..] == "" && |t| == 4;
      assert s == [s[0]] + [];
    }
  }

  /** An encoding is a whole number of four-letter blocks, and nothing but letters and '='. */
  lemma {:induction false} EncodingShape(s: seq<byte>)
    ensures |Encode(s)| == (|s| + 2) / 3 * 4
    ensures forall c :: c in Encode(s) ==> c == '=' || ValueOf(c).Some?
    decreases |s|
  {
    if |s| >= 3 {
      EncodingShape(s[3..]);
    }
  }

  /** A byte that cannot put 62 or 63 into any six-bit group. */
  predicate Quiet(b: byte) {
    b < 128 && b % 64 < 62
  }

  /** Quiet bytes never produce the two letters that the URL alphabet replaces. */
  lemma {:induction false} QuietBytesNeedNoEscape(s: seq<byte>)
    requires forall b :: b in s ==> Quiet(b)
    ensures '+' !in Encode(s) && '/' !in Encode(s)
    decreases |s|
  {
    if |s| >= 1 {
      assert Quiet(s[0]);
    }
    if |s| >= 2 {
      assert Quiet(s[1]);
    }
    if |s| >= 3 {
      assert Quiet(s[2]);
      QuietBytesNeedNoEscape(s[3..]);
    }
  }

  // ----- What the text says -----

  function Range(first: char, last: char): string
    requires first <= last < 128 as char
  {
    seq(last as int - first as int + 1,
        i requires 0 <= i <= last as int - first as int => (first as int + i) as char)
  }

  /** Table 1 of RFC 4648. */
  const ALPHABET := Range('A', 'Z') + Range('a', 'z') + Range('0', '9') + "+/"

  /** A letter stands for its place in the alphabet. */
  lemma LettersAreInOrder(v: int)
    requires 0 <= v < 64
    ensures |ALPHABET| == 64 && ALPHABET[v] == Letter(v) && ValueOf(ALPHABET[v]) == Some(v)
  {
  }

  lemma OnlyLettersHaveValues(c: char)
    ensures ValueOf(c).Some? <==> c in ALPHABET
    ensures ValueOf(c).Some? ==> Letter(ValueOf(c).value) == c
  {
    if ValueOf(c).Some? {
      LettersAreInOrder(ValueOf(c).value);
    } else if c in ALPHABET {
      var v :| 0 <= v < |ALPHABET| && ALPHABET[v] == c;
      LettersAreInOrder(v);
    }
  }

  /** Three bytes as one number, the first leading. */
  function Word(a: int, b: int, c: int): int {
    (a * 256 + b) * 256 + c
  }

  /** Four letters as one number, the first leading; '=' counts nothing. */
  function Spelled(t: string): Option<int> {
    if |t| != 4 || ValueOf(t[0]).None? || ValueOf(t[1]).None? then None
    else
      var high := (ValueOf(t[0]).value * 64 + ValueOf(t[1]).value) * 64;
      if t[2] == '=' && t[3] == '=' then Some(high * 64)
      else if ValueOf(t[2]).None? then None
      else if t[3] == '=' then Some((high + ValueOf(t[2]).value) * 64)
      else if ValueOf(t[3]).None? then None
      else Some((high + ValueOf(t[2]).value) * 64 + ValueOf(t[3]).value)
  }

  /** Byte `i`, or the zero bits that fill a short last block up. */
  function ByteAt(s: seq<byte>, i: nat): int {
    if i < |s| then s[i] else 0
  }

  lemma {:induction false} EncodingSplits(s: seq<byte>, k: nat)
    requires 3 * k <= |s|
    ensures 4 * k <= |Encode(s)| && Encode(s)[4 * k..] == Encode(s[3 * k..])
    decreases k
  {
    if k > 0 {
      EncodingSplits(s[3..], k - 1);
      assert s[3..][3 * (k - 1)..] == s[3 * k..];
      assert Encode(s)[4..] == Encode(s[3..]);
      assert Encode(s)[4..][4 * (k - 1)..] == Encode(s)[4 * k..];
    }
  }

  lemma EncodingStarts(s: seq<byte>)
    requires s != []
    ensures |Encode(s)| >= 4
    ensures var t := Encode(s)[..4];
            && Spelled(t) == Some(Word(s[0], ByteAt(s, 1), ByteAt(s, 2)))
            && (t[2] == '=' <==> |s| == 1) && (t[3] == '=' <==> |s| <= 2)
  {
    if |s| >= 3 {
      Block3Spells(s[0], s[1], s[2]);
      assert Encode(s)[..4] == Block3(s[0], s[1], s[2]);
    } else if |s| == 2 {
      Block2Spells(s[0], s[1]);
      assert Encode(s)[..4] == Block2(s[0], s[1]);
    } else {
      Block1Spells(s[0]);
      assert Encode(s)[..4] == Block1(s[0]);
    }
  }

  /** Every block of an encoding spells the number that its bytes make; a short last block is
      filled up with zero bits and padded. */
  lemma EncodingIsBigEndian(s: seq<byte>, k: nat)
    requires 3 * k < |s|
    ensures 4 * k + 4 <= |Encode(s)|
    ensures var t := Encode(s)[4 * k..][..4];
            && Spelled(t) == Some(Word(s[3 * k], ByteAt(s, 3 * k + 1), ByteAt(s, 3 * k + 2)))
            && (t[2] == '=' <==> |s| == 3 * k + 1)
            && (t[3] == '=' <==> |s| <= 3 * k + 2)
  {
    EncodingSplits(s, k);
    EncodingStarts(s[3 * k..]);
  }

  lemma Block3Spells(a: byte, b: byte, c: byte)
    ensures Spelled(Block3(a, b, c)) == Some(Word(a, b, c))
  {
    SixBits(a, b, c);
  }

  lemma Block2Spells(a: byte, b: byte)
    ensures Spelled(Block2(a, b)) == Some(Word(a, b, 0))
  {
    SixBits(a, b, 0);
  }

  lemma Block1Spells(a: byte)
    ensures Spelled(Block1(a)) == Some(Word(a, 0, 0))
  {
    SixBits(a, 0, 0);
  }

  /** A letter, or one of the one or two '=' that may end a text. */
  predicate Placed(s: string, i: nat)
    requires i < |s|
  {
    || s[i] in ALPHABET
    || (s[i] == '=' && (i == |s| - 1 || (i == |s| - 2 && s[|s| - 1] == '=')))
  }

  /** Whole blocks of letters, with one or two '=' allowed at the end. */
  predicate IsBase64(s: string) {
    |s| % 4 == 0 && forall i :: 0 <= i < |s| ==> Placed(s, i)
  }

  lemma FirstBlock(s: string)
    requires |s| >= 4
    ensures IsBase64(s) <==> IsBase64(s[4..]) && Placed(s, 0) && Placed(s, 1) && Placed(s, 2) && Placed(s, 3)
  {
    var rest := s[4..];
    if IsBase64(s) {
      forall i | 0 <= i < |rest| ensures Placed(rest, i) {
        assert Placed(s, i + 4) && rest[i] == s[i + 4];
      }
    }
    if IsBase64(rest) && Placed(s, 0) && Placed(s, 1) && Placed(s, 2) && Placed(s, 3) {
      forall i | 0 <= i < |s| ensures Placed(s, i) {
        if i >= 4 {
          assert Placed(rest, i - 4) && rest[i - 4] == s[i];
        }
      }
    }
  }

  /** Text decodes exactly when it is whole padded blocks of the alphabet. */
  lemma {:induction false} DecodesIff(s: string)
    ensures Decode(s).Some? <==> IsBase64(s)
    decreases |s|
  {
    if |s| >= 4 {
      DecodesIff(s[4..]);
      OnlyLettersHaveValues(s[0]);
      OnlyLettersHaveValues(s[1]);
      OnlyLettersHaveValues(s[2]);
      OnlyLettersHaveValues(s[3]);
      FirstBlock(s);
    }
  }

  /** Text that decodes is the encoding of what it decodes to, up to the spare bits of the
      letter before the padding. */
  lemma {:induction false} DecodedEncodesBack(s: string, i: nat)
    requires Decode(s).Some? && i < |s| && (i + 1 < |s| && s[i + 1] == '=' ==> s[i] == '=')
    ensures var t := Encode(Decode(s).value); |t| == |s| && t[i] == s[i]
    decreases |s|
  {
    if |s| == 4 {
      LastBlockEncodesBack(s);
    } else {
      FirstBlockEncodesBack(s);
      DecodedEncodesBack(s[4..], if i >= 4 then i - 4 else |s| - 5);
    }
  }

  lemma FirstBlockEncodesBack(s: string)
    requires |s| > 4 && Decode(s).Some?
    ensures Decode(s[4..]).Some?
    ensures Encode(Decode(s).value) == s[..4] + Encode(Decode(s[4..]).value)
  {
    FourLettersEncodeBack(s, false);
    OneBlockFirst(DecodeBlock(s[0], s[1], s[2], s[3], false).value, Decode(s[4..]).value);
  }

  lemma FourLettersEncodeBack(s: string, last: bool)
    requires |s| >= 4 && DecodeBlock(s[0], s[1], s[2], s[3], last).Some? && (last ==> s[3] != '=')
    ensures var front := DecodeBlock(s[0], s[1], s[2], s[3], last).value;
            |front| == 3 && Block3(front[0], front[1], front[2]) == s[..4]
  {
    var v := ValueAt(s, 0);
    var w := ValueAt(s, 1);
    var x := ValueAt(s, 2);
    var y := ValueAt(s, 3);
    LettersComeBack(v, w, x, y, last);
    assert s[..4] == [s[0], s[1], s[2], s[3]];
  }

  lemma ValueAt(s: string, i: nat) returns (v: int)
    requires i < |s| && ValueOf(s[i]).Some?
    ensures 0 <= v < 64 && s[i] == Letter(v)
  {
    OnlyLettersHaveValues(s[i]);
    v := ValueOf(s[i]).value;
  }

  lemma OneBlockFirst(front: seq<byte>, rest: seq<byte>)
    requires |front| == 3
    ensures Encode(front + rest) == Block3(front[0], front[1], front[2]) + Encode(rest)
  {
    assert (front + rest)[3..] == rest;
  }

  lemma LastBlockEncodesBack(s: string)
    requires |s| == 4 && Decode(s).Some?
    ensures var t := Encode(Decode(s).value);
            && |t| == 4 && t[0] == s[0] && t[3] == s[3]
            && (s[2] != '=' ==> t[1] == s[1]) && (s[3] != '=' || s[2] == '=' ==> t[2] == s[2])
  {
    var front := DecodeBlock(s[0], s[1], s[2], s[3], true).value;
    assert Decode(s[4..]) == Some([]) && front + [] == front;
    var v := ValueAt(s, 0);
    var w := ValueAt(s, 1);
    if s[3] != '=' {
      FourLettersEncodeBack(s, true);
      OneBlockFirst(front, []);
    } else if s[2] != '=' {
      var x := ValueAt(s, 2);
      ThreeLettersComeBack(v, w, x);
    } else {
      TwoLettersComeBack(v, w);
    }
  }

  lemma LettersComeBack(v: int, w: int, x: int, y: int, last: bool)
    requires 0 <= v < 64 && 0 <= w < 64 && 0 <= x < 64 && 0 <= y < 64
    ensures var front := DecodeBlock(Letter(v), Letter(w), Letter(x), Letter(y), last);
            front.Some? && |front.value| == 3 &&
            Block3(front.value[0], front.value[1], front.value[2]) == [Letter(v), Letter(w), Letter(x), Letter(y)]
  {
    ThreeBytes(Letter(v), Letter(w), Letter(x), Letter(y), v, w, x, y, last);
    BlockOfSixBits(v, w, x, y);
  }

  lemma BlockOfSixBits(v: int, w: int, x: int, y: int)
    requires 0 <= v < 64 && 0 <= w < 64 && 0 <= x < 64 && 0 <= y < 64
    ensures Block3(v * 4 + w / 16, w % 16 * 16 + x / 4, x % 4 * 64 + y) == [Letter(v), Letter(w), Letter(x), Letter(y)]
  {
    BytesOfSixBits(v, w, x, y);
  }

  lemma ThreeLettersComeBack(v: int, w: int, x: int)
    requires 0 <= v < 64 && 0 <= w < 64 && 0 <= x < 64
    ensures var front := DecodeBlock(Letter(v), Letter(w), Letter(x), '=', true);
            front.Some? && |front.value| == 2 && Block2(front.value[0], front.value[1])[..2] == [Letter(v), Letter(w)]
  {
    BytesOfSixBits(v, w, x, 0);
    TwoBytes(Letter(v), Letter(w), Letter(x), v, w, x);
  }

  lemma TwoLettersComeBack(v: int, w: int)
    requires 0 <= v < 64 && 0 <= w < 64
    ensures var front := DecodeBlock(Letter(v), Letter(w), '=', '=', true);
            front.Some? && |front.value| == 1 && Block1(front.value[0])[0] == Letter(v)
  {
    OneByte(Letter(v), Letter(w), v, w);
    assert (v * 4 + w / 16) / 4 == v;
  }

  /** Joining four six-bit values into three bytes loses nothing. */
  lemma BytesOfSixBits(v: int, w: int, x: int, y: int)
    requires 0 <= v < 64 && 0 <= w < 64 && 0 <= x < 64 && 0 <= y < 64
    ensures (v * 4 + w / 16) / 4 == v
    ensures (v * 4 + w / 16) % 4 * 16 + (w % 16 * 16 + x / 4) / 16 == w
    ensures (w % 16 * 16 + x / 4) % 16 * 4 + (x % 4 * 64 + y) / 64 == x
    ensures (x % 4 * 64 + y) % 64 == y
  {
  }
}
