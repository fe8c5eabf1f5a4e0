/** Identifiers: sixteen random bytes in lowercase base32 without padding. */
module Ids {
  import opened Base64

  /** a-z, then 2-7. */
  function Letter32(v: int): (c: char)
    requires 0 <= v < 32
    ensures Value32(c) == v && IdChar(c)
  {
    if v < 26 then (v + 97) as char else (v - 26 + 50) as char
  }

  function Value32(c: char): int {
    if 'a' <= c <= 'z' then c as int - 97 else c as int - 50 + 26
  }

  predicate IdChar(c: char) {
    'a' <= c <= 'z' || '2' <= c <= '7'
  }

  /** What NewID can produce. */
  predicate IsId(id: string) {
    |id| == 26 && forall i :: 0 <= i < |id| ==> IdChar(id[i])
  }

  function Group(a: byte, b: byte, c: byte, d: byte, e: byte): (s: string)
    ensures |s| == 8 && forall i :: 0 <= i < |s| ==> IdChar(s[i])
  {
    [Letter32(a / 8), Letter32(a % 8 * 4 + b / 64), Letter32(b / 2 % 32), Letter32(b % 2 * 16 + c / 16),
     Letter32(c % 16 * 2 + d / 128), Letter32(d / 4 % 32), Letter32(d % 4 * 8 + e / 32), Letter32(e % 32)]
  }

  function Tail(a: byte): (s: string)
    ensures |s| == 2 && forall i :: 0 <= i < |s| ==> IdChar(s[i])
  {
    [Letter32(a / 8), Letter32(a % 8 * 4)]
  }

  /** The text of the sixteen bytes that NewID drew. */
  function NewID(buf: seq<byte>): (id: string)
    requires |buf| == 16
    ensures IsId(id)
    ensures |id| == 26 && forall c :: c in id ==> 'a' <= c <= 'z' || '2' <= c <= '7'
  {
    Group(buf[0], buf[1], buf[2], buf[3], buf[4]) +
    Group(buf[5], buf[6], buf[7], buf[8], buf[9]) +
    Group(buf[10], buf[11], buf[12], buf[13], buf[14]) +
    Tail(buf[15])
  }

  /** The five bytes a group of letters was made from. */
  function Ungroup(s: string): (bytes: seq<int>)
    requires |s| == 8
    ensures |bytes| == 5
  {
    [Value32(s[0]) * 8 + Value32(s[1]) / 4,
     Value32(s[1]) % 4 * 64 + Value32(s[2]) * 2 + Value32(s[3]) / 16,
     Value32(s[3]) % 16 * 16 + Value32(s[4]) / 2,
     Value32(s[4]) % 2 * 128 + Value32(s[5]) * 4 + Value32(s[6]) / 8,
     Value32(s[6]) % 8 * 32 + Value32(s[7])]
  }

  lemma FirstByte(a: byte, b: byte)
    ensures a / 8 * 8 + (a % 8 * 4 + b / 64) / 4 == a
  {
    assert (a % 8 * 4 + b / 64) / 4 == a % 8;
  }

  lemma SecondByte(a: byte, b: byte, c: byte)
    ensures (a % 8 * 4 + b / 64) % 4 * 64 + b / 2 % 32 * 2 + (b % 2 * 16 + c / 16) / 16 == b
  {
    assert (a % 8 * 4 + b / 64) % 4 == b / 64;
    assert (b % 2 * 16 + c / 16) / 16 == b % 2;
  }

  lemma ThirdByte(b: byte, c: byte, d: byte)
    ensures (b % 2 * 16 + c / 16) % 16 * 16 + (c % 16 * 2 + d / 128) / 2 == c
  {
    assert (b % 2 * 16 + c / 16) % 16 == c / 16;
    assert (c % 16 * 2 + d / 128) / 2 == c % 16;
  }

  lemma FourthByte(c: byte, d: byte, e: byte)
    ensures (c % 16 * 2 + d / 128) % 2 * 128 + d / 4 % 32 * 4 + (d % 4 * 8 + e / 32) / 8 == d
  {
    assert (c % 16 * 2 + d / 128) % 2 == d / 128;
    assert (d % 4 * 8 + e / 32) / 8 == d % 4;
  }

  lemma FifthByte(d: byte, e: byte)
    ensures (d % 4 * 8 + e / 32) % 8 * 32 + e % 32 == e
  {
    assert (d % 4 * 8 + e / 32) % 8 == e / 32;
  }

  lemma GroupRoundTrip(a: byte, b: byte, c: byte, d: byte, e: byte)
    ensures Ungroup(Group(a, b, c, d, e)) == [a, b, c, d, e]
  {
    FirstByte(a, b);
    SecondByte(a, b, c);
    ThirdByte(b, c, d);
    FourthByte(c, d, e);
    FifthByte(d, e);
  }

  lemma Slices(a: string, b: string, c: string, d: string)
    requires |a| == 8 && |b| == 8 && |c| == 8 && |d| == 2
    ensures var s := a + b + c + d; s[0..8] == a && s[8..16] == b && s[16..24] == c && s[24..] == d
  {
  }

  /** Group `k` of an identifier gives back the bytes it was made from. */
  lemma GroupIsRead(x: seq<byte>, k: nat)
    requires |x| == 16 && k < 3
    ensures Ungroup(NewID(x)[k * 8..k * 8 + 8]) == [x[k * 5], x[k * 5 + 1], x[k * 5 + 2], x[k * 5 + 3], x[k * 5 + 4]]
  {
    GroupRoundTrip(x[k * 5], x[k * 5 + 1], x[k * 5 + 2], x[k * 5 + 3], x[k * 5 + 4]);
    Slices(Group(x[0], x[1], x[2], x[3], x[4]), Group(x[5], x[6], x[7], x[8], x[9]),
           Group(x[10], x[11], x[12], x[13], x[14]), Tail(x[15]));
    assert k == 0 || k == 1 || k == 2;
  }

  lemma TailIsRead(x: seq<byte>)
    requires |x| == 16
    ensures Value32(NewID(x)[24]) * 8 + Value32(NewID(x)[25]) / 4 == x[15]
  {
    assert NewID(x)[24..] == Tail(x[15]);
    assert NewID(x)[24] == NewID(x)[24..][0] && NewID(x)[25] == NewID(x)[24..][1];
  }

  lemma SameGroupSameBytes(x: seq<byte>, y: seq<byte>, k: nat)
    requires |x| == 16 && |y| == 16 && NewID(x) == NewID(y) && k < 3
    ensures x[k * 5] == y[k * 5] && x[k * 5 + 1] == y[k * 5 + 1] && x[k * 5 + 2] == y[k * 5 + 2]
    ensures x[k * 5 + 3] == y[k * 5 + 3] && x[k * 5 + 4] == y[k * 5 + 4]
  {
    GroupIsRead(x, k);
    GroupIsRead(y, k);
    var bytes := Ungroup(NewID(x)[k * 8..k * 8 + 8]);
    assert bytes[0] == x[k * 5] && bytes[1] == x[k * 5 + 1] && bytes[2] == x[k * 5 + 2];
    assert bytes[0] == y[k * 5] && bytes[1] == y[k * 5 + 1] && bytes[2] == y[k * 5 + 2];
  }

  lemma SameTailSameByte(x: seq<byte>, y: seq<byte>)
    requires |x| == 16 && |y| == 16 && NewID(x) == NewID(y)
    ensures x[15] == y[15]
  {
    TailIsRead(x);
    TailIsRead(y);
  }

  /** Different draws give different identifiers. */
  lemma NewIDIsInjective(x: seq<byte>, y: seq<byte>)
    requires |x| == 16 && |y| == 16 && NewID(x) == NewID(y)
    ensures x == y
  {
    SameGroupSameBytes(x, y, 0);
    SameGroupSameBytes(x, y, 1);
    SameGroupSameBytes(x, y, 2);
    SameTailSameByte(x, y);
    SixteenBytes(x, y);
  }

  lemma SixteenBytes(x: seq<byte>, y: seq<byte>)
    requires |x| == 16 && |y| == 16
    requires x[0] == y[0] && x[1] == y[1] && x[2] == y[2] && x[3] == y[3] && x[4] == y[4]
    requires x[5] == y[5] && x[6] == y[6] && x[7] == y[7] && x[8] == y[8] && x[9] == y[9]
    requires x[10] == y[10] && x[11] == y[11] && x[12] == y[12] && x[13] == y[13] && x[14] == y[14]
    requires x[15] == y[15]
    ensures x == y
  {
  }

  // ----- What an identifier says -----

  /** Table 3 of RFC 4648 in lower case. */
  const ALPHABET32 := Range('a', 'z') + Range('2', '7')

  lemma LettersAreInOrder32(v: int)
    requires 0 <= v < 32
    ensures |ALPHABET32| == 32 && ALPHABET32[v] == Letter32(v) && Value32(ALPHABET32[v]) == v
  {
  }

  /** Letters as one number, the first leading. */
  function Spelled32(s: string): int {
    if s == "" then 0 else Spelled32(s[..|s| - 1]) * 32 + Value32(s[|s| - 1])
  }

  lemma EightLetters(s: string)
    requires |s| == 8
    ensures Spelled32(s) ==
            ((((((Value32(s[0]) * 32 + Value32(s[1])) * 32 + Value32(s[2])) * 32 + Value32(s[3])) * 32
              + Value32(s[4])) * 32 + Value32(s[5])) * 32 + Value32(s[6])) * 32 + Value32(s[7])
  {
    assert s[..7][..6] == s[..6] && s[..6][..5] == s[..5] && s[..5][..4] == s[..4];
    assert s[..4][..3] == s[..3] && s[..3][..2] == s[..2] && s[..2][..1] == s[..1] && s[..1][..0] == "";
    assert Spelled32(s[..1]) == Value32(s[0]);
    assert Spelled32(s[..2]) == Value32(s[0]) * 32 + Value32(s[1]);
    assert Spelled32(s[..3]) == Spelled32(s[..2]) * 32 + Value32(s[2]);
    assert Spelled32(s[..4]) == Spelled32(s[..3]) * 32 + Value32(s[3]);
    assert Spelled32(s[..5]) == Spelled32(s[..4]) * 32 + Value32(s[4]);
    assert Spelled32(s[..6]) == Spelled32(s[..5]) * 32 + Value32(s[5]);
  }

  /** Eight letters make the number that their five bytes make. */
  lemma GroupIsBigEndian(a: byte, b: byte, c: byte, d: byte, e: byte)
    ensures Spelled32(Group(a, b, c, d, e)) == Word(Word(a, b, c), d, e)
  {
    EightLetters(Group(a, b, c, d, e));
    FortyBits(a, b, c, d, e);
  }

  lemma FortyBits(a: byte, b: byte, c: byte, d: byte, e: byte)
    ensures ((((((a / 8 * 32 + a % 8 * 4 + b / 64) * 32 + b / 2 % 32) * 32 + b % 2 * 16 + c / 16) * 32
              + c % 16 * 2 + d / 128) * 32 + d / 4 % 32) * 32 + d % 4 * 8 + e / 32) * 32 + e % 32
            == Word(Word(a, b, c), d, e)
  {
    assert b / 2 % 32 == b / 2 - b / 64 * 32;
    assert d / 4 % 32 == d / 4 - d / 128 * 32;
  }

  /** Letters 8k to 8k + 7 of an identifier are the number that bytes 5k to 5k + 4 make; the
      last two are the last byte and two zero bits. */
  lemma IdIsBigEndian(x: seq<byte>, k: nat)
    requires |x| == 16
    ensures k < 3 ==>
              Spelled32(NewID(x)[k * 8..k * 8 + 8]) ==
              Word(Word(x[k * 5], x[k * 5 + 1], x[k * 5 + 2]), x[k * 5 + 3], x[k * 5 + 4])
    ensures Spelled32(NewID(x)[24..]) == x[15] as int * 4
  {
    Slices(Group(x[0], x[1], x[2], x[3], x[4]), Group(x[5], x[6], x[7], x[8], x[9]),
           Group(x[10], x[11], x[12], x[13], x[14]), Tail(x[15]));
    GroupIsBigEndian(x[0], x[1], x[2], x[3], x[4]);
    GroupIsBigEndian(x[5], x[6], x[7], x[8], x[9]);
    GroupIsBigEndian(x[10], x[11], x[12], x[13], x[14]);
    var t := Tail(x[15]);
    assert t[..1][..0] == "" && Spelled32(t[..1]) == Value32(t[0]);
    assert Spelled32(t) == Value32(t[0]) * 32 + Value32(t[1]);
    assert k < 3 ==> k == 0 || k == 1 || k == 2;
  }
}
