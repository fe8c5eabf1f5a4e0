/** Opaque storage keys: twelve random bytes in hexadecimal, the purpose, and an extension. */
module StorageKeys {
  import opened Base
  import opened Base64
  import opened Hexadecimal
  import opened UploadRules

  function Hex(buf: seq<byte>): (s: string) {
    if buf == [] then ""
    else Hex(buf[..|buf| - 1]) + [HexDigit(buf[|buf| - 1] / 16), HexDigit(buf[|buf| - 1] % 16)]
  }

  /** Two digits for each byte. */
  lemma {:induction false} HexReads(buf: seq<byte>)
    ensures |Hex(buf)| == 2 * |buf|
    ensures forall i :: 0 <= i < |buf| ==>
              && HexValue(Hex(buf)[2 * i]) == Some(buf[i] / 16)
              && HexValue(Hex(buf)[2 * i + 1]) == Some(buf[i] % 16)
  {
    if buf != [] {
      HexReads(buf[..|buf| - 1]);
    }
  }

  function PurposeName(purpose: Purpose): string {
    match purpose
    case Avatar => "avatar"
    case Post => "post"
  }

  function Suffix(purpose: Purpose, ext: string): string {
    "/" + PurposeName(purpose) + "." + ext
  }

  function NewKey(buf: seq<byte>, purpose: Purpose, ext: string): string {
    "uploads/" + (Hex(buf) + Suffix(purpose, ext))
  }

  /** A key reads uploads/, two hexadecimal digits for each byte, the purpose, the extension. */
  lemma KeySpells(buf: seq<byte>, purpose: Purpose, ext: string)
    ensures var key := NewKey(buf, purpose, ext);
            && |key| >= 8 + 2 * |buf|
            && key[..8] == "uploads/"
            && key[8 + 2 * |buf|..] == (if purpose == Avatar then "/avatar." else "/post.") + ext
            && forall i :: 0 <= i < |buf| ==>
                 && key[8 + 2 * i] == "0123456789abcdef"[buf[i] / 16]
                 && key[8 + 2 * i + 1] == "0123456789abcdef"[buf[i] % 16]
  {
    HexSpells(buf);
    SuffixSpells(purpose, ext);
    Prefixed("uploads/", Hex(buf), Suffix(purpose, ext));
  }

  lemma SuffixSpells(purpose: Purpose, ext: string)
    ensures Suffix(purpose, ext) == (if purpose == Avatar then "/avatar." else "/post.") + ext
  {
    match purpose {
      case Avatar => assert "/" + "avatar" + "." == "/avatar.";
      case Post => assert "/" + "post" + "." == "/post.";
    }
  }

  lemma Prefixed(head: string, middle: string, tail: string)
    ensures var s := head + (middle + tail);
            && s[..|head|] == head && s[|head| + |middle|..] == tail
            && forall i :: 0 <= i < |middle| ==> s[|head| + i] == middle[i]
  {
  }

  lemma {:induction false} HexSpells(buf: seq<byte>)
    ensures |Hex(buf)| == 2 * |buf|
    ensures forall i :: 0 <= i < |buf| ==>
              && Hex(buf)[2 * i] == "0123456789abcdef"[buf[i] / 16]
              && Hex(buf)[2 * i + 1] == "0123456789abcdef"[buf[i] % 16]
  {
    if buf != [] {
      HexSpells(buf[..|buf| - 1]);
      HexDigitsAreInOrder(buf[|buf| - 1] / 16);
      HexDigitsAreInOrder(buf[|buf| - 1] % 16);
    }
  }

  lemma HexIsInjective(a: seq<byte>, b: seq<byte>)
    requires Hex(a) == Hex(b)
    ensures a == b
  {
    HexReads(a);
    HexReads(b);
    forall i | 0 <= i < |a| ensures a[i] == b[i] {
      assert HexValue(Hex(a)[2 * i]) == HexValue(Hex(b)[2 * i]);
      assert HexValue(Hex(a)[2 * i + 1]) == HexValue(Hex(b)[2 * i + 1]);
    }
  }

  lemma SamePrefix(p: string, q: string, x: string, y: string)
    requires |p| == |q| && p + x == q + y
    ensures p == q && x == y
  {
    assert (p + x)[..|p|] == p && (q + y)[..|p|] == q;
    assert (p + x)[|p|..] == x && (q + y)[|p|..] == y;
  }

  lemma SuffixesAreDistinct(purpose: Purpose, ext: string, otherPurpose: Purpose, otherExt: string)
    requires Suffix(purpose, ext) == Suffix(otherPurpose, otherExt)
    ensures purpose == otherPurpose && ext == otherExt
  {
    assert Suffix(purpose, ext)[1] == Suffix(otherPurpose, otherExt)[1];
    var head := "/" + PurposeName(purpose) + ".";
    SamePrefix(head, head, ext, otherExt);
  }

  /** A key tells the bytes, the purpose and the extension it was made from. */
  lemma KeysAreDistinct(
      a: seq<byte>, purpose: Purpose, ext: string, b: seq<byte>, otherPurpose: Purpose, otherExt: string)
    requires |a| == |b|
    requires NewKey(a, purpose, ext) == NewKey(b, otherPurpose, otherExt)
    ensures a == b && purpose == otherPurpose && ext == otherExt
  {
    var x, y := Suffix(purpose, ext), Suffix(otherPurpose, otherExt);
    SamePrefix("uploads/", "uploads/", Hex(a) + x, Hex(b) + y);
    HexReads(a);
    HexReads(b);
    SamePrefix(Hex(a), Hex(b), x, y);
    HexIsInjective(a, b);
    SuffixesAreDistinct(purpose, ext, otherPurpose, otherExt);
  }
}
