/** What may be uploaded, and what an uploaded object must turn out to be. */
module UploadRules {
  import opened Base

  datatype Purpose = Avatar | Post

  datatype Constraints = Constraints(maxBytes: int, minWidth: int, minHeight: int)

  const MEGABYTE: int := 1024 * 1024

  function ConstraintsFor(purpose: Purpose): Constraints {
    match purpose
    case Avatar => Constraints(5 * MEGABYTE, 200, 200)
    case Post => Constraints(10 * MEGABYTE, 320, 320)
  }

  // ----- Media types -----

  predicate IsSpace(c: char) {
    c == ' ' || '\t' <= c <= '\r'
  }

  function TrimLeft(s: string): string
    decreases |s|
  {
    if s != "" && IsSpace(s[0]) then TrimLeft(s[1..]) else s
  }

  function TrimRight(s: string): string
    decreases |s|
  {
    if s != "" && IsSpace(s[|s| - 1]) then TrimRight(s[..|s| - 1]) else s
  }

  function TrimSpace(s: string): string {
    TrimRight(TrimLeft(s))
  }

  function LowerChar(c: char): char {
    if 'A' <= c <= 'Z' then (c as int + 32) as char else c
  }

  function ToLower(s: string): (r: string)
    ensures |r| == |s| && forall i :: 0 <= i < |s| ==> r[i] == LowerChar(s[i])
  {
    seq(|s|, i requires 0 <= i < |s| => LowerChar(s[i]))
  }

  /** The part before the first semicolon. */
  function MediaType(s: string): string
    decreases |s|
  {
    if s == "" || s[0] == ';' then "" else [s[0]] + MediaType(s[1..])
  }

  function NormaliseContentType(raw: string): string {
    ToLower(TrimSpace(MediaType(raw)))
  }

  function ExtensionFor(contentType: string): Option<string> {
    var t := NormaliseContentType(contentType);
    if t == "image/jpeg" then Some("jpg")
    else if t == "image/png" then Some("png")
    else if t == "image/webp" then Some("webp")
    else None
  }

  function ParsePurpose(raw: string): Option<Purpose> {
    var p := TrimSpace(raw);
    if p == "avatar" then Some(Avatar) else if p == "post" then Some(Post) else None
  }

  /** Without spaces at either end. */
  predicate Tight(s: string) {
    s == "" || (!IsSpace(s[0]) && !IsSpace(s[|s| - 1]))
  }

  lemma {:induction false} TrimRightTightens(s: string)
    requires s == "" || !IsSpace(s[0])
    ensures Tight(TrimRight(s))
    ensures forall c :: c in TrimRight(s) ==> c in s
    decreases |s|
  {
    if s != "" && IsSpace(s[|s| - 1]) {
      TrimRightTightens(s[..|s| - 1]);
    }
  }

  lemma {:induction false} TrimLeftTightens(s: string)
    ensures TrimLeft(s) == "" || !IsSpace(TrimLeft(s)[0])
    ensures forall c :: c in TrimLeft(s) ==> c in s
    decreases |s|
  {
    if s != "" && IsSpace(s[0]) {
      TrimLeftTightens(s[1..]);
    }
  }

  lemma {:induction false} MediaTypeStops(s: string)
    ensures ';' !in MediaType(s)
    ensures ';' !in s ==> MediaType(s) == s
    decreases |s|
  {
    if s != "" && s[0] != ';' {
      MediaTypeStops(s[1..]);
      assert s == [s[0]] + s[1..];
    }
  }

  lemma TightIsTrimmed(s: string)
    requires Tight(s)
    ensures TrimSpace(s) == s
  {
  }

  lemma LoweringKeepsShape(s: string)
    requires Tight(s) && ';' !in s
    ensures Tight(ToLower(s)) && ';' !in ToLower(s) && ToLower(ToLower(s)) == ToLower(s)
  {
    forall i | 0 <= i < |s| ensures ToLower(s)[i] != ';' {
      assert s[i] in s;
    }
  }

  /** Normalising twice is normalising once: the type Inspect stores is the one Check compares. */
  lemma NormalisingSettles(raw: string)
    ensures NormaliseContentType(NormaliseContentType(raw)) == NormaliseContentType(raw)
    ensures ExtensionFor(NormaliseContentType(raw)) == ExtensionFor(raw)
  {
    MediaTypeStops(raw);
    TrimLeftTightens(MediaType(raw));
    TrimRightTightens(TrimLeft(MediaType(raw)));
    var t := TrimSpace(MediaType(raw));
    LoweringKeepsShape(t);
    MediaTypeStops(ToLower(t));
    TightIsTrimmed(ToLower(t));
  }

  // ----- What text stands for -----

  /** Space, tab, line feed, vertical tab, form feed, carriage return. */
  const SPACES := " \t\n\U{0B}\U{0C}\r"

  ghost predicate Blank(s: string) {
    forall c :: c in s ==> c in SPACES
  }

  /** `s` is `core` between blanks. */
  ghost predicate Wraps(s: string, core: string) {
    exists left, right :: Blank(left) && Blank(right) && s == left + core + right
  }

  /** `t` is `s` with its capitals made small. */
  ghost predicate Lowers(s: string, t: string) {
    |t| == |s| && forall i :: 0 <= i < |s| ==> t[i] as int == s[i] as int + if 'A' <= s[i] <= 'Z' then 32 else 0
  }

  /** What stands before a semicolon, if there is one, is `core` between blanks. */
  ghost predicate Leads(s: string, core: string) {
    exists name, params :: s == name + params && ';' !in name && (params == "" || params[0] == ';') && Wraps(name, core)
  }

  /** The media type without parameters, surrounding space and capitals is `t`. */
  ghost predicate Denotes(raw: string, t: string) {
    exists core :: Leads(raw, core) && Tight(core) && Lowers(core, t)
  }

  lemma SpacesAre(c: char)
    ensures IsSpace(c) <==> c in SPACES
  {
  }

  lemma {:induction false} TrimLeftSplits(s: string) returns (left: string)
    ensures Blank(left) && s == left + TrimLeft(s)
    decreases |s|
  {
    if s != "" && IsSpace(s[0]) {
      var rest := TrimLeftSplits(s[1..]);
      SpacesAre(s[0]);
      left := [s[0]] + rest;
      assert s == [s[0]] + s[1..];
    } else {
      left := "";
    }
  }

  lemma {:induction false} TrimRightSplits(s: string) returns (right: string)
    ensures Blank(right) && s == TrimRight(s) + right
    decreases |s|
  {
    if s != "" && IsSpace(s[|s| - 1]) {
      var rest := TrimRightSplits(s[..|s| - 1]);
      SpacesAre(s[|s| - 1]);
      right := rest + [s[|s| - 1]];
      assert s == s[..|s| - 1] + [s[|s| - 1]];
    } else {
      right := "";
    }
  }

  lemma {:induction false} TrimLeftDrops(left: string, s: string)
    requires Blank(left) && (s == "" || !IsSpace(s[0]))
    ensures TrimLeft(left + s) == s
    decreases |left|
  {
    if left == "" {
      assert left + s == s;
    } else {
      SpacesAre(left[0]);
      assert (left + s)[1..] == left[1..] + s;
      TrimLeftDrops(left[1..], s);
    }
  }

  lemma {:induction false} TrimLeftEmpties(s: string)
    requires Blank(s)
    ensures TrimLeft(s) == ""
    decreases |s|
  {
    if s != "" {
      SpacesAre(s[0]);
      TrimLeftEmpties(s[1..]);
    }
  }

  lemma {:induction false} TrimRightDrops(s: string, right: string)
    requires Blank(right) && (s == "" || !IsSpace(s[|s| - 1]))
    ensures TrimRight(s + right) == s
    decreases |right|
  {
    if right == "" {
      assert s + right == s;
    } else {
      SpacesAre(right[|right| - 1]);
      assert (s + right)[..|s + right| - 1] == s + right[..|right| - 1];
      TrimRightDrops(s, right[..|right| - 1]);
    }
  }

  lemma TrimmedOf(left: string, core: string, right: string)
    requires Blank(left) && Blank(right) && Tight(core)
    ensures TrimSpace(left + core + right) == core
  {
    if core == "" {
      TrimLeftEmpties(left + core + right);
    } else {
      assert left + core + right == left + (core + right);
      TrimLeftDrops(left, core + right);
      TrimRightDrops(core, right);
    }
  }

  lemma TrimmedIsWrapped(s: string)
    ensures Tight(TrimSpace(s)) && Wraps(s, TrimSpace(s))
  {
    TrimLeftTightens(s);
    TrimRightTightens(TrimLeft(s));
    var left := TrimLeftSplits(s);
    var right := TrimRightSplits(TrimLeft(s));
    Between(left, TrimSpace(s), right);
  }

  lemma Between(left: string, core: string, right: string)
    requires Blank(left) && Blank(right)
    ensures Wraps(left + (core + right), core)
  {
    assert left + (core + right) == left + core + right;
  }

  /** Trimming leaves what stands between the blanks. */
  lemma TrimmedIff(s: string, core: string)
    ensures TrimSpace(s) == core <==> Tight(core) && Wraps(s, core)
  {
    TrimmedIsWrapped(s);
    if Tight(core) && Wraps(s, core) {
      var l, r :| Blank(l) && Blank(r) && s == l + core + r;
      TrimmedOf(l, core, r);
    }
  }

  lemma {:induction false} MediaTypeSplits(s: string) returns (params: string)
    ensures s == MediaType(s) + params && ';' !in MediaType(s) && (params == "" || params[0] == ';')
    decreases |s|
  {
    if s == "" || s[0] == ';' {
      params := s;
    } else {
      params := MediaTypeSplits(s[1..]);
      assert s == [s[0]] + s[1..];
    }
  }

  lemma {:induction false} MediaTypeOf(name: string, params: string)
    requires ';' !in name && (params == "" || params[0] == ';')
    ensures MediaType(name + params) == name
    decreases |name|
  {
    if name == "" {
      assert name + params == params;
    } else {
      assert (name + params)[1..] == name[1..] + params;
      MediaTypeOf(name[1..], params);
      assert name == [name[0]] + name[1..];
    }
  }

  lemma LoweredIff(s: string, t: string)
    ensures ToLower(s) == t <==> Lowers(s, t)
  {
    if Lowers(s, t) {
      assert forall i :: 0 <= i < |s| ==> t[i] == ToLower(s)[i];
    }
  }

  /** Normalising a content type yields what it denotes, and nothing else. */
  lemma NormalisedIff(raw: string, t: string)
    ensures NormaliseContentType(raw) == t <==> Denotes(raw, t)
  {
    var core := TrimSpace(MediaType(raw));
    var params := MediaTypeSplits(raw);
    TrimmedIff(MediaType(raw), core);
    assert Leads(raw, core);
    LoweredIff(core, t);
    if Denotes(raw, t) {
      var other :| Leads(raw, other) && Tight(other) && Lowers(other, t);
      var name, rest :| raw == name + rest && ';' !in name && (rest == "" || rest[0] == ';') && Wraps(name, other);
      MediaTypeOf(name, rest);
      TrimmedIff(name, other);
    }
  }

  /** The three allowed types and their extensions. */
  lemma AllowedTypesAre(raw: string)
    ensures ExtensionFor(raw) == Some("jpg") <==> Denotes(raw, "image/jpeg")
    ensures ExtensionFor(raw) == Some("png") <==> Denotes(raw, "image/png")
    ensures ExtensionFor(raw) == Some("webp") <==> Denotes(raw, "image/webp")
    ensures ExtensionFor(raw).Some? <==>
              Denotes(raw, "image/jpeg") || Denotes(raw, "image/png") || Denotes(raw, "image/webp")
  {
    NormalisedIff(raw, "image/jpeg");
    NormalisedIff(raw, "image/png");
    NormalisedIff(raw, "image/webp");
  }

  /** A purpose is its name, in small letters, between blanks. */
  lemma PurposeIsNamed(raw: string, p: Purpose)
    ensures ParsePurpose(raw) == Some(p) <==> Wraps(raw, if p == Avatar then "avatar" else "post")
    ensures ParsePurpose(raw).None? <==> !Wraps(raw, "avatar") && !Wraps(raw, "post")
  {
    TrimmedIff(raw, "avatar");
    TrimmedIff(raw, "post");
  }

  // ----- Inspection -----

  datatype ImageInfo = ImageInfo(declaredType: string, actualType: string, width: int, height: int)

  datatype Verdict = Fine | TypeMismatch | TooSmall

  function Check(purpose: Purpose, info: ImageInfo): Verdict {
    if info.actualType != NormaliseContentType(info.declaredType) then TypeMismatch
    else
      var limits := ConstraintsFor(purpose);
      if info.width < limits.minWidth || info.height < limits.minHeight then TooSmall else Fine
  }

  /** What DecodeHeader can name, when the bytes decode at all. */
  predicate Decodable(info: ImageInfo) {
    info.actualType == "image/jpeg" || info.actualType == "image/png" || info.actualType == "image/webp"
  }

  /** A JPEG, PNG or WebP image, declared as what it is, of at least 200 by 200 pixels for an
      avatar and 320 by 320 for a post. */
  ghost predicate GoodFor(purpose: Purpose, info: ImageInfo) {
    var least := if purpose == Avatar then 200 else 320;
    && info.actualType in {"image/jpeg", "image/png", "image/webp"}
    && Denotes(info.declaredType, info.actualType)
    && info.width >= least && info.height >= least
  }

  /** Exactly when each verdict is given: the declared type must denote the decoded one, and an
      avatar must be at least 200 by 200, a post's image at least 320 by 320. */
  lemma Verdicts(purpose: Purpose, info: ImageInfo)
    ensures var least := if purpose == Avatar then 200 else 320;
            && (Check(purpose, info) == TypeMismatch <==> !Denotes(info.declaredType, info.actualType))
            && (Check(purpose, info) == Fine <==>
                  Denotes(info.declaredType, info.actualType) && info.width >= least && info.height >= least)
            && (Check(purpose, info) == TooSmall <==>
                  Denotes(info.declaredType, info.actualType) && (info.width < least || info.height < least))
    ensures Decodable(info) && Check(purpose, info) == Fine <==> GoodFor(purpose, info)
  {
    NormalisedIff(info.declaredType, info.actualType);
  }

  /** An image that passes is of an allowed type, stored as what it is, and large enough. A
      larger image of the same type passes too, and one good for a post is good for an avatar. */
  lemma PassingImages(purpose: Purpose, info: ImageInfo, width: int, height: int)
    requires Decodable(info) && Check(purpose, info) == Fine
    ensures ExtensionFor(info.declaredType).Some? && ExtensionFor(info.declaredType) == ExtensionFor(info.actualType)
    ensures Denotes(info.declaredType, info.actualType)
    ensures var least := if purpose == Avatar then 200 else 320; info.width >= least && info.height >= least
    ensures info.width <= width && info.height <= height ==>
              Check(purpose, info.(width := width, height := height)) == Fine
    ensures Check(Avatar, info) == Fine
  {
    Verdicts(purpose, info);
    NormalisingSettles(info.declaredType);
  }

  // ----- Presigning -----

  datatype Presign = Accepted(purpose: Purpose) | BadPurpose | BadMediaType | NoLength | TooLarge

  /** The checks of a presign request, in the order they are made. */
  function PresignVerdict(purpose: string, contentType: string, length: int): Presign {
    match ParsePurpose(purpose)
    case None => BadPurpose
    case Some(p) =>
      if ExtensionFor(contentType).None? then BadMediaType
      else if length <= 0 then NoLength
      else if length > ConstraintsFor(p).maxBytes then TooLarge
      else Accepted(p)
  }

  /** What a recorded upload satisfies. */
  predicate WithinLimits(purpose: Purpose, contentType: string, length: int) {
    ExtensionFor(contentType).Some? && 1 <= length <= ConstraintsFor(purpose).maxBytes
  }

  lemma AcceptedIffWithinLimits(raw: string, contentType: string, length: int, p: Purpose)
    ensures PresignVerdict(raw, contentType, length) == Accepted(p)
            <==> ParsePurpose(raw) == Some(p) && WithinLimits(p, contentType, length)
  {
  }

  /** One of the three types images may be declared as. */
  ghost predicate ImageType(contentType: string) {
    || Denotes(contentType, "image/jpeg")
    || Denotes(contentType, "image/png")
    || Denotes(contentType, "image/webp")
  }

  /** The request names this purpose, between blanks, and one of the three types, and asks for
      1 byte to 5 MB for an avatar, to 10 MB for a post. */
  ghost predicate Acceptable(raw: string, contentType: string, length: int, p: Purpose) {
    && Wraps(raw, if p == Avatar then "avatar" else "post")
    && ImageType(contentType)
    && 1 <= length <= if p == Avatar then 5_242_880 else 10_485_760
  }

  /** Exactly when a request is accepted, and for which purpose; and which refusal it gets. */
  lemma PresignVerdicts(raw: string, contentType: string, length: int, p: Purpose)
    ensures PresignVerdict(raw, contentType, length) == Accepted(p) <==> Acceptable(raw, contentType, length, p)
    ensures var verdict := PresignVerdict(raw, contentType, length);
            var named := Wraps(raw, "avatar") || Wraps(raw, "post");
            && (verdict == BadPurpose <==> !named)
            && (verdict == BadMediaType <==> named && !ImageType(contentType))
            && (verdict == NoLength <==> named && ImageType(contentType) && length <= 0)
  {
    PurposeIsNamed(raw, p);
    AllowedTypesAre(contentType);
  }

  lemma LimitsAre(purpose: Purpose, contentType: string, length: int)
    ensures WithinLimits(purpose, contentType, length) <==>
              ImageType(contentType) && 1 <= length <= if purpose == Avatar then 5_242_880 else 10_485_760
  {
    AllowedTypesAre(contentType);
  }

  // ----- Object deletion -----

  const DELETE_BATCH: nat := 1000

  function Concat(batches: seq<seq<string>>): seq<string> {
    if batches == [] then [] else Concat(batches[..|batches| - 1]) + batches[|batches| - 1]
  }

  predicate Full(batches: seq<seq<string>>) {
    forall i :: 0 <= i < |batches| ==> |batches[i]| == DELETE_BATCH
  }

  /** The batches cover the first `done` keys, and only the last may be short. */
  ghost predicate Covers(sent: seq<seq<string>>, keys: seq<string>, done: nat)
    requires done <= |keys|
  {
    && Concat(sent) == keys[..done]
    && (forall i :: 0 <= i < |sent| ==> 1 <= |sent[i]| <= DELETE_BATCH)
    && (forall i :: 0 <= i < |sent| - 1 ==> |sent[i]| == DELETE_BATCH)
    && (done < |keys| ==> Full(sent))
  }

  lemma SendingABatch(sent: seq<seq<string>>, objects: seq<string>, keys: seq<string>, start: nat, end: nat)
    requires start < end <= |keys| && end <= start + DELETE_BATCH && (end < |keys| ==> end == start + DELETE_BATCH)
    requires Covers(sent, keys, start) && objects == keys[start..end]
    ensures Covers(sent + [objects], keys, end)
  {
    assert (sent + [objects])[..|sent|] == sent;
    assert keys[..start] + keys[start..end] == keys[..end];
  }

  method Copied(keys: seq<string>, start: nat, end: nat) returns (objects: seq<string>)
    requires start <= end <= |keys|
    ensures objects == keys[start..end]
  {
    objects := [];
    for i := start to end
      invariant objects == keys[start..i]
    {
      objects := objects + [keys[i]];
    }
  }

  /** Deletes keys in batches that storage accepts. `fails(i)` says whether request `i` fails;
      the batches sent before the first failure are the ones that took effect. */
  method DeleteObjects(keys: seq<string>, fails: nat -> bool) returns (sent: seq<seq<string>>, ok: bool)
    ensures Concat(sent) <= keys
    ensures ok ==> Concat(sent) == keys
    ensures !ok ==> fails(|sent|) && Full(sent)
    ensures forall i :: 0 <= i < |sent| ==> 1 <= |sent[i]| <= 1000 && !fails(i)
    ensures forall i :: 0 <= i < |sent| - 1 ==> |sent[i]| == 1000
  {
    sent := [];
    if |keys| == 0 {
      return sent, true;
    }
    var start := 0;
    ghost var done := 0;
    while start < |keys|
      invariant done == if start < |keys| then start else |keys|
      invariant Covers(sent, keys, done)
      invariant forall i :: 0 <= i < |sent| ==> !fails(i)
    {
      var end := if start + DELETE_BATCH < |keys| then start + DELETE_BATCH else |keys|;
      var objects := Copied(keys, start, end);
      if fails(|sent|) {
        return sent, false;
      }
      SendingABatch(sent, objects, keys, start, end);
      sent := sent + [objects];
      done := end;
      start := start + DELETE_BATCH;
    }
    assert keys[..|keys|] == keys;
    ok := true;
  }
}
