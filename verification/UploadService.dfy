/** The request handlers that spend uploads, and the janitor's sweep, over the upload store. */
module UploadService {
  import opened Base
  import opened Base64
  import opened StorageKeys
  import opened UploadRules
  import opened UploadTable
  import opened UploadLifecycle
  import opened UploadSafety

  /** What fetching the object behind a key comes to. */
  datatype Inspection =
    | Object(info: ImageInfo)
    | ObjectMissing
    | NotAnImage
    | StorageFailed

  datatype Reply =
    | Done
    | NotUploaded
    | NotAllowed
    | ImageTooSmall
    | UnknownKey
    | NotYours
    | Broken

  function Seen(i: Inspection): Option<ImageInfo> {
    if i.Object? then Some(i.info) else None
  }

  /** The two verdicts that decide a claim, in the order they are reached. */
  function ClaimReply(t: Table, key: string, user: string, purpose: Purpose, seen: Inspection): Reply {
    match seen
    case ObjectMissing => NotUploaded
    case NotAnImage => NotAllowed
    case StorageFailed => Broken
    case Object(info) =>
      (match Check(purpose, info)
       case TypeMismatch => NotAllowed
       case TooSmall => ImageTooSmall
       case Fine =>
         (match ClaimVerdict(t, key, user, purpose)
          case Claimed => Done
          case NotFound => UnknownKey
          case Forbidden => NotYours))
  }

  /** What an image key in a request names: surrounding space does not count, and nothing left
      means no image. */
  function NamedKey(imageKey: Option<string>): Option<string> {
    match imageKey
    case None => None
    case Some(raw) => if TrimSpace(raw) == "" then None else Some(TrimSpace(raw))
  }

  /** Exactly which key a request names. */
  lemma NamedKeyIs(imageKey: Option<string>, key: string)
    ensures NamedKey(imageKey) == Some(key) <==>
              imageKey.Some? && key != "" && Tight(key) && Wraps(imageKey.value, key)
    ensures NamedKey(imageKey).None? <==> imageKey.None? || Blank(imageKey.value)
  {
    if imageKey.Some? {
      TrimmedIff(imageKey.value, key);
      TrimmedIff(imageKey.value, "");
      if Blank(imageKey.value) {
        Between("", "", imageKey.value);
        assert "" + ("" + imageKey.value) == imageKey.value;
      }
    }
  }

  /** The refusals, in the order they are decided: a missing object, bytes that are no image or
      not of the declared type, an image too small, an unknown key, a key that is another's, for
      another purpose or attached already. */
  lemma ClaimReplies(t: Table, key: string, user: string, purpose: Purpose, seen: Inspection)
    ensures var least := if purpose == Avatar then 200 else 320;
            var typed := seen.Object? && Denotes(seen.info.declaredType, seen.info.actualType);
            var sized := seen.Object? && seen.info.width >= least && seen.info.height >= least;
            var usable := key in t && t[key].user == user && t[key].purpose == purpose && t[key].attachedAt.None?;
            ClaimReply(t, key, user, purpose, seen) ==
            if seen.ObjectMissing? then NotUploaded
            else if seen.StorageFailed? then Broken
            else if !typed then NotAllowed
            else if !sized then ImageTooSmall
            else if key !in t then UnknownKey
            else if !usable then NotYours
            else Done
  {
    if seen.Object? {
      Verdicts(purpose, seen.info);
    }
  }

  class Server {
    const uploads: UploadStore
    var posts: map<string, string>
    var avatars: map<string, string>

    constructor (uploads: UploadStore)
      ensures this.uploads == uploads && posts == map[] && avatars == map[]
    {
      this.uploads := uploads;
      posts := map[];
      avatars := map[];
    }

    /** `random` is drawn by the signer, `signs` says whether signing worked. */
    method Presign(user: string, rawPurpose: string, contentType: string, length: int,
                   random: seq<byte>, signs: bool, now: int)
      returns (verdict: Presign, key: Option<string>)
      modifies uploads
      ensures verdict == PresignVerdict(rawPurpose, contentType, length)
      ensures forall p :: verdict == Accepted(p) <==> Acceptable(rawPurpose, contentType, length, p)
      ensures verdict == BadPurpose <==> !Wraps(rawPurpose, "avatar") && !Wraps(rawPurpose, "post")
      ensures key.Some? <==> verdict.Accepted? && signs
      ensures key.None? ==> uploads.uploads == old(uploads.uploads)
      ensures key.Some? ==>
                && ExtensionFor(contentType).Some?
                && key.value == NewKey(random, verdict.purpose, ExtensionFor(contentType).value)
                && var upload := Upload(key.value, user, verdict.purpose, contentType, length, now, None);
                   uploads.uploads == old(uploads.uploads)[key.value := upload]
    {
      PresignVerdicts(rawPurpose, contentType, length, Avatar);
      PresignVerdicts(rawPurpose, contentType, length, Post);
      key := None;
      var purpose := ParsePurpose(rawPurpose);
      if purpose.None? {
        return BadPurpose, None;
      }
      if ExtensionFor(contentType).None? {
        return BadMediaType, None;
      }
      var limits := ConstraintsFor(purpose.value);
      if length <= 0 {
        return NoLength, None;
      }
      if length > limits.maxBytes {
        return TooLarge, None;
      }
      verdict := Accepted(purpose.value);
      if signs {
        var k := NewKey(random, purpose.value, ExtensionFor(contentType).value);
        uploads.Reserve(Upload(k, user, purpose.value, contentType, length, 0, None), None, now);
        key := Some(k);
      }
    }

    /** Inspection comes first, so that an object that fails it leaves its key unclaimed. */
    method ClaimUpload(key: string, user: string, purpose: Purpose, seen: Inspection, now: int)
      returns (reply: Reply)
      modifies uploads
      ensures reply == ClaimReply(old(uploads.uploads), key, user, purpose, seen)
      ensures uploads.uploads ==
              if reply == Done then AfterClaim(old(uploads.uploads), key, user, purpose, now)
              else old(uploads.uploads)
      // Granted for an image declared as the format it decodes as and at least 200 by 200, or 320
      // by 320 for a post, under a pending key of this user and purpose; then that key is attached.
      ensures var least := if purpose == Avatar then 200 else 320;
              reply == Done <==>
                && seen.Object? && Denotes(seen.info.declaredType, seen.info.actualType)
                && seen.info.width >= least && seen.info.height >= least
                && key in old(uploads.uploads) && old(uploads.uploads)[key].user == user
                && old(uploads.uploads)[key].purpose == purpose && old(uploads.uploads)[key].attachedAt.None?
      ensures reply == Done ==>
                uploads.uploads == old(uploads.uploads)[key := old(uploads.uploads)[key].(attachedAt := Some(now))]
    {
      ClaimReplies(uploads.uploads, key, user, purpose, seen);
      match seen {
        case ObjectMissing => return NotUploaded;
        case NotAnImage => return NotAllowed;
        case StorageFailed => return Broken;
        case Object(info) =>
          match Check(purpose, info) {
            case TypeMismatch => return NotAllowed;
            case TooSmall => return ImageTooSmall;
            case Fine =>
          }
      }
      var verdict := uploads.Claim(key, user, purpose, now);
      match verdict {
        case Claimed => reply := Done;
        case NotFound => reply := UnknownKey;
        case Forbidden => reply := NotYours;
      }
    }

    /** Claim before insert. `inserts` says whether the insert works; when it does not, the
        claim stands all the same. */
    method CreatePost(user: string, imageKey: Option<string>, seen: Inspection, id: string, inserts: bool, now: int)
      returns (reply: Reply)
      modifies this`posts, uploads
      ensures avatars == old(avatars)
      ensures var key := NamedKey(imageKey);
              var claimed := if key.None? then Done else ClaimReply(old(uploads.uploads), key.value, user, Post, seen);
              && reply == (if claimed == Done && !inserts then Broken else claimed)
              && uploads.uploads == (if key.Some? && claimed == Done
                                     then AfterClaim(old(uploads.uploads), key.value, user, Post, now)
                                     else old(uploads.uploads))
              && posts == (if reply == Done && key.Some? then old(posts)[id := key.value] else old(posts))
    {
      var key := NamedKey(imageKey);
      if key.Some? {
        reply := ClaimUpload(key.value, user, Post, seen, now);
        if reply != Done {
          return;
        }
      }
      if !inserts {
        return Broken;
      }
      if key.Some? {
        posts := posts[id := key.value];
      }
      reply := Done;
    }

    method UpdateAvatar(user: string, key: string, seen: Inspection, updates: bool, now: int) returns (reply: Reply)
      modifies this`avatars, uploads
      ensures posts == old(posts)
      ensures var claimed := ClaimReply(old(uploads.uploads), key, user, Avatar, seen);
              && reply == (if claimed == Done && !updates then Broken else claimed)
              && uploads.uploads == (if claimed == Done then AfterClaim(old(uploads.uploads), key, user, Avatar, now)
                                     else old(uploads.uploads))
              && avatars == (if reply == Done then old(avatars)[user := key] else old(avatars))
    {
      reply := ClaimUpload(key, user, Avatar, seen, now);
      if reply != Done {
        return;
      }
      if !updates {
        return Broken;
      }
      avatars := avatars[user := key];
    }

    /** Releases first, deletes after; `sent` is what reached storage before a request failed. */
    method CollectAbandoned(now: int, gcAfter: int, fails: nat -> bool)
      returns (keys: seq<string>, sent: seq<seq<string>>)
      modifies uploads
      ensures Distinct(keys) && |keys| <= 500 && |sent| <= 1
      ensures forall key :: key in keys ==>
                && key in old(uploads.uploads) && old(uploads.uploads)[key].attachedAt.None?
                && old(uploads.uploads)[key].createdAt < now - gcAfter
      ensures |keys| < 500 ==>
                forall key :: key in old(uploads.uploads) ==>
                  var upload := old(uploads.uploads)[key];
                  upload.attachedAt.None? && upload.createdAt < now - gcAfter ==> key in keys
      ensures uploads.uploads == Released(old(uploads.uploads), ToSet(keys))
      ensures Concat(sent) == if keys != [] && !fails(0) then keys else []
    {
      keys := uploads.ReleaseAbandoned(now - gcAfter, BATCH);
      DistinctKeysCount(keys);
      if |keys| == 0 {
        return keys, [];
      }
      var ok;
      sent, ok := DeleteObjects(keys, fails);
      OneBatch(keys, sent);
    }
  }

  lemma {:induction false} DistinctKeysCount(keys: seq<string>)
    requires Distinct(keys)
    ensures |ToSet(keys)| == |keys|
  {
    if keys != [] {
      var few, last := keys[..|keys| - 1], keys[|keys| - 1];
      DistinctKeysCount(few);
      assert ToSet(keys) == ToSet(few) + {last} by {
        assert keys == few + [last];
      }
    }
  }

  lemma {:induction false} ConcatCoversTheFirst(batches: seq<seq<string>>)
    requires batches != []
    ensures |Concat(batches)| >= |batches[0]|
  {
    if |batches| > 1 {
      ConcatCoversTheFirst(batches[..|batches| - 1]);
    }
  }

  /** One sweep's keys fit into one deletion request. */
  lemma OneBatch(keys: seq<string>, sent: seq<seq<string>>)
    requires 0 < |keys| <= BATCH && Concat(sent) <= keys
    requires forall i :: 0 <= i < |sent| - 1 ==> |sent[i]| == DELETE_BATCH
    ensures |sent| <= 1
    ensures |sent| == 1 ==> |sent[0]| <= BATCH
  {
    if sent != [] {
      ConcatCoversTheFirst(sent);
    }
  }

  // ----- A request that runs alone in the protocol does what the handler does -----

  /** A handler attaches the key exactly when the object passes and the key is claimable. */
  lemma DoneIff(t: Table, key: string, user: string, purpose: Purpose, seen: Inspection)
    ensures ClaimReply(t, key, user, purpose, seen) == Done <==>
              Passes(purpose, Seen(seen)) && Claimable(t, key, user, purpose)
  {
  }

  /** An uninterrupted request of the protocol and the handler agree, on the answer and on what
      they leave in the stores. */
  lemma HandlerIsTheUninterruptedUse(
      s: State, c: nat, user: string, purpose: Purpose, key: string, seen: Inspection, id: string)
    ensures var s' := UsedAlone(s, c, user, purpose, key, Choice([], Seen(seen), {}, id));
            var done := ClaimReply(s.table, key, user, purpose, seen) == Done;
            && s'.calls == s.calls[c := Finished(if done then Stored else Refused)]
            && s'.table == (if done then AfterClaim(s.table, key, user, purpose, s.clock) else s.table)
            && s'.posts == (if done && purpose == Post then s.posts[id := key] else s.posts)
            && s'.avatars == (if done && purpose == Avatar then s.avatars[user := key] else s.avatars)
  {
    DoneIff(s.table, key, user, purpose, seen);
  }
}
