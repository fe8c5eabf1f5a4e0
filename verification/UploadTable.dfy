/** The table of presigned keys: one function per store statement, and the map-backed
    store whose methods are proved to perform exactly those statements. */
module UploadTable {
  import opened Base
  import opened UploadRules

  datatype Upload = Upload(
    key: string,
    user: string,
    purpose: Purpose,
    contentType: string,
    length: int,
    createdAt: int,
    attachedAt: Option<int>)
  {
    /** Everything but the one column that a statement updates after insertion. */
    predicate SameReservation(that: Upload) {
      this == that.(attachedAt := attachedAt)
    }
  }

  type Table = map<string, Upload>

  datatype Claim = Claimed | NotFound | Forbidden

  // ----- The statements, as functions of the table -----

  function Reserved(t: Table, upload: Upload): Table {
    t[upload.key := upload]
  }

  predicate Pending(t: Table, key: string) {
    key in t && t[key].attachedAt.None?
  }

  predicate Attached(t: Table, key: string) {
    key in t && t[key].attachedAt.Some?
  }

  /** The guard of Claim. */
  predicate Claimable(t: Table, key: string, user: string, purpose: Purpose) {
    Pending(t, key) && t[key].user == user && t[key].purpose == purpose
  }

  function ClaimVerdict(t: Table, key: string, user: string, purpose: Purpose): Claim {
    if key !in t then NotFound
    else if Claimable(t, key, user, purpose) then Claimed
    else Forbidden
  }

  function AfterClaim(t: Table, key: string, user: string, purpose: Purpose, at: int): Table {
    if Claimable(t, key, user, purpose) then t[key := t[key].(attachedAt := Some(at))] else t
  }

  predicate Abandoned(t: Table, key: string, before: int) {
    Pending(t, key) && t[key].createdAt < before
  }

  function AllAbandoned(t: Table, before: int): set<string> {
    set key | key in t && Abandoned(t, key, before)
  }

  /** What one ReleaseAbandoned may hand back: abandoned keys, as many as the limit allows. */
  predicate MayRelease(t: Table, keys: set<string>, before: int, limit: int) {
    && keys <= AllAbandoned(t, before)
    && (|keys| < limit ==> keys == AllAbandoned(t, before))
    && (|keys| > limit ==> keys == {})
  }

  function Released(t: Table, keys: set<string>): Table {
    t - keys
  }

  function ToSet(keys: seq<string>): set<string> {
    set key | key in keys
  }

  predicate Distinct(keys: seq<string>) {
    forall i, j :: 0 <= i < j < |keys| ==> keys[i] != keys[j]
  }

  /** Part-way through a release: `keys` are the abandoned ones among those looked at. */
  ghost predicate Sifted(start: Table, before: int, keys: seq<string>, todo: set<string>) {
    && Distinct(keys)
    && |ToSet(keys)| == |keys|
    && todo <= start.Keys
    && todo !! ToSet(keys)
    && ToSet(keys) <= AllAbandoned(start, before) <= ToSet(keys) + todo
  }

  lemma AppendingAKey(keys: seq<string>, key: string)
    requires Distinct(keys) && key !in ToSet(keys) && |ToSet(keys)| == |keys|
    ensures Distinct(keys + [key]) && ToSet(keys + [key]) == ToSet(keys) + {key}
    ensures |ToSet(keys) + {key}| == |keys| + 1
  {
  }

  lemma TakingAKey(start: Table, before: int, keys: seq<string>, todo: set<string>, key: string)
    requires Sifted(start, before, keys, todo) && key in todo && Abandoned(start, key, before)
    ensures Sifted(start, before, keys + [key], todo - {key})
    ensures Released(start, ToSet(keys + [key])) == Released(start, ToSet(keys)) - {key}
  {
    AppendingAKey(keys, key);
  }

  /** What a release hands back, said of the rows alone. */
  lemma ReleaseMeans(t: Table, keys: seq<string>, before: int, limit: int)
    requires |ToSet(keys)| == |keys| && MayRelease(t, ToSet(keys), before, limit)
    ensures forall key :: key in keys ==> key in t && t[key].attachedAt.None? && t[key].createdAt < before
    ensures |keys| < limit ==>
              forall key :: key in t && t[key].attachedAt.None? && t[key].createdAt < before ==> key in keys
    ensures |keys| <= limit || keys == []
    ensures forall key :: key in Released(t, ToSet(keys)) <==> key in t && key !in keys
  {
    forall key | key in keys ensures key in t && t[key].attachedAt.None? && t[key].createdAt < before {
      assert key in ToSet(keys) && key in AllAbandoned(t, before);
    }
    if |keys| < limit {
      forall key | key in t && t[key].attachedAt.None? && t[key].createdAt < before ensures key in keys {
        assert key in AllAbandoned(t, before) && key in ToSet(keys);
      }
    }
  }

  /** The SQL claim: it counts the row by key alone, counts the row its guarded update
      touched, both against the same snapshot, and decides from the two counts. */
  function ClaimFromCounts(found: nat, claimed: nat): Claim {
    if found == 0 then NotFound else if claimed == 0 then Forbidden else Claimed
  }

  function Matching(t: Table, key: string): set<string> {
    set k | k in t && k == key
  }

  function Updated(t: Table, key: string, user: string, purpose: Purpose): set<string> {
    set k | k in t && k == key && t[k].user == user && t[k].purpose == purpose && t[k].attachedAt.None?
  }

  lemma CountsDecideTheClaim(t: Table, key: string, user: string, purpose: Purpose)
    ensures ClaimFromCounts(|Matching(t, key)|, |Updated(t, key, user, purpose)|) == ClaimVerdict(t, key, user, purpose)
    ensures |Updated(t, key, user, purpose)| <= 1
  {
    if key in t {
      assert key in Matching(t, key);
    }
    if Claimable(t, key, user, purpose) {
      assert Updated(t, key, user, purpose) == {key};
    } else {
      assert Updated(t, key, user, purpose) == {};
    }
  }

  /** A key can be claimed once: whoever comes second, for whatever purpose, is refused. */
  lemma SecondClaimIsForbidden(
      t: Table, key: string, user: string, purpose: Purpose, at: int, other: string, otherPurpose: Purpose)
    requires ClaimVerdict(t, key, user, purpose) == Claimed
    ensures ClaimVerdict(AfterClaim(t, key, user, purpose, at), key, other, otherPurpose) == Forbidden
  {
  }

  /** The map-backed upload store. */
  class UploadStore {
    var uploads: Table

    constructor ()
      ensures uploads == map[]
    {
      uploads := map[];
    }

    /** A caller that sets no creation time gets the current one. */
    method Reserve(upload: Upload, createdAt: Option<int>, now: int)
      modifies this
      ensures uploads ==
              Reserved(old(uploads), upload.(createdAt := if createdAt.Some? then createdAt.value else now))
      ensures uploads ==
              old(uploads)[upload.key := upload.(createdAt := if createdAt.Some? then createdAt.value else now)]
    {
      var clone := upload;
      match createdAt {
        case None => clone := clone.(createdAt := now);
        case Some(t) => clone := clone.(createdAt := t);
      }
      uploads := uploads[upload.key := clone];
    }

    method Claim(key: string, user: string, purpose: Purpose, at: int) returns (verdict: Claim)
      modifies this
      ensures verdict == ClaimVerdict(old(uploads), key, user, purpose)
      ensures uploads == AfterClaim(old(uploads), key, user, purpose, at)
      ensures verdict == NotFound <==> key !in old(uploads)
      ensures verdict == Claimed <==>
                && key in old(uploads) && old(uploads)[key].user == user && old(uploads)[key].purpose == purpose
                && old(uploads)[key].attachedAt.None?
      ensures uploads == if verdict == Claimed then old(uploads)[key := old(uploads)[key].(attachedAt := Some(at))]
                         else old(uploads)
    {
      if key !in uploads {
        return NotFound;
      }
      var upload := uploads[key];
      if upload.user != user || upload.purpose != purpose || upload.attachedAt.Some? {
        return Forbidden;
      }
      uploads := uploads[key := upload.(attachedAt := Some(at))];
      verdict := Claimed;
    }

    method ReleaseAbandoned(before: int, limit: int) returns (keys: seq<string>)
      modifies this
      ensures Distinct(keys)
      ensures MayRelease(old(uploads), ToSet(keys), before, limit)
      ensures uploads == Released(old(uploads), ToSet(keys))
      ensures forall key :: key in keys ==>
                key in old(uploads) && old(uploads)[key].attachedAt.None? && old(uploads)[key].createdAt < before
      ensures |keys| < limit ==>
                forall key :: key in old(uploads) ==>
                  old(uploads)[key].attachedAt.None? && old(uploads)[key].createdAt < before ==> key in keys
      ensures |keys| <= limit || keys == []
      ensures forall key :: key in uploads <==> key in old(uploads) && key !in keys
      ensures forall key :: key in uploads ==> uploads[key] == old(uploads)[key]
    {
      keys := [];
      ghost var start := uploads;
      var todo := uploads.Keys;
      while todo != {}
        invariant Sifted(start, before, keys, todo) && uploads == Released(start, ToSet(keys))
        invariant |keys| <= limit || keys == []
        decreases |todo|
      {
        if |keys| >= limit {
          break;
        }
        var key :| key in todo;
        if uploads[key].attachedAt.None? && uploads[key].createdAt < before {
          TakingAKey(start, before, keys, todo, key);
          keys := keys + [key];
          uploads := uploads - {key};
        }
        todo := todo - {key};
      }
      ReleaseMeans(start, keys, before, limit);
    }
  }
}
