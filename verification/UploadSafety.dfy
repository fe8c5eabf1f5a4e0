/** What every run of the upload protocol keeps, whatever the interleaving of requests and
    sweeps and whichever statements fail. */
module UploadSafety {
  import opened Base
  import opened Base64
  import opened StorageKeys
  import opened UploadRules
  import opened UploadTable
  import opened UploadLifecycle

  // ----- Every action keeps the invariant -----

  lemma ProceedKeepsInv(gcAfter: int, s: State, c: nat, choice: Choice)
    requires Inv(gcAfter, s) && Runnable(s, c, choice)
    ensures Inv(gcAfter, Apply(gcAfter, s, Proceed(c, choice)))
  {
    var k := s.calls[c];
    var next := Next(s, k, choice);
    assert CallOk(gcAfter, s, k);
    match k {
      case Reserving(_, _, _, _) => ReservingKeepsInv(gcAfter, s, c, k, choice.random, next);
      case Inspecting(_, _, _) => MovingKeepsInv(gcAfter, s, c, next);
      case Claiming(user, purpose, key, _, _) =>
        if Claimable(s.table, key, user, purpose) {
          ClaimingKeepsInv(gcAfter, s, Apply(gcAfter, s, Proceed(c, choice)), c, k, next);
        } else {
          MovingKeepsInv(gcAfter, s, c, next);
        }
      case Attaching(_, _, _, _) => AttachingKeepsInv(gcAfter, s, c, choice.id, next);
      case Sweeping(cutoff) => ReleasingKeepsInv(gcAfter, s, c, choice.keys, cutoff, next);
      case Deleting(keys) => DeletingKeepsInv(gcAfter, s, c, keys, next);
    }
  }

  lemma LoseKeepsInv(gcAfter: int, s: State, c: nat, applied: bool, choice: Choice)
    requires Inv(gcAfter, s) && Runnable(s, c, choice)
    ensures Inv(gcAfter, Apply(gcAfter, s, Lose(c, applied, choice)))
  {
    if applied {
      LostAnswerKeepsInv(gcAfter, s, c, choice);
    } else {
      FailureKeepsInv(gcAfter, s, c, choice);
    }
  }

  /** The step took effect and its answer was lost. */
  lemma LostAnswerKeepsInv(gcAfter: int, s: State, c: nat, choice: Choice)
    requires Inv(gcAfter, s) && Runnable(s, c, choice)
    ensures Inv(gcAfter, Apply(gcAfter, s, Lose(c, true, choice)))
  {
    var k := s.calls[c];
    var next := Finished(Failed);
    var s' := Apply(gcAfter, s, Lose(c, true, choice));
    assert CallOk(gcAfter, s, k);
    if k.Claiming? && Claimable(s.table, k.key, k.user, k.purpose) {
      ClaimingKeepsInv(gcAfter, s, s', c, k, next);
    } else {
      assert s' == WithCall(Effect(s, k, choice), c, next);
      match k {
        case Reserving(_, _, _, _) => ReservingKeepsInv(gcAfter, s, c, k, choice.random, next);
        case Attaching(_, _, _, _) => AttachingKeepsInv(gcAfter, s, c, choice.id, next);
        case Sweeping(cutoff) => ReleasingKeepsInv(gcAfter, s, c, choice.keys, cutoff, next);
        case Deleting(keys) => DeletingKeepsInv(gcAfter, s, c, keys, next);
        case _ => MovingKeepsInv(gcAfter, s, c, next);
      }
    }
  }

  /** The step failed and changed nothing. */
  lemma FailureKeepsInv(gcAfter: int, s: State, c: nat, choice: Choice)
    requires Inv(gcAfter, s) && Runnable(s, c, choice)
    ensures Inv(gcAfter, Apply(gcAfter, s, Lose(c, false, choice)))
  {
    if s.calls[c].Attaching? {
      BurningKeepsInv(gcAfter, s, c);
    } else {
      assert Apply(gcAfter, s, Lose(c, false, choice)) == WithCall(s, c, Finished(Failed));
      MovingKeepsInv(gcAfter, s, c, Finished(Failed));
    }
  }

  lemma OpeningIsOk(gcAfter: int, s: State, user: string, rawPurpose: string, contentType: string, length: int)
    ensures CallOk(gcAfter, s, Opening(user, rawPurpose, contentType, length))
  {
    match PresignVerdict(rawPurpose, contentType, length) {
      case Accepted(p) => AcceptedIffWithinLimits(rawPurpose, contentType, length, p);
      case _ =>
    }
  }

  lemma StepKeepsInv(gcAfter: int, s: State, a: Action)
    requires Inv(gcAfter, s) && Enabled(s, a)
    ensures Inv(gcAfter, Apply(gcAfter, s, a))
  {
    match a {
      case Tick(to) => QuietKeepsInv(gcAfter, s, s.(clock := to));
      case BeginPresign(c, user, rawPurpose, contentType, length) =>
        OpeningIsOk(gcAfter, s, user, rawPurpose, contentType, length);
        MovingKeepsInv(gcAfter, s, c, Opening(user, rawPurpose, contentType, length));
      case BeginUse(c, user, purpose, key) => MovingKeepsInv(gcAfter, s, c, Inspecting(user, purpose, key));
      case BeginSweep(c) => MovingKeepsInv(gcAfter, s, c, Sweeping(s.clock - gcAfter));
      case Proceed(c, choice) => ProceedKeepsInv(gcAfter, s, c, choice);
      case Lose(c, applied, choice) => LoseKeepsInv(gcAfter, s, c, applied, choice);
      case RemovePost(id) => QuietKeepsInv(gcAfter, s, s.(posts := s.posts - {id}));
      case ClearAvatar(user) => QuietKeepsInv(gcAfter, s, s.(avatars := s.avatars - {user}));
    }
  }

  lemma EmptyIsOk(gcAfter: int)
    ensures Inv(gcAfter, EMPTY)
  {
  }

  /** The state a run from the empty store has reached. */
  ghost predicate Reached(gcAfter: int, past: seq<Action>, s: State) {
    Runs(gcAfter, EMPTY, past) && s == After(gcAfter, EMPTY, past)
  }

  lemma ReachedIsOk(gcAfter: int, past: seq<Action>, s: State)
    requires Reached(gcAfter, past, s)
    ensures Inv(gcAfter, s)
  {
    EmptyIsOk(gcAfter);
    RunExtends(gcAfter, EMPTY, past);
  }

  // ----- What one step does -----

  /** Nothing blocks a request but what it waits for: fresh key bytes for a reservation, a fresh
      id for a new post, a choice of abandoned keys for a release. */
  lemma NothingIsBlocked(s: State, c: nat, choice: Choice, to: int, key: string, applied: bool)
    requires |choice.random| == 12 && choice.id !in s.posts
    requires choice.info.Some? ==> choice.info.value.actualType in {"image/jpeg", "image/png", "image/webp"}
    requires c in s.calls && s.calls[c].Reserving? ==> KeyFor(s.calls[c], choice.random) !in s.ledger
    requires c in s.calls && s.calls[c].Sweeping? ==> MayRelease(s.table, choice.keys, s.calls[c].cutoff, 500)
    ensures c in s.calls && !s.calls[c].Finished? ==>
              Enabled(s, Proceed(c, choice)) && Enabled(s, Lose(c, applied, choice))
    ensures c !in s.calls ==>
              && Enabled(s, BeginPresign(c, key, key, key, to)) && Enabled(s, BeginSweep(c))
              && Enabled(s, BeginUse(c, key, Post, key)) && Enabled(s, BeginUse(c, key, Avatar, key))
    ensures s.clock <= to ==> Enabled(s, Tick(to))
    ensures Enabled(s, RemovePost(key)) && Enabled(s, ClearAvatar(key))
  {
  }

  /** A reservation adds one row, under a key never reserved before. */
  lemma ReservingWrites(s: State, c: nat, choice: Choice)
    requires Runnable(s, c, choice) && s.calls[c].Reserving? && ExtensionFor(s.calls[c].contentType).Some?
    ensures var k, s' := s.calls[c], Effect(s, s.calls[c], choice);
            var key := NewKey(choice.random, k.purpose, ExtensionFor(k.contentType).value);
            var upload := Upload(key, k.user, k.purpose, k.contentType, k.length, s.clock, None);
            key !in s.ledger && s' == s.(table := s.table[key := upload], ledger := s.ledger[key := upload])
  {
  }

  /** A claim attaches the pending key of that user and purpose, or does nothing. */
  lemma ClaimingWrites(s: State, c: nat, choice: Choice)
    requires c in s.calls && s.calls[c].Claiming?
    ensures var k, t := s.calls[c], s.table;
            Effect(s, k, choice) ==
            if k.key in t && t[k.key].user == k.user && t[k.key].purpose == k.purpose && t[k.key].attachedAt.None?
            then s.(table := t[k.key := t[k.key].(attachedAt := Some(k.at))]) else s
  {
  }

  /** A release forgets at most 500 keys, all of them pending since before its cutoff. */
  lemma ReleasingWrites(s: State, c: nat, choice: Choice)
    requires Runnable(s, c, choice) && s.calls[c].Sweeping?
    ensures var t, t' := s.table, Effect(s, s.calls[c], choice).table;
            && (forall key :: key in t && key !in t' ==>
                  t[key].attachedAt.None? && t[key].createdAt < s.calls[c].cutoff)
            && (forall key :: key in t' ==> key in t && t'[key] == t[key])
            && |t.Keys - t'.Keys| <= 500
  {
    KeysGone(s.table, choice.keys, s.calls[c].cutoff);
  }

  /** A step that succeeds, or whose answer alone is lost, has that effect; no other action
      touches a row. */
  lemma OnlyStatementsWrite(gcAfter: int, s: State, a: Action)
    requires Enabled(s, a)
    ensures Apply(gcAfter, s, a).table ==
            if a.Proceed? || (a.Lose? && a.applied) then Effect(s, s.calls[a.c], a.choice).table else s.table
    ensures (a.Proceed? || a.Lose?) &&
            !s.calls[a.c].Reserving? && !s.calls[a.c].Claiming? && !s.calls[a.c].Sweeping? ==>
              Apply(gcAfter, s, a).table == s.table
  {
  }

  lemma KeysGone(t: Table, keys: set<string>, cutoff: int)
    requires MayRelease(t, keys, cutoff, BATCH)
    ensures var t' := Released(t, keys);
            && (forall key :: key in t && key !in t' ==> t[key].attachedAt.None? && t[key].createdAt < cutoff)
            && (forall key :: key in t' ==> key in t && t'[key] == t[key])
            && |t.Keys - t'.Keys| <= 500
  {
    assert forall key :: key in keys ==> key in AllAbandoned(t, cutoff);
    assert t.Keys - Released(t, keys).Keys == keys;
  }

  // ----- One key, one use -----

  lemma OneUseOfAKey(s: State, i: nat, j: nat)
    requires LogOk(s) && i < |s.log| && j < |s.log| && i != j
    ensures s.log[i].key != s.log[j].key
  {
    if i < j {
      assert Apart(s.log, i, j);
    } else {
      assert Apart(s.log, j, i);
    }
  }

  /** Over the whole history no key is used twice, and every use is by the user who reserved
      the key, for the purpose it was reserved for, of at most 5 or 10 MB and at least 200 or 320
      pixels either way, of an image that was declared as the format it decodes as. */
  lemma KeysAreUsedOnceAndRightly(gcAfter: int, past: seq<Action>, s: State, i: nat)
    requires Reached(gcAfter, past, s) && i < |s.log|
    ensures var u := s.log[i];
            && u.key in s.ledger
            && var r := s.ledger[u.key];
               && r.user == u.user && r.purpose == u.purpose
               && ImageType(r.contentType)
               && 1 <= r.length <= (if r.purpose == Avatar then 5_242_880 else 10_485_760)
    ensures var u, least := s.log[i], if s.log[i].purpose == Avatar then 200 else 320;
            && u.info.actualType in {"image/jpeg", "image/png", "image/webp"}
            && Denotes(u.info.declaredType, u.info.actualType)
            && u.info.width >= least && u.info.height >= least
    ensures forall j :: 0 <= j < |s.log| && j != i ==> s.log[j].key != s.log[i].key
  {
    ReachedIsOk(gcAfter, past, s);
    var u := s.log[i];
    assert UseOk(s, u);
    assert ReservationOk(s, u.key);
    LimitsAre(s.ledger[u.key].purpose, s.ledger[u.key].contentType, s.ledger[u.key].length);
    Verdicts(u.purpose, u.info);
    forall j | 0 <= j < |s.log| && j != i ensures s.log[j].key != u.key {
      OneUseOfAKey(s, i, j);
    }
  }

  /** Storage holds objects to the content type they were presigned with. Where it does, the
      extension in a used key names the format that its bytes decode as. */
  lemma UsedKeysNameTheirFormat(gcAfter: int, past: seq<Action>, s: State, i: nat)
    returns (random: seq<byte>, ext: string)
    requires Reached(gcAfter, past, s) && i < |s.log| && s.log[i].key in s.ledger
    requires s.log[i].info.declaredType == NormaliseContentType(s.ledger[s.log[i].key].contentType)
    ensures ExtensionFor(s.log[i].info.actualType) == Some(ext)
    ensures |random| == 12 && s.log[i].key == NewKey(random, s.log[i].purpose, ext)
  {
    ReachedIsOk(gcAfter, past, s);
    var u := s.log[i];
    assert UseOk(s, u);
    assert ReservationOk(s, u.key);
    var r := s.ledger[u.key];
    ext := ExtensionFor(r.contentType).value;
    random :| |random| == 12 && u.key == NewKey(random, r.purpose, ext);
    PassingImages(u.purpose, u.info, u.info.width, u.info.height);
    NormalisingSettles(r.contentType);
  }

  // ----- What is shown -----

  datatype Place = OfPost(id: string) | OfUser(user: string)

  /** The key that a post or a profile now refers to. */
  function Shows(s: State, p: Place): Option<string> {
    match p
    case OfPost(id) => if id in s.posts then Some(s.posts[id]) else None
    case OfUser(user) => if user in s.avatars then Some(s.avatars[user]) else None
  }

  ghost predicate UpForDeletion(s: State, key: string) {
    key in s.deleted || exists c :: c in s.calls && s.calls[c].Deleting? && key in s.calls[c].keys
  }

  lemma UpForDeletionIsReleased(gcAfter: int, s: State, key: string)
    requires Inv(gcAfter, s) && UpForDeletion(s, key)
    ensures key in s.released && key !in s.table
  {
    if key !in s.deleted {
      var c :| c in s.calls && s.calls[c].Deleting? && key in s.calls[c].keys;
      assert CallOk(gcAfter, s, s.calls[c]);
    }
  }

  lemma ShownIsUsed(s: State, p: Place) returns (i: nat)
    requires ShownOk(s) && Shows(s, p).Some?
    ensures i < |s.log| && s.log[i].key == Shows(s, p).value
    ensures s.log[i].purpose == (if p.OfPost? then Post else Avatar)
    ensures p.OfUser? ==> s.log[i].user == p.user
  {
    match p {
      case OfPost(id) =>
        var j :| PostShows(s, id, j);
        i := j;
      case OfUser(user) =>
        var j :| AvatarShows(s, user, j);
        i := j;
    }
  }

  /** The key shown at `p` is attached, neither deleted nor picked for deletion, and shown
      nowhere else; an avatar is its owner's own upload. */
  ghost predicate SafelyShown(s: State, p: Place)
    requires Shows(s, p).Some?
  {
    var key := Shows(s, p).value;
    && Attached(s.table, key)
    && key !in s.released && !UpForDeletion(s, key)
    && (p.OfUser? ==> s.table[key].user == p.user && s.table[key].purpose == Avatar)
    && (p.OfPost? ==> s.table[key].purpose == Post)
    && forall q :: Shows(s, q) == Shows(s, p) ==> q == p
  }

  lemma InvShowsSafely(gcAfter: int, s: State, p: Place)
    requires Inv(gcAfter, s) && Shows(s, p).Some?
    ensures SafelyShown(s, p)
  {
    var key := Shows(s, p).value;
    var i := ShownIsUsed(s, p);
    assert UseOk(s, s.log[i]);
    if UpForDeletion(s, key) {
      UpForDeletionIsReleased(gcAfter, s, key);
    }
    forall q | Shows(s, q) == Shows(s, p) ensures q == p {
      var j := ShownIsUsed(s, q);
      if i != j {
        OneUseOfAKey(s, i, j);
      } else if p.OfPost? {
        assert OnlyIn(s.posts, p.id, q.id);
      }
    }
  }

  /** A key that any post or profile refers to is attached, was neither deleted nor picked for
      deletion, and is referred to from nowhere else; an avatar is its owner's own upload. */
  lemma ShownKeysAreSafe(gcAfter: int, past: seq<Action>, s: State, p: Place)
    requires Reached(gcAfter, past, s) && Shows(s, p).Some?
    ensures SafelyShown(s, p)
  {
    ReachedIsOk(gcAfter, past, s);
    InvShowsSafely(gcAfter, s, p);
  }

  // ----- One fate -----

  datatype Fate = Unreserved | Waiting | Taken | Gone

  function FateOf(s: State, key: string): Fate {
    if Pending(s.table, key) then Waiting
    else if Attached(s.table, key) then Taken
    else if key in s.released then Gone
    else Unreserved
  }

  /** A reserved key is pending, attached or released, and exactly one of them. */
  lemma OneFate(gcAfter: int, past: seq<Action>, s: State, key: string)
    requires Reached(gcAfter, past, s)
    ensures key in s.ledger <==> FateOf(s, key) != Unreserved
    ensures key in s.released <==> FateOf(s, key) == Gone
    ensures s.deleted <= s.released
  {
    ReachedIsOk(gcAfter, past, s);
    assert key in s.ledger.Keys <==> key in s.table.Keys || key in s.released;
  }

  /** What one step leaves of the past. */
  ghost predicate Extends(s: State, s': State) {
    && s.log <= s'.log
    && s.burnt <= s'.burnt && s.released <= s'.released && s.deleted <= s'.deleted
    && s.clock <= s'.clock
    && (forall key :: key in s.ledger ==> key in s'.ledger && s'.ledger[key] == s.ledger[key])
    && (forall key :: key in s'.ledger && key !in s.ledger ==> s.clock <= s'.ledger[key].createdAt)
    && (forall key :: Attached(s.table, key) ==> key in s'.table && s'.table[key] == s.table[key])
  }

  lemma ReservingExtends(gcAfter: int, s: State, k: Call, random: seq<byte>)
    requires FatesOk(gcAfter, s) && k.Reserving? && KeyFor(k, random) !in s.ledger
    ensures Extends(s, ReservedState(s, k, random))
  {
    assert forall key :: Attached(s.table, key) ==> key in s.ledger.Keys;
  }

  lemma SweepingExtends(s: State, keys: set<string>, cutoff: int)
    requires keys <= AllAbandoned(s.table, cutoff)
    ensures Extends(s, s.(table := Released(s.table, keys), released := s.released + keys))
  {
    assert forall key :: key in keys ==> key in AllAbandoned(s.table, cutoff);
  }

  lemma ClaimingExtends(s: State, key: string, user: string, purpose: Purpose, at: int)
    ensures Extends(s, s.(table := AfterClaim(s.table, key, user, purpose, at)))
  {
  }

  lemma AttachingExtends(s: State, k: Call, id: string)
    requires k.Attaching?
    ensures Extends(s, AttachedState(s, k, id))
  {
  }

  lemma EffectExtends(gcAfter: int, s: State, c: nat, choice: Choice)
    requires Inv(gcAfter, s) && Runnable(s, c, choice)
    ensures Extends(s, Effect(s, s.calls[c], choice))
  {
    match s.calls[c] {
      case Reserving(_, _, _, _) => ReservingExtends(gcAfter, s, s.calls[c], choice.random);
      case Claiming(user, purpose, key, _, at) => ClaimingExtends(s, key, user, purpose, at);
      case Attaching(_, _, _, _) => AttachingExtends(s, s.calls[c], choice.id);
      case Sweeping(cutoff) => SweepingExtends(s, choice.keys, cutoff);
      case _ =>
    }
  }

  lemma StepExtends(gcAfter: int, s: State, a: Action)
    requires Inv(gcAfter, s) && Enabled(s, a)
    ensures Extends(s, Apply(gcAfter, s, a))
  {
    match a {
      case Proceed(c, choice) => EffectExtends(gcAfter, s, c, choice);
      case Lose(c, _, choice) => EffectExtends(gcAfter, s, c, choice);
      case _ =>
    }
  }

  /** Every run keeps the invariant and adds to the past without rewriting it. */
  lemma {:induction false} RunExtends(gcAfter: int, s: State, acts: seq<Action>)
    requires Inv(gcAfter, s) && Runs(gcAfter, s, acts)
    ensures Extends(s, After(gcAfter, s, acts)) && Inv(gcAfter, After(gcAfter, s, acts))
    decreases |acts|
  {
    if acts != [] {
      StepKeepsInv(gcAfter, s, acts[0]);
      StepExtends(gcAfter, s, acts[0]);
      RunExtends(gcAfter, Apply(gcAfter, s, acts[0]), acts[1..]);
    }
  }

  /** Only a pending key ever moves: an attached key stays attached and a released key stays
      released, through any further run. */
  lemma KeysMoveOnlyFromPending(gcAfter: int, past: seq<Action>, s: State, acts: seq<Action>, key: string)
    requires Reached(gcAfter, past, s) && Runs(gcAfter, s, acts) && key in s.ledger
    ensures var s' := After(gcAfter, s, acts);
            FateOf(s', key) != FateOf(s, key) ==> FateOf(s, key) == Waiting && FateOf(s', key) != Unreserved
  {
    ReachedIsOk(gcAfter, past, s);
    RunExtends(gcAfter, s, acts);
    var s' := After(gcAfter, s, acts);
    assert key in s'.ledger.Keys && key in s.ledger.Keys;
  }

  /** Once a key is attached, or its claim has been granted, no later run deletes its object,
      whatever sweeps are in flight. */
  lemma AttachedKeysAreNeverDeleted(gcAfter: int, past: seq<Action>, s: State, acts: seq<Action>, key: string)
    requires Reached(gcAfter, past, s) && Runs(gcAfter, s, acts) && Attached(s.table, key)
    ensures !UpForDeletion(s, key) && !UpForDeletion(After(gcAfter, s, acts), key)
  {
    ReachedIsOk(gcAfter, past, s);
    RunExtends(gcAfter, s, acts);
    var s' := After(gcAfter, s, acts);
    if UpForDeletion(s, key) {
      UpForDeletionIsReleased(gcAfter, s, key);
    }
    if UpForDeletion(s', key) {
      UpForDeletionIsReleased(gcAfter, s', key);
    }
  }

  /** Until its grace period has passed a reserved key is never released: its object cannot be
      deleted, and a claim cannot find it missing. */
  lemma GraceIsKept(
      gcAfter: int, past: seq<Action>, s: State, key: string, user: string, purpose: Purpose)
    requires Reached(gcAfter, past, s) && key in s.ledger && s.clock <= s.ledger[key].createdAt + gcAfter
    ensures !UpForDeletion(s, key) && ClaimVerdict(s.table, key, user, purpose) != NotFound
  {
    ReachedIsOk(gcAfter, past, s);
    assert key in s.ledger.Keys;
    if UpForDeletion(s, key) {
      UpForDeletionIsReleased(gcAfter, s, key);
    }
  }

  /** The grace of a key runs from its reservation: a key reserved in a run is still there
      while no more than the grace period has passed since the run began. */
  lemma GraceStartsAtReservation(
      gcAfter: int, past: seq<Action>, s: State, acts: seq<Action>, key: string)
    requires Reached(gcAfter, past, s) && Runs(gcAfter, s, acts)
    requires key !in s.ledger && key in After(gcAfter, s, acts).ledger
    ensures var s' := After(gcAfter, s, acts);
            s'.clock <= s.clock + gcAfter ==> key in s'.table && !UpForDeletion(s', key)
  {
    ReachedIsOk(gcAfter, past, s);
    RunExtends(gcAfter, s, acts);
    var s' := After(gcAfter, s, acts);
    assert key in s'.ledger.Keys;
    if UpForDeletion(s', key) {
      UpForDeletionIsReleased(gcAfter, s', key);
    }
  }

  // ----- Every attached key is accounted for -----

  ghost function AttachedKeys(s: State): set<string> {
    set key | key in s.table && Attached(s.table, key)
  }

  ghost function KeysOf(log: seq<Use>): set<string> {
    set i | 0 <= i < |log| :: log[i].key
  }

  ghost function UsedKeys(s: State): set<string> {
    KeysOf(s.log)
  }

  ghost function Holders(s: State): set<nat> {
    set c | c in s.calls && s.calls[c].Attaching?
  }

  ghost function HeldKeys(s: State): set<string> {
    set c | c in Holders(s) :: s.calls[c].key
  }

  lemma KeysOfOneMore(log: seq<Use>, u: Use)
    ensures KeysOf(log + [u]) == KeysOf(log) + {u.key}
  {
    var more := log + [u];
    assert more[|log|] == u;
    forall key | key in KeysOf(log) ensures key in KeysOf(more) {
      var i :| 0 <= i < |log| && log[i].key == key;
      assert more[i].key == key;
    }
  }

  lemma {:induction false} DistinctUsesCount(log: seq<Use>)
    requires EachKeyOnce(log)
    ensures |KeysOf(log)| == |log|
  {
    if log != [] {
      var init, last := log[..|log| - 1], log[|log| - 1];
      forall i, j | 0 <= i < j < |init| ensures Apart(init, i, j) {
        assert Apart(log, i, j);
      }
      DistinctUsesCount(init);
      forall i | 0 <= i < |init| ensures init[i].key != last.key {
        assert Apart(log, i, |init|);
      }
      KeysOfOneMore(init, last);
      assert log == init + [last];
    }
  }

  lemma {:induction false} DistinctHoldersCount(s: State, cs: set<nat>)
    requires cs <= Holders(s)
    requires forall c, d :: c in cs && d in cs && s.calls[c].key == s.calls[d].key ==> c == d
    ensures |set c | c in cs :: s.calls[c].key| == |cs|
    decreases cs
  {
    if cs != {} {
      var c :| c in cs;
      DistinctHoldersCount(s, cs - {c});
      var few := set d | d in cs - {c} :: s.calls[d].key;
      assert s.calls[c].key !in few;
      assert (set d | d in cs :: s.calls[d].key) == few + {s.calls[c].key};
    }
  }

  /** The attached keys are the used ones, the ones a request has claimed and is about to use,
      and the burnt ones; no key is two of these. */
  lemma AttachedKeysSplit(gcAfter: int, s: State)
    requires Inv(gcAfter, s)
    ensures AttachedKeys(s) == UsedKeys(s) + HeldKeys(s) + s.burnt
    ensures UsedKeys(s) !! HeldKeys(s) !! s.burnt
  {
    forall key | key in AttachedKeys(s) ensures key in UsedKeys(s) + HeldKeys(s) + s.burnt {
      assert Accounted(s, key);
      if Used(s, key) {
        var i :| 0 <= i < |s.log| && s.log[i].key == key;
      } else if Held(s, key) {
        var c :| c in s.calls && s.calls[c].Attaching? && s.calls[c].key == key;
        assert c in Holders(s);
      }
    }
    forall key | key in UsedKeys(s) ensures Attached(s.table, key) && key !in s.burnt && Used(s, key) {
      var i :| 0 <= i < |s.log| && s.log[i].key == key;
      assert UseOk(s, s.log[i]);
    }
    forall key | key in HeldKeys(s) ensures Attached(s.table, key) && key !in s.burnt && !Used(s, key) {
      var c :| c in Holders(s) && s.calls[c].key == key;
      assert CallOk(gcAfter, s, s.calls[c]);
    }
  }

  /** Claims are conserved: as many keys are attached as there are uses, requests holding a
      claim, and burnt keys. With no request holding the key, an attached key is unused exactly
      when it is burnt. */
  lemma ClaimsAreConserved(gcAfter: int, past: seq<Action>, s: State)
    requires Reached(gcAfter, past, s)
    ensures |AttachedKeys(s)| == |s.log| + |Holders(s)| + |s.burnt|
    ensures forall key :: !Held(s, key) ==> ((Attached(s.table, key) && !Used(s, key)) <==> key in s.burnt)
  {
    ReachedIsOk(gcAfter, past, s);
    AttachedKeysSplit(gcAfter, s);
    DistinctUsesCount(s.log);
    forall c, d | c in Holders(s) && d in Holders(s) && s.calls[c].key == s.calls[d].key ensures c == d {
      assert HeldOnce(s.calls, c, d);
    }
    DistinctHoldersCount(s, Holders(s));
    forall i | 0 <= i < |s.log| ensures s.log[i].key !in s.burnt {
      assert UseOk(s, s.log[i]);
    }
  }

  // ----- Burnt keys -----

  /** A burnt key stays attached to nothing: no later run uses it, and every claim on it, the
      retry of the request that burnt it included, is refused. */
  lemma BurntForGood(
      gcAfter: int, past: seq<Action>, s: State, acts: seq<Action>, key: string, user: string, purpose: Purpose)
    requires Reached(gcAfter, past, s) && Runs(gcAfter, s, acts) && key in s.burnt
    ensures var s' := After(gcAfter, s, acts);
            && !Used(s', key)
            && ClaimVerdict(s'.table, key, user, purpose) == Forbidden
            && (forall p :: Shows(s', p) != Some(key))
  {
    ReachedIsOk(gcAfter, past, s);
    RunExtends(gcAfter, s, acts);
    var s' := After(gcAfter, s, acts);
    forall i | 0 <= i < |s'.log| ensures s'.log[i].key != key {
      assert UseOk(s', s'.log[i]);
    }
    forall p ensures Shows(s', p) != Some(key) {
      if Shows(s', p).Some? {
        var i := ShownIsUsed(s', p);
      }
    }
  }

  /** One step burns `key`. */
  ghost predicate Burns(s: State, a: Action, key: string) {
    && a.Lose?
    && a.c in s.calls
    && var k := s.calls[a.c];
       || (k.Claiming? && k.key == key && a.applied && Claimable(s.table, key, k.user, k.purpose))
       || (k.Attaching? && k.key == key && !a.applied)
  }

  lemma OneStepFurther(gcAfter: int, s: State, acts: seq<Action>, m: nat)
    requires m < |acts| && Enabled(s, acts[0]) && Runs(gcAfter, Apply(gcAfter, s, acts[0]), acts[1..][..m])
    ensures Runs(gcAfter, s, acts[..m + 1])
    ensures After(gcAfter, s, acts[..m + 1]) == After(gcAfter, Apply(gcAfter, s, acts[0]), acts[1..][..m])
  {
    assert acts[..m + 1][1..] == acts[1..][..m];
  }

  /** The action of the run that burnt a key: the only ways are a claim whose answer was lost
      and a write that failed after its claim. */
  lemma {:induction false} WhatBurntIt(gcAfter: int, s: State, acts: seq<Action>, key: string) returns (n: nat)
    requires Runs(gcAfter, s, acts) && key !in s.burnt && key in After(gcAfter, s, acts).burnt
    ensures n < |acts| && Runs(gcAfter, s, acts[..n]) && Burns(After(gcAfter, s, acts[..n]), acts[n], key)
    decreases |acts|
  {
    var s1 := Apply(gcAfter, s, acts[0]);
    if key in s1.burnt {
      n := 0;
    } else {
      var m := WhatBurntIt(gcAfter, s1, acts[1..], key);
      OneStepFurther(gcAfter, s, acts, m);
      n := m + 1;
    }
  }

  // ----- Requests left alone -----

  /** An object that inspection would let through for this purpose. */
  predicate Passes(purpose: Purpose, info: Option<ImageInfo>) {
    info.Some? && Check(purpose, info.value) == Fine
  }

  /** What a request to use a key comes to when nothing interleaves with it. */
  function UsedAlone(s: State, c: nat, user: string, purpose: Purpose, key: string, choice: Choice): State {
    if !Passes(purpose, choice.info) || !Claimable(s.table, key, user, purpose) then WithCall(s, c, Finished(Refused))
    else
      var t := s.(table := AfterClaim(s.table, key, user, purpose, s.clock));
      WithCall(AttachedState(t, Attaching(user, purpose, key, choice.info.value), choice.id), c, Finished(Stored))
  }

  lemma CallsOverwrite(s: State, c: nat, k: Call, k': Call)
    ensures WithCall(WithCall(s, c, k), c, k') == WithCall(s, c, k')
  {
    assert s.calls[c := k][c := k'] == s.calls[c := k'];
  }

  /** A request that runs alone is stored exactly when its object passes inspection and its key
      is the caller's own, reserved for that purpose and never claimed; otherwise it leaves
      every store as it was. */
  lemma UninterruptedUse(
      gcAfter: int, s: State, c: nat, user: string, purpose: Purpose, key: string, choice: Choice)
    returns (acts: seq<Action>)
    requires c !in s.calls && choice.id !in s.posts
    requires choice.info.Some? ==> Decodable(choice.info.value)
    ensures Runs(gcAfter, s, acts) && acts != [] && acts[0] == BeginUse(c, user, purpose, key)
    ensures After(gcAfter, s, acts) == UsedAlone(s, c, user, purpose, key, choice)
  {
    var inspecting := Inspecting(user, purpose, key);
    var s1 := WithCall(s, c, inspecting);
    var go := Proceed(c, choice);
    var s2 := Apply(gcAfter, s1, go);
    if !Passes(purpose, choice.info) {
      CallsOverwrite(s, c, inspecting, Finished(Refused));
      acts := [BeginUse(c, user, purpose, key), go];
      TwoSteps(gcAfter, s, acts);
    } else {
      var claiming := Claiming(user, purpose, key, choice.info.value, s.clock);
      CallsOverwrite(s, c, inspecting, claiming);
      assert s2 == WithCall(s, c, claiming);
      acts := ClaimedAlone(gcAfter, s, c, claiming, choice);
      var rest := acts;
      acts := [BeginUse(c, user, purpose, key), go] + rest;
      assert acts[1..] == [go] + rest && acts[1..][1..] == rest;
    }
  }

  lemma TwoSteps(gcAfter: int, s: State, acts: seq<Action>)
    requires |acts| == 2 && Enabled(s, acts[0]) && Enabled(Apply(gcAfter, s, acts[0]), acts[1])
    ensures Runs(gcAfter, s, acts)
    ensures After(gcAfter, s, acts) == Apply(gcAfter, Apply(gcAfter, s, acts[0]), acts[1])
  {
    var rest := acts[1..];
    assert rest[0] == acts[1] && rest[1..] == [];
    var t := Apply(gcAfter, s, acts[0]);
    assert After(gcAfter, t, rest) == After(gcAfter, Apply(gcAfter, t, rest[0]), rest[1..]);
  }

  lemma ClaimedAlone(gcAfter: int, s: State, c: nat, k: Call, choice: Choice) returns (acts: seq<Action>)
    requires k.Claiming? && k.at == s.clock && choice.id !in s.posts && choice.info == Some(k.info)
    requires Passes(k.purpose, choice.info)
    ensures Runs(gcAfter, WithCall(s, c, k), acts)
    ensures After(gcAfter, WithCall(s, c, k), acts) == UsedAlone(s, c, k.user, k.purpose, k.key, choice)
  {
    var s2 := WithCall(s, c, k);
    var go := Proceed(c, choice);
    if !Claimable(s.table, k.key, k.user, k.purpose) {
      CallsOverwrite(s, c, k, Finished(Refused));
      acts := [go];
      assert acts[1..] == [];
    } else {
      var t := s.(table := AfterClaim(s.table, k.key, k.user, k.purpose, s.clock));
      var attaching := Attaching(k.user, k.purpose, k.key, k.info);
      CallsOverwrite(t, c, k, attaching);
      assert Apply(gcAfter, s2, go) == WithCall(t, c, attaching);
      CallsOverwrite(AttachedState(t, attaching, choice.id), c, attaching, Finished(Stored));
      acts := [go, go];
      TwoSteps(gcAfter, s2, acts);
    }
  }

  /** A presign request that runs alone reserves a fresh key for what was asked, stamped with
      the current time, exactly when it is acceptable. */
  lemma UninterruptedPresign(
      gcAfter: int, s: State, c: nat, user: string, rawPurpose: string, contentType: string, length: int,
      choice: Choice)
    returns (acts: seq<Action>)
    requires c !in s.calls && |choice.random| == 12
    requires forall p :: Acceptable(rawPurpose, contentType, length, p) && ExtensionFor(contentType).Some? ==>
               NewKey(choice.random, p, ExtensionFor(contentType).value) !in s.ledger
    ensures Runs(gcAfter, s, acts) && acts != []
    ensures acts[0] == BeginPresign(c, user, rawPurpose, contentType, length)
    ensures forall p :: Acceptable(rawPurpose, contentType, length, p) ==>
              && ExtensionFor(contentType).Some?
              && var key := NewKey(choice.random, p, ExtensionFor(contentType).value);
                 var upload := Upload(key, user, p, contentType, length, s.clock, None);
                 After(gcAfter, s, acts) == s.(table := s.table[key := upload], ledger := s.ledger[key := upload],
                                               calls := s.calls[c := Finished(Presigned(key))])
    ensures (forall p :: !Acceptable(rawPurpose, contentType, length, p)) ==>
              After(gcAfter, s, acts) == WithCall(s, c, Finished(Refused))
  {
    var k := Opening(user, rawPurpose, contentType, length);
    PresignVerdicts(rawPurpose, contentType, length, Avatar);
    PresignVerdicts(rawPurpose, contentType, length, Post);
    AllowedTypesAre(contentType);
    acts := [BeginPresign(c, user, rawPurpose, contentType, length)];
    if k.Reserving? {
      acts := acts + [Proceed(c, choice)];
      TwoSteps(gcAfter, s, acts);
      CallsOverwrite(s, c, k, Next(s, k, choice));
    } else {
      assert acts[1..] == [];
    }
  }

  /** A sweep that runs alone forgets keys pending for longer than the grace period, as many as
      one sweep may or all there are, and deletes exactly their objects. */
  lemma UninterruptedSweep(gcAfter: int, s: State, c: nat, choice: Choice) returns (acts: seq<Action>)
    requires c !in s.calls && MayRelease(s.table, choice.keys, s.clock - gcAfter, BATCH)
    ensures Runs(gcAfter, s, acts) && acts != [] && acts[0] == BeginSweep(c)
    ensures var s' := After(gcAfter, s, acts);
            && s'.calls == s.calls[c := Finished(Swept)]
            && s'.table == Released(s.table, choice.keys)
            && s'.released == s.released + choice.keys
            && s'.deleted == s.deleted + choice.keys
  {
    var go := Proceed(c, choice);
    var s1 := WithCall(s, c, Sweeping(s.clock - gcAfter));
    var t := s.(table := Released(s.table, choice.keys), released := s.released + choice.keys);
    if choice.keys == {} {
      CallsOverwrite(t, c, Sweeping(s.clock - gcAfter), Finished(Swept));
      acts := [BeginSweep(c), go];
      TwoSteps(gcAfter, s, acts);
    } else {
      CallsOverwrite(t, c, Sweeping(s.clock - gcAfter), Deleting(choice.keys));
      assert Apply(gcAfter, s1, go) == WithCall(t, c, Deleting(choice.keys));
      CallsOverwrite(t.(deleted := t.deleted + choice.keys), c, Deleting(choice.keys), Finished(Swept));
      TwoSteps(gcAfter, s1, [go, go]);
      acts := [BeginSweep(c)] + [go, go];
      assert acts[1..] == [go, go];
    }
  }

  // ----- What a client can count on -----

  /** From `s` to `s'` request `d` attached the key of `upload`, now, and a new post or its
      owner's profile shows it; nothing else that a request can see changed. */
  ghost predicate Shown(s: State, s': State, d: nat, upload: Upload, id: string) {
    && s'.calls == s.calls[d := Finished(Stored)]
    && s'.table == s.table[upload.key := upload.(attachedAt := Some(s.clock))]
    && s'.posts == (if upload.purpose == Post then s.posts[id := upload.key] else s.posts)
    && s'.avatars == (if upload.purpose == Avatar then s.avatars[upload.user := upload.key] else s.avatars)
  }

  /** Until its grace period has passed, a key that was not attached yet can be claimed by the
      user who reserved it for the purpose it was reserved for, and an image good for that
      purpose gets stored and shown. */
  lemma ReservedKeysCanBeUsed(gcAfter: int, past: seq<Action>, s: State, key: string, d: nat, choice: Choice)
    returns (acts: seq<Action>)
    requires Reached(gcAfter, past, s) && key in s.ledger && s.clock <= s.ledger[key].createdAt + gcAfter
    requires key in s.table ==> s.table[key].attachedAt.None?
    requires d !in s.calls && choice.id !in s.posts
    requires choice.info.Some? && GoodFor(s.ledger[key].purpose, choice.info.value)
    ensures Runs(gcAfter, s, acts) && acts != []
    ensures acts[0] == BeginUse(d, s.ledger[key].user, s.ledger[key].purpose, key)
    ensures Shown(s, After(gcAfter, s, acts), d, s.ledger[key], choice.id)
  {
    var r := s.ledger[key];
    ReachedIsOk(gcAfter, past, s);
    assert key in s.ledger.Keys && ReservationOk(s, key);
    Verdicts(r.purpose, choice.info.value);
    acts := UninterruptedUse(gcAfter, s, d, r.user, r.purpose, key, choice);
  }

  lemma {:induction false} RunsJoin(gcAfter: int, s: State, xs: seq<Action>, ys: seq<Action>)
    requires Runs(gcAfter, s, xs) && Runs(gcAfter, After(gcAfter, s, xs), ys)
    ensures Runs(gcAfter, s, xs + ys) && After(gcAfter, s, xs + ys) == After(gcAfter, After(gcAfter, s, xs), ys)
    decreases |xs|
  {
    if xs == [] {
      assert xs + ys == ys;
    } else {
      assert (xs + ys)[1..] == xs[1..] + ys;
      RunsJoin(gcAfter, Apply(gcAfter, s, xs[0]), xs[1..], ys);
    }
  }

  /** A request names one purpose. */
  lemma OnePurpose(raw: string, contentType: string, length: int, p: Purpose)
    requires Acceptable(raw, contentType, length, p)
    ensures forall q :: Acceptable(raw, contentType, length, q) ==> q == p
  {
    forall q | Acceptable(raw, contentType, length, q) ensures q == p {
      PresignVerdicts(raw, contentType, length, p);
      PresignVerdicts(raw, contentType, length, q);
    }
  }

  /** The state once a request for purpose `p` has been presigned under this key. */
  function PresignedState(s: State, c: nat, key: string, upload: Upload): State {
    s.(table := s.table[key := upload], ledger := s.ledger[key := upload],
       calls := s.calls[c := Finished(Presigned(key))])
  }

  lemma AcceptableIsPresigned(
      gcAfter: int, past: seq<Action>, s: State, c: nat, user: string, rawPurpose: string, contentType: string,
      length: int, p: Purpose, choice: Choice)
    returns (acts: seq<Action>, key: string)
    requires Reached(gcAfter, past, s) && c !in s.calls && |choice.random| == 12
    requires Acceptable(rawPurpose, contentType, length, p)
    requires forall ext :: NewKey(choice.random, p, ext) !in s.ledger
    ensures Runs(gcAfter, s, acts) && acts != [] && acts[0] == BeginPresign(c, user, rawPurpose, contentType, length)
    ensures key !in s.ledger
    ensures var upload := Upload(key, user, p, contentType, length, s.clock, None);
            && After(gcAfter, s, acts) == PresignedState(s, c, key, upload)
            && Reached(gcAfter, past + acts, PresignedState(s, c, key, upload))
  {
    AllowedTypesAre(contentType);
    OnePurpose(rawPurpose, contentType, length, p);
    key := NewKey(choice.random, p, ExtensionFor(contentType).value);
    acts := UninterruptedPresign(gcAfter, s, c, user, rawPurpose, contentType, length, choice);
    RunsJoin(gcAfter, EMPTY, past, acts);
  }

  /** What was asked for is granted: a presign request followed by its owner's use of the key for
      the purpose named in the request ends with the key attached and shown there. */
  lemma PresignThenUse(
      gcAfter: int, past: seq<Action>, s: State, c: nat, d: nat, user: string, rawPurpose: string,
      contentType: string, length: int, p: Purpose, choice: Choice)
    returns (presign: seq<Action>, use: seq<Action>, key: string)
    requires Reached(gcAfter, past, s) && 0 <= gcAfter && c !in s.calls && d !in s.calls && c != d
    requires Acceptable(rawPurpose, contentType, length, p) && |choice.random| == 12
    requires forall ext :: NewKey(choice.random, p, ext) !in s.ledger
    requires choice.id !in s.posts && choice.info.Some? && GoodFor(p, choice.info.value)
    ensures presign != [] && presign[0] == BeginPresign(c, user, rawPurpose, contentType, length)
    ensures use != [] && use[0] == BeginUse(d, user, p, key)
    ensures Runs(gcAfter, s, presign + use)
    ensures var upload := Upload(key, user, p, contentType, length, s.clock, None);
            Shown(PresignedState(s, c, key, upload), After(gcAfter, s, presign + use), d, upload, choice.id)
  {
    presign, key := AcceptableIsPresigned(
      gcAfter, past, s, c, user, rawPurpose, contentType, length, p, choice);
    var upload := Upload(key, user, p, contentType, length, s.clock, None);
    var s1 := PresignedState(s, c, key, upload);
    use := ReservedKeysCanBeUsed(gcAfter, past + presign, s1, key, d, choice);
    RunsJoin(gcAfter, s, presign, use);
  }

  lemma {:induction false} SomeOf(all: set<string>, key: string, n: nat) returns (some: set<string>)
    requires key in all && 1 <= n <= |all|
    ensures key in some && some <= all && |some| == n && (n == |all| ==> some == all)
    decreases |all|
  {
    if n == |all| {
      some := all;
    } else {
      assert |all - {key}| >= 1;
      var other :| other in all - {key};
      some := SomeOf(all - {other}, key, n);
    }
  }

  /** Nothing pending past its grace period is beyond reach: a sweep that runs alone can release
      any such key, and delete its object. */
  lemma OverdueKeysCanBeReleased(gcAfter: int, s: State, c: nat, key: string) returns (acts: seq<Action>)
    requires c !in s.calls
    requires key in s.table && s.table[key].attachedAt.None? && s.table[key].createdAt + gcAfter < s.clock
    ensures Runs(gcAfter, s, acts) && acts != [] && acts[0] == BeginSweep(c)
    ensures var s' := After(gcAfter, s, acts);
            && key !in s'.table && key in s'.released && key in s'.deleted
            && s'.calls == s.calls[c := Finished(Swept)]
  {
    var all := AllAbandoned(s.table, s.clock - gcAfter);
    assert key in all;
    var keys := SomeOf(all, key, if |all| < BATCH then |all| else BATCH);
    acts := UninterruptedSweep(gcAfter, s, c, Choice([], None, keys, ""));
  }
}
