/** The life of an upload key as a concurrent protocol: presigning reserves it, a post or an
    avatar claims and then attaches it, and the janitor releases and deletes what was never
    attached. Each store statement is one atomic step, the steps of different requests and
    sweeps interleave freely, and a statement may fail with or without having taken effect. */
module UploadLifecycle {
  import opened Base
  import opened Base64
  import opened StorageKeys
  import opened UploadRules
  import opened UploadTable

  /** The most keys one sweep releases. */
  const BATCH: nat := 500

  datatype Outcome =
    | Presigned(key: string)
    | Stored
    | Refused
    | Swept
    | Failed

  /** Where one request or sweep stands: what it is about to do next. */
  datatype Call =
    | Reserving(user: string, purpose: Purpose, contentType: string, length: int)
    | Inspecting(user: string, purpose: Purpose, key: string)
    | Claiming(user: string, purpose: Purpose, key: string, info: ImageInfo, at: int)
    | Attaching(user: string, purpose: Purpose, key: string, info: ImageInfo)
    | Sweeping(cutoff: int)
    | Deleting(keys: set<string>)
    | Finished(outcome: Outcome)

  /** History: one post or avatar that took a key, with what inspection had found there. */
  datatype Use = Use(key: string, user: string, purpose: Purpose, info: ImageInfo)

  /** `posts` and `avatars` are the keys now shown. The rest is history: every key ever
      reserved, every use ever made, every key released, every key passed to object deletion,
      and every key whose claim took effect in a request that then failed. */
  datatype State = State(
    clock: int,
    table: Table,
    posts: map<string, string>,
    avatars: map<string, string>,
    calls: map<nat, Call>,
    ledger: Table,
    log: seq<Use>,
    released: set<string>,
    deleted: set<string>,
    burnt: set<string>)

  /** What the environment settles in one step: key bytes, the object found, the keys a
      release picks, the id of a new post. */
  datatype Choice = Choice(random: seq<byte>, info: Option<ImageInfo>, keys: set<string>, id: string)

  datatype Action =
    | Tick(to: int)
    | BeginPresign(c: nat, user: string, rawPurpose: string, contentType: string, length: int)
    | BeginUse(c: nat, user: string, purpose: Purpose, key: string)
    | BeginSweep(c: nat)
    | Proceed(c: nat, choice: Choice)
    | Lose(c: nat, applied: bool, choice: Choice)
    | RemovePost(id: string)
    | ClearAvatar(user: string)

  // ----- Steps -----

  /** The key that presigning makes for an accepted request. */
  function KeyFor(k: Call, random: seq<byte>): string
    requires k.Reserving?
  {
    match ExtensionFor(k.contentType)
    case Some(ext) => NewKey(random, k.purpose, ext)
    case None => ""
  }

  ghost predicate Runnable(s: State, c: nat, choice: Choice) {
    && c in s.calls
    && match s.calls[c]
       case Reserving(_, _, _, _) => |choice.random| == 12 && KeyFor(s.calls[c], choice.random) !in s.ledger
       case Inspecting(_, _, _) => choice.info.Some? ==> Decodable(choice.info.value)
       case Attaching(_, _, _, _) => choice.id !in s.posts
       case Sweeping(cutoff) => MayRelease(s.table, choice.keys, cutoff, BATCH)
       case Finished(_) => false
       case _ => true
  }

  ghost predicate Enabled(s: State, a: Action) {
    match a
    case Tick(to) => s.clock <= to
    case BeginPresign(c, _, _, _, _) => c !in s.calls
    case BeginUse(c, _, _, _) => c !in s.calls
    case BeginSweep(c) => c !in s.calls
    case Proceed(c, choice) => Runnable(s, c, choice)
    case Lose(c, _, choice) => Runnable(s, c, choice)
    case RemovePost(_) => true
    case ClearAvatar(_) => true
  }

  function ReservedState(s: State, k: Call, random: seq<byte>): State
    requires k.Reserving?
  {
    var upload := Upload(KeyFor(k, random), k.user, k.purpose, k.contentType, k.length, s.clock, None);
    s.(table := Reserved(s.table, upload), ledger := Reserved(s.ledger, upload))
  }

  function AttachedState(s: State, k: Call, id: string): State
    requires k.Attaching?
  {
    var t := s.(log := s.log + [Use(k.key, k.user, k.purpose, k.info)]);
    match k.purpose
    case Post => t.(posts := t.posts[id := k.key])
    case Avatar => t.(avatars := t.avatars[k.user := k.key])
  }

  /** What the step that call `k` is about to take does outside the call itself. */
  function Effect(s: State, k: Call, choice: Choice): State {
    match k
    case Reserving(_, _, _, _) => ReservedState(s, k, choice.random)
    case Claiming(user, purpose, key, _, at) => s.(table := AfterClaim(s.table, key, user, purpose, at))
    case Attaching(_, _, _, _) => AttachedState(s, k, choice.id)
    case Sweeping(_) => s.(table := Released(s.table, choice.keys), released := s.released + choice.keys)
    case Deleting(keys) => s.(deleted := s.deleted + keys)
    case _ => s
  }

  /** Where call `k` stands after its next step succeeded in state `s`. */
  function Next(s: State, k: Call, choice: Choice): Call {
    match k
    case Reserving(_, _, _, _) => Finished(Presigned(KeyFor(k, choice.random)))
    case Inspecting(user, purpose, key) =>
      (match choice.info
       case None => Finished(Refused)
       case Some(info) =>
         if Check(purpose, info) == Fine then Claiming(user, purpose, key, info, s.clock) else Finished(Refused))
    case Claiming(user, purpose, key, info, _) =>
      if ClaimVerdict(s.table, key, user, purpose) == Claimed then Attaching(user, purpose, key, info)
      else Finished(Refused)
    case Attaching(_, _, _, _) => Finished(Stored)
    case Sweeping(_) => if choice.keys == {} then Finished(Swept) else Deleting(choice.keys)
    case Deleting(_) => Finished(Swept)
    case Finished(_) => k
  }

  /** The keys that a failing step leaves attached to nothing: the claim took effect and the
      answer was lost, or the claim was made and the write after it failed. */
  function Burnt(s: State, k: Call, applied: bool): set<string> {
    match k
    case Claiming(user, purpose, key, _, _) =>
      if applied && Claimable(s.table, key, user, purpose) then {key} else {}
    case Attaching(_, _, key, _) => if applied then {} else {key}
    case _ => {}
  }

  function WithCall(s: State, c: nat, k: Call): State {
    s.(calls := s.calls[c := k])
  }

  function Opening(user: string, rawPurpose: string, contentType: string, length: int): Call {
    match PresignVerdict(rawPurpose, contentType, length)
    case Accepted(purpose) => Reserving(user, purpose, contentType, length)
    case _ => Finished(Refused)
  }

  function Apply(gcAfter: int, s: State, a: Action): State
    requires a.Proceed? || a.Lose? ==> a.c in s.calls
  {
    match a
    case Tick(to) => s.(clock := to)
    case BeginPresign(c, user, rawPurpose, contentType, length) =>
      WithCall(s, c, Opening(user, rawPurpose, contentType, length))
    case BeginUse(c, user, purpose, key) => WithCall(s, c, Inspecting(user, purpose, key))
    case BeginSweep(c) => WithCall(s, c, Sweeping(s.clock - gcAfter))
    case Proceed(c, choice) => WithCall(Effect(s, s.calls[c], choice), c, Next(s, s.calls[c], choice))
    case Lose(c, applied, choice) =>
      var t := if applied then Effect(s, s.calls[c], choice) else s;
      WithCall(t.(burnt := t.burnt + Burnt(s, s.calls[c], applied)), c, Finished(Failed))
    case RemovePost(id) => s.(posts := s.posts - {id})
    case ClearAvatar(user) => s.(avatars := s.avatars - {user})
  }

  /** A run: every action enabled where it is taken. */
  ghost predicate Runs(gcAfter: int, s: State, acts: seq<Action>)
    decreases |acts|
  {
    acts == [] ||
    (Enabled(s, acts[0]) && Runs(gcAfter, Apply(gcAfter, s, acts[0]), acts[1..]))
  }

  ghost function After(gcAfter: int, s: State, acts: seq<Action>): State
    requires Runs(gcAfter, s, acts)
    decreases |acts|
  {
    if acts == [] then s else After(gcAfter, Apply(gcAfter, s, acts[0]), acts[1..])
  }

  const EMPTY := State(0, map[], map[], map[], map[], map[], [], {}, {}, {})

  // ----- The invariant -----

  predicate Used(s: State, key: string) {
    exists i :: 0 <= i < |s.log| && s.log[i].key == key
  }

  /** Some request has claimed the key and is about to attach it. */
  ghost predicate Held(s: State, key: string) {
    exists c :: c in s.calls && s.calls[c].Attaching? && s.calls[c].key == key
  }

  ghost predicate ReservationOk(s: State, key: string)
    requires key in s.ledger
  {
    var u := s.ledger[key];
    && u.key == key
    && u.attachedAt.None?
    && u.createdAt <= s.clock
    && WithinLimits(u.purpose, u.contentType, u.length)
    && exists random: seq<byte> ::
         |random| == 12 && key == NewKey(random, u.purpose, ExtensionFor(u.contentType).value)
  }

  ghost predicate LedgerOk(s: State) {
    forall key {:trigger ReservationOk(s, key)} :: key in s.ledger ==> ReservationOk(s, key)
  }

  ghost predicate FatesOk(gcAfter: int, s: State) {
    && s.table.Keys + s.released == s.ledger.Keys
    && s.table.Keys !! s.released
    && s.deleted <= s.released
    && (forall key :: key in s.table ==> s.table[key].SameReservation(s.ledger[key]))
    && (forall key :: key in s.released ==> s.ledger[key].createdAt + gcAfter < s.clock)
  }

  /** A claim by this user for this purpose took effect on an image that passed inspection. */
  predicate Justified(t: Table, key: string, user: string, purpose: Purpose, info: ImageInfo) {
    && Attached(t, key)
    && t[key].user == user && t[key].purpose == purpose
    && Decodable(info) && Check(purpose, info) == Fine
  }

  ghost predicate CallOk(gcAfter: int, s: State, k: Call) {
    match k
    case Reserving(_, purpose, contentType, length) => WithinLimits(purpose, contentType, length)
    case Claiming(_, purpose, _, info, _) => Decodable(info) && Check(purpose, info) == Fine
    case Attaching(user, purpose, key, info) =>
      Justified(s.table, key, user, purpose, info) && !Used(s, key) && key !in s.burnt
    case Sweeping(cutoff) => cutoff + gcAfter <= s.clock
    case Deleting(keys) => keys <= s.released
    case _ => true
  }

  predicate HeldOnce(calls: map<nat, Call>, c: nat, d: nat)
    requires c in calls && d in calls
  {
    calls[c].Attaching? && calls[d].Attaching? && calls[c].key == calls[d].key ==> c == d
  }

  ghost predicate EachKeyOneHolder(calls: map<nat, Call>) {
    forall c, d {:trigger HeldOnce(calls, c, d)} :: c in calls && d in calls ==> HeldOnce(calls, c, d)
  }

  ghost predicate CallsOk(gcAfter: int, s: State) {
    && (forall c {:trigger CallOk(gcAfter, s, s.calls[c])} :: c in s.calls ==> CallOk(gcAfter, s, s.calls[c]))
    && EachKeyOneHolder(s.calls)
  }

  ghost predicate UseOk(s: State, u: Use) {
    Justified(s.table, u.key, u.user, u.purpose, u.info) && u.key !in s.burnt
  }

  predicate Apart(log: seq<Use>, i: int, j: int)
    requires 0 <= i < j < |log|
  {
    log[i].key != log[j].key
  }

  ghost predicate EachKeyOnce(log: seq<Use>) {
    forall i, j {:trigger Apart(log, i, j)} :: 0 <= i < j < |log| ==> Apart(log, i, j)
  }

  ghost predicate LogOk(s: State) {
    && (forall i {:trigger UseOk(s, s.log[i])} :: 0 <= i < |s.log| ==> UseOk(s, s.log[i]))
    && EachKeyOnce(s.log)
  }

  ghost predicate PostShows(s: State, id: string, i: int)
    requires id in s.posts
  {
    0 <= i < |s.log| && s.log[i].key == s.posts[id] && s.log[i].purpose == Post
  }

  ghost predicate AvatarShows(s: State, user: string, i: int)
    requires user in s.avatars
  {
    0 <= i < |s.log| && s.log[i].key == s.avatars[user] && s.log[i].purpose == Avatar && s.log[i].user == user
  }

  predicate OnlyIn(posts: map<string, string>, x: string, y: string)
    requires x in posts && y in posts
  {
    posts[x] == posts[y] ==> x == y
  }

  ghost predicate EachKeyInOnePost(posts: map<string, string>) {
    forall x, y {:trigger OnlyIn(posts, x, y)} :: x in posts && y in posts ==> OnlyIn(posts, x, y)
  }

  /** What is shown was taken by a logged use, and no two places show one key. */
  ghost predicate ShownOk(s: State) {
    && (forall id :: id in s.posts ==> exists i :: PostShows(s, id, i))
    && (forall user :: user in s.avatars ==> exists i :: AvatarShows(s, user, i))
    && EachKeyInOnePost(s.posts)
  }

  /** No attached key is unaccounted for. */
  ghost predicate AccountOk(s: State) {
    && (forall key :: key in s.burnt ==> Attached(s.table, key))
    && (forall key :: Attached(s.table, key) ==> Used(s, key) || key in s.burnt || Held(s, key))
  }

  ghost predicate Inv(gcAfter: int, s: State) {
    && LedgerOk(s) && FatesOk(gcAfter, s) && CallsOk(gcAfter, s)
    && LogOk(s) && ShownOk(s) && AccountOk(s)
  }

  // ----- What carries over a step -----

  lemma LedgerCarries(s: State, s': State)
    requires LedgerOk(s) && s'.ledger == s.ledger && s.clock <= s'.clock
    ensures LedgerOk(s')
  {
    forall key | key in s'.ledger ensures ReservationOk(s', key) {
      assert ReservationOk(s, key);
    }
  }

  lemma ShownCarries(s: State, s': State)
    requires ShownOk(s) && s.log <= s'.log
    requires s'.posts.Keys <= s.posts.Keys && forall id :: id in s'.posts ==> s'.posts[id] == s.posts[id]
    requires s'.avatars.Keys <= s.avatars.Keys && forall u :: u in s'.avatars ==> s'.avatars[u] == s.avatars[u]
    ensures ShownOk(s')
  {
    forall id | id in s'.posts ensures exists i :: PostShows(s', id, i) {
      var i :| PostShows(s, id, i);
      assert PostShows(s', id, i);
    }
    forall user | user in s'.avatars ensures exists i :: AvatarShows(s', user, i) {
      var i :| AvatarShows(s, user, i);
      assert AvatarShows(s', user, i);
    }
    forall x, y | x in s'.posts && y in s'.posts ensures OnlyIn(s'.posts, x, y) {
      assert OnlyIn(s.posts, x, y);
    }
  }

  /** An attached key's row survived the step, and the step did not burn the key. */
  ghost predicate Undisturbed(s: State, s': State, key: string) {
    key in s.table && key in s'.table && s'.table[key] == s.table[key] && (key in s'.burnt ==> key in s.burnt)
  }

  lemma LogCarries(s: State, s': State)
    requires LogOk(s) && s'.log == s.log
    requires forall i :: 0 <= i < |s.log| ==> Undisturbed(s, s', s.log[i].key)
    ensures LogOk(s')
  {
    forall i | 0 <= i < |s'.log| ensures UseOk(s', s'.log[i]) {
      assert UseOk(s, s.log[i]);
    }
  }

  /** Call `c` moves to `k`, which holds no key that another call holds. */
  ghost predicate Moves(s: State, s': State, c: nat, k: Call) {
    && s'.calls == s.calls[c := k]
    && (k.Attaching? ==>
          forall d :: d in s.calls && d != c && s.calls[d].Attaching? ==> s.calls[d].key != k.key)
  }

  lemma CallsCarry(gcAfter: int, s: State, s': State, c: nat, k: Call)
    requires CallsOk(gcAfter, s) && Moves(s, s', c, k) && CallOk(gcAfter, s', k)
    requires s.clock <= s'.clock && s.released <= s'.released
    requires forall d :: d in s.calls && d != c && s.calls[d].Attaching? ==>
               Undisturbed(s, s', s.calls[d].key) && !Used(s', s.calls[d].key)
    ensures CallsOk(gcAfter, s')
  {
    forall d | d in s'.calls ensures CallOk(gcAfter, s', s'.calls[d]) {
      if d != c {
        assert CallOk(gcAfter, s, s.calls[d]);
      }
    }
    forall d, e | d in s'.calls && e in s'.calls ensures HeldOnce(s'.calls, d, e) {
      if d != c && e != c {
        assert HeldOnce(s.calls, d, e);
      }
    }
  }

  ghost predicate Accounted(s: State, key: string) {
    Used(s, key) || key in s.burnt || Held(s, key)
  }

  /** Whoever held a key other than `but` still holds it. */
  lemma HoldingCarries(s: State, s': State, c: nat, k: Call, but: set<string>, key: string)
    requires s'.calls == s.calls[c := k] && key !in but && Held(s, key)
    requires c in s.calls && s.calls[c].Attaching? ==> s.calls[c].key in but
    ensures Held(s', key)
  {
    var d :| d in s.calls && s.calls[d].Attaching? && s.calls[d].key == key;
    assert d in s'.calls && s'.calls[d].Attaching? && s'.calls[d].key == key;
  }

  lemma AccountCarries(s: State, s': State, c: nat, k: Call, but: set<string>)
    requires AccountOk(s) && s'.calls == s.calls[c := k]
    requires c in s.calls && s.calls[c].Attaching? ==> s.calls[c].key in but
    requires s.log <= s'.log && s.burnt <= s'.burnt <= s.burnt + but
    requires forall key :: key in s.burnt ==> Undisturbed(s, s', key)
    requires forall key :: Attached(s'.table, key) && key !in but ==> Attached(s.table, key)
    requires forall key :: key in but ==> Attached(s'.table, key) && Accounted(s', key)
    ensures AccountOk(s')
  {
    forall key | Attached(s'.table, key) ensures Accounted(s', key) {
      if key !in but {
        assert Accounted(s, key);
        if Held(s, key) {
          HoldingCarries(s, s', c, k, but, key);
        } else if Used(s, key) {
          var i :| 0 <= i < |s.log| && s.log[i].key == key;
          assert s'.log[i].key == key;
        }
      }
    }
  }

  /** What a pending key is not. */
  ghost predicate Unspent(s: State, key: string) {
    && (forall i :: 0 <= i < |s.log| ==> s.log[i].key != key)
    && key !in s.burnt
    && (forall c :: c in s.calls && s.calls[c].Attaching? ==> s.calls[c].key != key)
  }

  lemma PendingIsUnspent(gcAfter: int, s: State, key: string)
    requires Inv(gcAfter, s) && !Attached(s.table, key)
    ensures Unspent(s, key)
  {
    forall i | 0 <= i < |s.log| ensures s.log[i].key != key {
      assert UseOk(s, s.log[i]);
    }
    forall c | c in s.calls && s.calls[c].Attaching? ensures s.calls[c].key != key {
      assert CallOk(gcAfter, s, s.calls[c]);
    }
  }

  /** The rows of attached keys stay put: whatever is logged, burnt or held is undisturbed. */
  ghost predicate Settled(s: State, s': State) {
    && (forall i :: 0 <= i < |s.log| ==> Undisturbed(s, s', s.log[i].key))
    && (forall key :: key in s.burnt ==> Undisturbed(s, s', key))
    && (forall d :: d in s.calls && s.calls[d].Attaching? ==> Undisturbed(s, s', s.calls[d].key))
  }

  lemma AttachedRowsSettle(gcAfter: int, s: State, s': State)
    requires Inv(gcAfter, s)
    requires forall key :: Attached(s.table, key) ==> key in s'.table && s'.table[key] == s.table[key]
    requires forall key :: key in s'.burnt && key !in s.burnt ==> !Attached(s.table, key)
    ensures Settled(s, s')
  {
    forall i | 0 <= i < |s.log| ensures Undisturbed(s, s', s.log[i].key) {
      assert UseOk(s, s.log[i]);
    }
    forall d | d in s.calls && s.calls[d].Attaching? ensures Undisturbed(s, s', s.calls[d].key) {
      assert CallOk(gcAfter, s, s.calls[d]);
    }
  }

  /** The common shape of a step that uses and burns nothing and moves no holder. */
  lemma PlainStepKeepsInv(gcAfter: int, s: State, s': State, c: nat, k: Call)
    requires Inv(gcAfter, s) && LedgerOk(s') && FatesOk(gcAfter, s') && ShownOk(s')
    requires s'.calls == s.calls[c := k] && CallOk(gcAfter, s', k) && !k.Attaching?
    requires c in s.calls ==> !s.calls[c].Attaching?
    requires s.clock <= s'.clock && s.released <= s'.released && s'.log == s.log && s'.burnt == s.burnt
    requires forall key :: Attached(s'.table, key) ==> Attached(s.table, key)
    requires forall key :: Attached(s.table, key) ==> key in s'.table && s'.table[key] == s.table[key]
    ensures Inv(gcAfter, s')
  {
    AttachedRowsSettle(gcAfter, s, s');
    LogCarries(s, s');
    forall d | d in s.calls && d != c && s.calls[d].Attaching? ensures !Used(s', s.calls[d].key) {
      assert CallOk(gcAfter, s, s.calls[d]);
    }
    CallsCarry(gcAfter, s, s', c, k);
    AccountCarries(s, s', c, k, {});
  }

  // ----- Each step keeps the invariant -----

  /** Time passed, or something shown was removed. */
  lemma QuietKeepsInv(gcAfter: int, s: State, s': State)
    requires Inv(gcAfter, s)
    requires s' == s.(clock := s'.clock, posts := s'.posts, avatars := s'.avatars) && s.clock <= s'.clock
    requires s'.posts.Keys <= s.posts.Keys && forall id :: id in s'.posts ==> s'.posts[id] == s.posts[id]
    requires s'.avatars.Keys <= s.avatars.Keys && forall u :: u in s'.avatars ==> s'.avatars[u] == s.avatars[u]
    ensures Inv(gcAfter, s')
  {
    LedgerCarries(s, s');
    ShownCarries(s, s');
    AttachedRowsSettle(gcAfter, s, s');
    LogCarries(s, s');
    forall d | d in s'.calls ensures CallOk(gcAfter, s', s'.calls[d]) {
      assert CallOk(gcAfter, s, s.calls[d]);
    }
    forall key | Attached(s'.table, key) ensures Accounted(s', key) {
      assert Accounted(s, key);
      if Held(s, key) {
        var d :| d in s.calls && s.calls[d].Attaching? && s.calls[d].key == key;
        assert d in s'.calls && s'.calls[d].key == key;
      }
    }
  }

  /** Only the call itself moved. */
  lemma MovingKeepsInv(gcAfter: int, s: State, c: nat, k: Call)
    requires Inv(gcAfter, s) && CallOk(gcAfter, s, k) && !k.Attaching?
    requires c in s.calls ==> !s.calls[c].Attaching?
    ensures Inv(gcAfter, WithCall(s, c, k))
  {
    var s' := WithCall(s, c, k);
    LedgerCarries(s, s');
    ShownCarries(s, s');
    PlainStepKeepsInv(gcAfter, s, s', c, k);
  }

  lemma ReservingKeepsLedger(gcAfter: int, s: State, k: Call, random: seq<byte>)
    requires LedgerOk(s) && k.Reserving? && WithinLimits(k.purpose, k.contentType, k.length)
    requires |random| == 12 && KeyFor(k, random) !in s.ledger
    ensures LedgerOk(ReservedState(s, k, random))
  {
    var s' := ReservedState(s, k, random);
    forall key | key in s'.ledger ensures ReservationOk(s', key) {
      if key in s.ledger {
        assert ReservationOk(s, key);
      }
    }
  }

  /** A fresh key starts pending, and every other key stays what it was. */
  lemma ReservingKeepsFates(gcAfter: int, s: State, k: Call, random: seq<byte>)
    requires FatesOk(gcAfter, s) && k.Reserving? && KeyFor(k, random) !in s.ledger
    ensures var s' := ReservedState(s, k, random);
            && FatesOk(gcAfter, s')
            && (forall key :: Attached(s'.table, key) ==> Attached(s.table, key))
            && (forall key :: Attached(s.table, key) ==> key in s'.table && s'.table[key] == s.table[key])
  {
  }

  lemma ReservingKeepsInv(gcAfter: int, s: State, c: nat, k: Call, random: seq<byte>, next: Call)
    requires Inv(gcAfter, s) && k.Reserving? && CallOk(gcAfter, s, k) && next.Finished?
    requires c in s.calls ==> !s.calls[c].Attaching?
    requires |random| == 12 && KeyFor(k, random) !in s.ledger
    ensures Inv(gcAfter, WithCall(ReservedState(s, k, random), c, next))
  {
    var t := ReservedState(s, k, random);
    var s' := WithCall(t, c, next);
    ReservingKeepsLedger(gcAfter, s, k, random);
    ReservingKeepsFates(gcAfter, s, k, random);
    LedgerCarries(t, s');
    ShownCarries(s, s');
    PlainStepKeepsInv(gcAfter, s, s', c, next);
  }

  lemma ReleasingKeepsInv(gcAfter: int, s: State, c: nat, keys: set<string>, cutoff: int, next: Call)
    requires Inv(gcAfter, s) && cutoff + gcAfter <= s.clock && keys <= AllAbandoned(s.table, cutoff)
    requires c in s.calls ==> !s.calls[c].Attaching?
    requires next.Finished? || next == Deleting(keys)
    ensures Inv(gcAfter, WithCall(s.(table := Released(s.table, keys), released := s.released + keys), c, next))
  {
    var s' := WithCall(s.(table := Released(s.table, keys), released := s.released + keys), c, next);
    LedgerCarries(s, s');
    ShownCarries(s, s');
    PlainStepKeepsInv(gcAfter, s, s', c, next);
  }

  lemma DeletingKeepsInv(gcAfter: int, s: State, c: nat, keys: set<string>, next: Call)
    requires Inv(gcAfter, s) && keys <= s.released && next.Finished?
    requires c in s.calls ==> !s.calls[c].Attaching?
    ensures Inv(gcAfter, WithCall(s.(deleted := s.deleted + keys), c, next))
  {
    var s' := WithCall(s.(deleted := s.deleted + keys), c, next);
    LedgerCarries(s, s');
    ShownCarries(s, s');
    PlainStepKeepsInv(gcAfter, s, s', c, next);
  }

  /** The claim took effect: its key ends up held by the claiming call, or burnt. */
  lemma ClaimingKeepsInv(gcAfter: int, s: State, s': State, c: nat, k: Call, next: Call)
    requires Inv(gcAfter, s) && c in s.calls && s.calls[c] == k && k.Claiming?
    requires Claimable(s.table, k.key, k.user, k.purpose)
    requires s' == WithCall(
                     s.(table := AfterClaim(s.table, k.key, k.user, k.purpose, k.at), burnt := s'.burnt), c, next)
    requires || (next == Attaching(k.user, k.purpose, k.key, k.info) && s'.burnt == s.burnt)
             || (next == Finished(Failed) && s'.burnt == s.burnt + {k.key})
    ensures Inv(gcAfter, s')
  {
    PendingIsUnspent(gcAfter, s, k.key);
    assert CallOk(gcAfter, s, k);
    LedgerCarries(s, s');
    ShownCarries(s, s');
    AttachedRowsSettle(gcAfter, s, s');
    LogCarries(s, s');
    forall d | d in s.calls && d != c && s.calls[d].Attaching? ensures !Used(s', s.calls[d].key) {
      assert CallOk(gcAfter, s, s.calls[d]);
    }
    CallsCarry(gcAfter, s, s', c, next);
    if next.Attaching? {
      assert s'.calls[c].key == k.key;
    }
    AccountCarries(s, s', c, next, {k.key});
  }

  /** The write after the claim failed: the key it held is burnt. */
  lemma BurningKeepsInv(gcAfter: int, s: State, c: nat)
    requires Inv(gcAfter, s) && c in s.calls && s.calls[c].Attaching?
    ensures Inv(gcAfter, WithCall(s.(burnt := s.burnt + {s.calls[c].key}), c, Finished(Failed)))
  {
    var k := s.calls[c];
    var s' := WithCall(s.(burnt := s.burnt + {k.key}), c, Finished(Failed));
    assert CallOk(gcAfter, s, k);
    LedgerCarries(s, s');
    ShownCarries(s, s');
    forall i | 0 <= i < |s.log| ensures Undisturbed(s, s', s.log[i].key) {
      assert UseOk(s, s.log[i]);
    }
    LogCarries(s, s');
    forall d | d in s.calls && d != c && s.calls[d].Attaching?
      ensures Undisturbed(s, s', s.calls[d].key) && !Used(s', s.calls[d].key)
    {
      assert CallOk(gcAfter, s, s.calls[d]) && HeldOnce(s.calls, c, d);
    }
    CallsCarry(gcAfter, s, s', c, Finished(Failed));
    AccountCarries(s, s', c, Finished(Failed), {k.key});
  }

  lemma LoggingAUse(s: State, s': State, k: Call)
    requires k.Attaching? && LogOk(s) && !Used(s, k.key) && k.key !in s.burnt
    requires Justified(s.table, k.key, k.user, k.purpose, k.info)
    requires s'.table == s.table && s'.burnt == s.burnt
    requires s'.log == s.log + [Use(k.key, k.user, k.purpose, k.info)]
    ensures LogOk(s')
  {
    forall i | 0 <= i < |s'.log| ensures UseOk(s', s'.log[i]) {
      if i < |s.log| {
        assert UseOk(s, s.log[i]);
      }
    }
    forall i, j | 0 <= i < j < |s'.log| ensures Apart(s'.log, i, j) {
      if j < |s.log| {
        assert Apart(s.log, i, j);
      }
    }
  }

  lemma NewPostIsShown(s: State, k: Call, id: string)
    requires ShownOk(s) && k.Attaching? && k.purpose == Post && !Used(s, k.key)
    ensures ShownOk(AttachedState(s, k, id))
  {
    var s' := AttachedState(s, k, id);
    var t := s.(log := s'.log);
    ShownCarries(s, t);
    forall x | x in s'.posts ensures exists i :: PostShows(s', x, i) {
      if x == id {
        assert PostShows(s', x, |s.log|);
      } else {
        var i :| PostShows(t, x, i);
        assert PostShows(s', x, i);
      }
    }
    forall u | u in s'.avatars ensures exists i :: AvatarShows(s', u, i) {
      var i :| AvatarShows(t, u, i);
      assert AvatarShows(s', u, i);
    }
    forall x | x in s.posts ensures s.posts[x] != k.key {
      var i :| PostShows(s, x, i);
    }
    forall x, y | x in s'.posts && y in s'.posts ensures OnlyIn(s'.posts, x, y) {
      if x != id && y != id {
        assert OnlyIn(s.posts, x, y);
      }
    }
  }

  lemma NewAvatarIsShown(s: State, k: Call, id: string)
    requires ShownOk(s) && k.Attaching? && k.purpose == Avatar
    ensures ShownOk(AttachedState(s, k, id))
  {
    var s' := AttachedState(s, k, id);
    var t := s.(log := s'.log);
    ShownCarries(s, t);
    forall x | x in s'.posts ensures exists i :: PostShows(s', x, i) {
      var i :| PostShows(t, x, i);
      assert PostShows(s', x, i);
    }
    forall u | u in s'.avatars ensures exists i :: AvatarShows(s', u, i) {
      if u == k.user {
        assert AvatarShows(s', u, |s.log|);
      } else {
        var i :| AvatarShows(t, u, i);
        assert AvatarShows(s', u, i);
      }
    }
  }

  lemma AttachingKeepsShown(s: State, c: nat, id: string, next: Call)
    requires ShownOk(s) && c in s.calls && s.calls[c].Attaching? && !Used(s, s.calls[c].key)
    ensures ShownOk(WithCall(AttachedState(s, s.calls[c], id), c, next))
  {
    var k := s.calls[c];
    match k.purpose {
      case Post => NewPostIsShown(s, k, id);
      case Avatar => NewAvatarIsShown(s, k, id);
    }
    var t := AttachedState(s, k, id);
    ShownCarries(t, WithCall(t, c, next));
  }

  lemma OthersAreUnused(gcAfter: int, s: State, c: nat, d: nat, s': State)
    requires CallsOk(gcAfter, s) && c in s.calls && s.calls[c].Attaching?
    requires d in s.calls && d != c && s.calls[d].Attaching?
    requires |s'.log| == |s.log| + 1 && s.log <= s'.log && s'.log[|s.log|].key == s.calls[c].key
    ensures !Used(s', s.calls[d].key)
  {
    assert CallOk(gcAfter, s, s.calls[d]) && HeldOnce(s.calls, c, d);
  }

  /** The write after the claim took effect: the key the call held is used. */
  lemma AttachingKeepsInv(gcAfter: int, s: State, c: nat, id: string, next: Call)
    requires Inv(gcAfter, s) && c in s.calls && s.calls[c].Attaching? && next.Finished?
    ensures Inv(gcAfter, WithCall(AttachedState(s, s.calls[c], id), c, next))
  {
    var k := s.calls[c];
    var s' := WithCall(AttachedState(s, k, id), c, next);
    assert CallOk(gcAfter, s, k);
    LedgerCarries(s, s');
    LoggingAUse(s, s', k);
    AttachingKeepsShown(s, c, id, next);
    AttachedRowsSettle(gcAfter, s, s');
    forall d | d in s.calls && d != c && s.calls[d].Attaching? ensures !Used(s', s.calls[d].key) {
      OthersAreUnused(gcAfter, s, c, d, s');
    }
    CallsCarry(gcAfter, s, s', c, next);
    assert s'.log[|s.log|].key == k.key;
    AccountCarries(s, s', c, next, {k.key});
  }
}
