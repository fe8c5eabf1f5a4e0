/** Refresh-token rotation as a concurrent protocol. Any number of calls are in flight at
    once; each store statement is one atomic step, and the steps of different calls
    interleave freely. A statement may fail, with or without having taken effect. */
module Rotation {
  import opened Base
  import opened TokenTable

  /** How long the janitor keeps a row past its expiry, in nanoseconds. */
  const WEEK: int := 7 * 24 * 3600 * 1_000_000_000

  /** The hash of a refresh secret, and the lifetime of a refresh token. */
  datatype Config = Config(digest: string -> string, ttl: int)

  ghost predicate Injective(cfg: Config) {
    forall x, y :: cfg.digest(x) == cfg.digest(y) ==> x == y
  }

  /** There are such digests. */
  lemma SomeDigestIsInjective(ttl: int)
    ensures Injective(Config(secret => secret, ttl))
  {
  }

  datatype Outcome =
    | Session(user: string, id: string, secret: string)
    | Invalid
    | Expired
    | Failed
    | Ended

  /** Where one call stands: which store statement it is about to run, with what it has
      already read. */
  datatype Call =
    | Presented(presented: string)
    | Found(presented: string, row: Token)
    | Consuming(presented: string, row: Token, at: int)
    | Replaying(family: string, at: int)
    | Granted(spent: Option<string>, user: string, family: string)
    | Issuing(spent: Option<string>, user: string, family: string, at: int)
    | LoggingOut(presented: string)
    | Ending(family: string, at: int)
    | EndingAll(user: string, at: int)
    | Sweeping(cutoff: int)
    | Finished(spent: Option<string>, outcome: Outcome)

  /** History: a row as it was first stored, the secret it was exchanged for, the call that
      stored it, and its place in its family. */
  datatype Entry = Entry(row: Token, secret: string, spent: Option<string>, issuer: nat, index: nat)

  /** History: the user a family was started for, and its row ids in order of issue. */
  datatype Lineage = Lineage(user: string, ids: seq<string>)

  datatype State = State(
    clock: int,
    table: Table,
    calls: map<nat, Call>,
    ledger: map<string, Entry>,
    lineages: map<string, Lineage>)

  datatype Action =
    | Tick(to: int)
    | BeginStart(c: nat, user: string, family: string)
    | BeginRotate(c: nat, presented: string)
    | BeginRevoke(c: nat, presented: string)
    | BeginRevokeAll(c: nat, user: string)
    | BeginSweep(c: nat)
    | Proceed(c: nat, id: string, secret: string)
    | Lose(c: nat, applied: bool, id: string, secret: string)

  // ----- Steps -----

  /** Fresh identifiers and secrets: neither has ever been stored before. */
  ghost predicate Fresh(s: State, id: string, secret: string) {
    id !in s.ledger && forall x :: x in s.ledger ==> s.ledger[x].secret != secret
  }

  ghost predicate Runnable(s: State, c: nat, id: string, secret: string) {
    && c in s.calls
    && !s.calls[c].Finished?
    && (s.calls[c].Issuing? ==> Fresh(s, id, secret))
  }

  ghost predicate Enabled(s: State, a: Action) {
    match a
    case Tick(to) => s.clock <= to
    case BeginStart(c, user, family) => c !in s.calls && family !in s.lineages
    case BeginRotate(c, _) => c !in s.calls
    case BeginRevoke(c, _) => c !in s.calls
    case BeginRevokeAll(c, _) => c !in s.calls
    case BeginSweep(c) => c !in s.calls
    case Proceed(c, id, secret) => Runnable(s, c, id, secret)
    case Lose(c, _, id, secret) => Runnable(s, c, id, secret)
  }

  /** The row that issue() stores. */
  function NewRow(cfg: Config, k: Call, id: string, secret: string): Token
    requires k.Issuing?
  {
    Token(id, k.user, k.family, cfg.digest(secret), k.at + cfg.ttl, k.at, None, None)
  }

  ghost function Stored(cfg: Config, s: State, c: nat, k: Call, id: string, secret: string): State
    requires k.Issuing?
  {
    var row := NewRow(cfg, k, id, secret);
    var line := if k.family in s.lineages then s.lineages[k.family] else Lineage(k.user, []);
    s.(table := Inserted(s.table, row),
       ledger := s.ledger[id := Entry(row, secret, k.spent, c, |line.ids|)],
       lineages := s.lineages[k.family := line.(ids := line.ids + [id])])
  }

  /** What the statement that call `c` is about to run does to the store. */
  ghost function Effect(cfg: Config, s: State, c: nat, k: Call, id: string, secret: string): State {
    match k
    case Consuming(_, row, at) => s.(table := Marked(s.table, row.id, at))
    case Replaying(family, at) => s.(table := FamilyRevoked(s.table, family, at))
    case Ending(family, at) => s.(table := FamilyRevoked(s.table, family, at))
    case EndingAll(user, at) => s.(table := UserRevoked(s.table, user, at))
    case Sweeping(cutoff) => s.(table := WithoutExpired(s.table, cutoff))
    case Issuing(_, _, _, _) => Stored(cfg, s, c, k, id, secret)
    case _ => s
  }

  /** What Rotate decides from the row it read, before it consumes anything. */
  function Judged(presented: string, row: Token, now: int): Call {
    if row.usedAt.Some? then Replaying(row.family, now)
    else if row.revokedAt.Some? then Finished(Some(presented), Invalid)
    else if !(now < row.expiresAt) then Finished(Some(presented), Expired)
    else Consuming(presented, row, now)
  }

  /** Where call `k` stands after its next step succeeded in state `s`. */
  ghost function Next(cfg: Config, s: State, k: Call, id: string, secret: string): Call {
    match k
    case Presented(presented) =>
      (match ByHash(s.table, cfg.digest(presented))
       case None => Finished(Some(presented), Invalid)
       case Some(row) => Found(presented, row))
    case Found(presented, row) => Judged(presented, row, s.clock)
    case Consuming(presented, row, at) =>
      if Unspent(s.table, row.id) then Granted(Some(presented), row.user, row.family)
      else Replaying(row.family, at)
    case Replaying(_, _) => Finished(None, Invalid)
    case Granted(spent, user, family) => Issuing(spent, user, family, s.clock)
    case Issuing(spent, user, _, _) => Finished(spent, Session(user, id, secret))
    case LoggingOut(presented) =>
      (match ByHash(s.table, cfg.digest(presented))
       case None => Finished(None, Ended)
       case Some(row) => Ending(row.family, s.clock))
    case Ending(_, _) => Finished(None, Ended)
    case EndingAll(_, _) => Finished(None, Ended)
    case Sweeping(_) => Finished(None, Ended)
    case Finished(_, _) => k
  }

  ghost function WithCall(s: State, c: nat, k: Call): State {
    s.(calls := s.calls[c := k])
  }

  ghost function Apply(cfg: Config, s: State, a: Action): State
    requires Enabled(s, a)
  {
    match a
    case Tick(to) => s.(clock := to)
    case BeginStart(c, user, family) =>
      WithCall(WithFamily(s, family, user), c, Granted(None, user, family))
    case BeginRotate(c, presented) =>
      WithCall(s, c, if presented == "" then Finished(Some(presented), Invalid) else Presented(presented))
    case BeginRevoke(c, presented) =>
      WithCall(s, c, if presented == "" then Finished(None, Ended) else LoggingOut(presented))
    case BeginRevokeAll(c, user) => WithCall(s, c, EndingAll(user, s.clock))
    case BeginSweep(c) => WithCall(s, c, Sweeping(s.clock - WEEK))
    case Proceed(c, id, secret) =>
      WithCall(Effect(cfg, s, c, s.calls[c], id, secret), c, Next(cfg, s, s.calls[c], id, secret))
    case Lose(c, applied, id, secret) =>
      WithCall(if applied then Effect(cfg, s, c, s.calls[c], id, secret) else s, c, Finished(None, Failed))
  }

  /** A run: every action enabled where it is taken. */
  ghost predicate Runs(cfg: Config, s: State, acts: seq<Action>)
    decreases |acts|
  {
    acts == [] ||
    (Enabled(s, acts[0]) && Runs(cfg, Apply(cfg, s, acts[0]), acts[1..]))
  }

  ghost function After(cfg: Config, s: State, acts: seq<Action>): State
    requires Runs(cfg, s, acts)
    decreases |acts|
  {
    if acts == [] then s else After(cfg, Apply(cfg, s, acts[0]), acts[1..])
  }

  const EMPTY := State(0, map[], map[], map[], map[])

  // ----- The invariant -----

  predicate Holding(k: Call) {
    k.Granted? || k.Issuing?
  }

  ghost predicate EntryOk(cfg: Config, s: State, id: string)
    requires id in s.ledger
  {
    var e := s.ledger[id];
    && e.row.id == id
    && e.row.usedAt.None? && e.row.revokedAt.None?
    && e.row.family in s.lineages
    && e.index < |s.lineages[e.row.family].ids|
    && s.lineages[e.row.family].ids[e.index] == id
    && e.row.user == s.lineages[e.row.family].user
    && e.row.hash == cfg.digest(e.secret)
    && e.row.expiresAt == e.row.createdAt + cfg.ttl
    && e.row.createdAt <= s.clock
    && e.issuer in s.calls
    && s.calls[e.issuer].Finished?
  }

  /** The first row of a family answers no secret; each later one answers its predecessor's. */
  ghost predicate LinkOk(cfg: Config, s: State, id: string)
    requires id in s.ledger && EntryOk(cfg, s, id)
  {
    var e := s.ledger[id];
    if e.index == 0 then e.spent == None
    else
      var previous := s.lineages[e.row.family].ids[e.index - 1];
      previous in s.ledger && e.spent.Some? && cfg.digest(e.spent.value) == s.ledger[previous].row.hash
  }

  ghost predicate PlaceOk(s: State, f: string, i: nat)
    requires f in s.lineages && i < |s.lineages[f].ids|
  {
    var id := s.lineages[f].ids[i];
    id in s.ledger && s.ledger[id].index == i && s.ledger[id].row.family == f
  }

  /** Every row and every place in a family refer to each other. */
  ghost predicate EntriesOk(cfg: Config, s: State) {
    && (forall id {:trigger EntryOk(cfg, s, id)} :: id in s.ledger ==> EntryOk(cfg, s, id))
    && (forall f, i: nat {:trigger PlaceOk(s, f, i)} ::
          f in s.lineages && i < |s.lineages[f].ids| ==> PlaceOk(s, f, i))
  }

  /** No secret is issued twice, no call issues twice, and a family's rows are in time order. */
  ghost predicate InOrder(ledger: map<string, Entry>, x: string, y: string)
    requires x in ledger && y in ledger
  {
    && (ledger[x].secret == ledger[y].secret ==> x == y)
    && (ledger[x].issuer == ledger[y].issuer ==> x == y)
    && (ledger[x].row.family == ledger[y].row.family && ledger[x].index <= ledger[y].index ==>
          ledger[x].row.createdAt <= ledger[y].row.createdAt)
  }

  ghost predicate OrderOk(ledger: map<string, Entry>) {
    forall x, y {:trigger InOrder(ledger, x, y)} :: x in ledger && y in ledger ==> InOrder(ledger, x, y)
  }

  ghost predicate HistoryOk(cfg: Config, s: State) {
    EntriesOk(cfg, s) && OrderOk(s.ledger)
  }

  ghost predicate LinksOk(cfg: Config, s: State)
    requires EntriesOk(cfg, s)
  {
    forall id {:trigger LinkOk(cfg, s, id)} :: id in s.ledger ==> LinkOk(cfg, s, id)
  }

  ghost predicate Last(s: State, id: string)
    requires id in s.ledger && s.ledger[id].row.family in s.lineages
  {
    s.ledger[id].index + 1 == |s.lineages[s.ledger[id].row.family].ids|
  }

  ghost predicate RowOk(s: State, id: string)
    requires id in s.table
  {
    && id in s.ledger
    && s.ledger[id].row.family in s.lineages
    && s.table[id].SameCredential(s.ledger[id].row)
    && (s.table[id].usedAt.None? ==> Last(s, id))
  }

  ghost predicate TableOk(s: State) {
    && (forall id {:trigger RowOk(s, id)} :: id in s.table ==> RowOk(s, id))
    && (forall id :: id in s.ledger && id !in s.table ==> s.ledger[id].row.expiresAt + WEEK < s.clock)
  }

  /** A row some call read earlier: still the same credential, and never un-used since. */
  ghost predicate ReadOk(cfg: Config, s: State, presented: string, row: Token) {
    && row.id in s.ledger
    && row.SameCredential(s.ledger[row.id].row)
    && row.hash == cfg.digest(presented)
    && (row.usedAt.Some? && row.id in s.table ==> s.table[row.id].usedAt.Some?)
  }

  ghost predicate HolderOk(cfg: Config, s: State, spent: Option<string>, user: string, family: string) {
    && family in s.lineages
    && s.lineages[family].user == user
    && var ids := s.lineages[family].ids;
       if ids == [] then spent == None
       else
         && ids[|ids| - 1] in s.ledger
         && spent.Some?
         && cfg.digest(spent.value) == s.ledger[ids[|ids| - 1]].row.hash
         && (ids[|ids| - 1] in s.table ==> s.table[ids[|ids| - 1]].usedAt.Some?)
  }

  /** What a finished Rotate or Start that returned a session has left in the history. */
  ghost predicate SessionOk(s: State, c: nat, spent: Option<string>, outcome: Outcome)
    requires outcome.Session?
  {
    && outcome.id in s.ledger
    && var e := s.ledger[outcome.id];
       e.issuer == c && e.spent == spent && e.secret == outcome.secret && e.row.user == outcome.user
  }

  ghost predicate CallOk(cfg: Config, s: State, c: nat, k: Call) {
    match k
    case Presented(_) => true
    case Found(presented, row) => ReadOk(cfg, s, presented, row)
    case Consuming(presented, row, at) =>
      ReadOk(cfg, s, presented, row) && row.usedAt.None? && row.revokedAt.None? && at < row.expiresAt
    case Replaying(family, _) => family in s.lineages && s.lineages[family].ids != []
    case Granted(spent, user, family) => HolderOk(cfg, s, spent, user, family)
    case Issuing(spent, user, family, at) =>
      && HolderOk(cfg, s, spent, user, family)
      && at <= s.clock
      && (forall id :: id in s.ledger && s.ledger[id].row.family == family ==> s.ledger[id].row.createdAt <= at)
    case LoggingOut(_) => true
    case Ending(family, _) => family in s.lineages && s.lineages[family].ids != []
    case EndingAll(_, _) => true
    case Sweeping(cutoff) => cutoff + WEEK <= s.clock
    case Finished(spent, outcome) =>
      outcome.Session? ==> SessionOk(s, c, spent, outcome)
  }

  predicate OneHolder(calls: map<nat, Call>, c: nat, d: nat)
    requires c in calls && d in calls
  {
    Holding(calls[c]) && Holding(calls[d]) && calls[c].family == calls[d].family ==> c == d
  }

  ghost predicate EachFamilyOneHolder(calls: map<nat, Call>) {
    forall c, d {:trigger OneHolder(calls, c, d)} :: c in calls && d in calls ==> OneHolder(calls, c, d)
  }

  ghost predicate CallsOk(cfg: Config, s: State) {
    && (forall c {:trigger CallOk(cfg, s, c, s.calls[c])} :: c in s.calls ==> CallOk(cfg, s, c, s.calls[c]))
    && EachFamilyOneHolder(s.calls)
  }

  ghost predicate Inv(cfg: Config, s: State) {
    HistoryOk(cfg, s) && LinksOk(cfg, s) && TableOk(s) && CallsOk(cfg, s)
  }

  lemma RowsAreKeyed(cfg: Config, s: State)
    requires Inv(cfg, s)
    ensures Keyed(s.table)
  {
    forall id | id in s.table ensures s.table[id].id == id {
      assert RowOk(s, id) && EntryOk(cfg, s, id);
    }
  }

  lemma DigestsAreUnique(cfg: Config, s: State)
    requires Inv(cfg, s) && Injective(cfg)
    ensures UniqueHashes(s.table)
  {
    forall x, y | x in s.table && y in s.table && s.table[x].hash == s.table[y].hash ensures x == y {
      assert RowOk(s, x) && EntryOk(cfg, s, x) && RowOk(s, y) && EntryOk(cfg, s, y);
      assert InOrder(s.ledger, x, y);
    }
  }

  // ----- Preservation -----

  /** Statements that store no new row: rows may vanish, be used or be revoked, nothing else. */
  ghost predicate Ages(s: State, s': State) {
    && s' == s.(clock := s'.clock, table := s'.table)
    && s.clock <= s'.clock
    && forall id :: id in s'.table ==>
         && id in s.table
         && s'.table[id].SameCredential(s.table[id])
         && (s.table[id].usedAt.Some? ==> s'.table[id].usedAt.Some?)
  }

  lemma AgingKeepsCalls(cfg: Config, s: State, s': State, c: nat, k: Call)
    requires Ages(s, s') && CallOk(cfg, s, c, k)
    ensures CallOk(cfg, s', c, k)
  {
  }

  lemma SameHistorySameLinks(cfg: Config, s: State, s': State)
    requires EntriesOk(cfg, s) && EntriesOk(cfg, s') && LinksOk(cfg, s)
    requires s'.ledger == s.ledger
    requires forall f :: f in s.lineages ==> f in s'.lineages && s'.lineages[f] == s.lineages[f]
    ensures LinksOk(cfg, s')
  {
    forall id | id in s'.ledger ensures LinkOk(cfg, s', id) {
      assert EntryOk(cfg, s, id) && LinkOk(cfg, s, id);
    }
  }

  lemma AgingKeepsInv(cfg: Config, s: State, s': State)
    requires Inv(cfg, s) && Ages(s, s') && TableOk(s')
    ensures Inv(cfg, s')
  {
    forall id | id in s'.ledger ensures EntryOk(cfg, s', id) {
      assert EntryOk(cfg, s, id);
    }
    forall f, i: nat | f in s'.lineages && i < |s'.lineages[f].ids| ensures PlaceOk(s', f, i) {
      assert PlaceOk(s, f, i);
    }
    SameHistorySameLinks(cfg, s, s');
    forall c | c in s'.calls ensures CallOk(cfg, s', c, s'.calls[c]) {
      AgingKeepsCalls(cfg, s, s', c, s.calls[c]);
    }
  }

  lemma RevokingAges(s: State, table: Table)
    requires TableOk(s)
    requires table.Keys == s.table.Keys
    requires forall id :: id in table ==> table[id] == s.table[id].(revokedAt := table[id].revokedAt)
    ensures Ages(s, s.(table := table)) && TableOk(s.(table := table))
  {
    var s' := s.(table := table);
    forall id | id in s'.table ensures RowOk(s', id) {
      assert RowOk(s, id);
    }
  }

  lemma RevokingFamilyAges(s: State, family: string, at: int)
    requires TableOk(s)
    ensures var s' := s.(table := FamilyRevoked(s.table, family, at)); Ages(s, s') && TableOk(s')
  {
    RevokingAges(s, FamilyRevoked(s.table, family, at));
  }

  lemma RevokingUserAges(s: State, user: string, at: int)
    requires TableOk(s)
    ensures var s' := s.(table := UserRevoked(s.table, user, at)); Ages(s, s') && TableOk(s')
  {
    RevokingAges(s, UserRevoked(s.table, user, at));
  }

  lemma MarkingAges(s: State, id: string, at: int)
    requires TableOk(s)
    ensures var s' := s.(table := Marked(s.table, id, at)); Ages(s, s') && TableOk(s')
  {
    var s' := s.(table := Marked(s.table, id, at));
    forall x | x in s'.table ensures RowOk(s', x) {
      assert RowOk(s, x);
    }
  }

  lemma SweepingAges(s: State, cutoff: int)
    requires TableOk(s) && cutoff + WEEK <= s.clock
    ensures var s' := s.(table := WithoutExpired(s.table, cutoff)); Ages(s, s') && TableOk(s')
  {
    var s' := s.(table := WithoutExpired(s.table, cutoff));
    forall x | x in s'.table ensures RowOk(s', x) {
      assert RowOk(s, x);
    }
    forall x | x in s'.ledger && x !in s'.table ensures s'.ledger[x].row.expiresAt + WEEK < s'.clock {
      if x in s.table {
        assert RowOk(s, x);
      }
    }
  }

  lemma EffectAges(cfg: Config, s: State, c: nat, k: Call, id: string, secret: string)
    requires TableOk(s) && !k.Issuing?
    requires k.Sweeping? ==> k.cutoff + WEEK <= s.clock
    ensures var s' := Effect(cfg, s, c, k, id, secret); Ages(s, s') && TableOk(s')
  {
    match k {
      case Consuming(_, row, at) => MarkingAges(s, row.id, at);
      case Replaying(family, at) => RevokingFamilyAges(s, family, at);
      case Ending(family, at) => RevokingFamilyAges(s, family, at);
      case EndingAll(user, at) => RevokingUserAges(s, user, at);
      case Sweeping(cutoff) => SweepingAges(s, cutoff);
      case _ =>
    }
  }

  lemma EffectKeepsInv(cfg: Config, s: State, c: nat, id: string, secret: string)
    requires Inv(cfg, s) && c in s.calls && !s.calls[c].Issuing?
    ensures var s' := Effect(cfg, s, c, s.calls[c], id, secret); Ages(s, s') && Inv(cfg, s')
  {
    assert CallOk(cfg, s, c, s.calls[c]);
    EffectAges(cfg, s, c, s.calls[c], id, secret);
    AgingKeepsInv(cfg, s, Effect(cfg, s, c, s.calls[c], id, secret));
  }

  lemma MovingKeepsHistory(cfg: Config, s: State, c: nat, k: Call)
    requires HistoryOk(cfg, s) && TableOk(s)
    requires c in s.calls ==> !s.calls[c].Finished?
    ensures HistoryOk(cfg, WithCall(s, c, k)) && TableOk(WithCall(s, c, k))
  {
    var s' := WithCall(s, c, k);
    forall id | id in s'.ledger ensures EntryOk(cfg, s', id) {
      assert EntryOk(cfg, s, id);
    }
    forall f, i: nat | f in s'.lineages && i < |s'.lineages[f].ids| ensures PlaceOk(s', f, i) {
      assert PlaceOk(s, f, i);
    }
    forall id | id in s'.table ensures RowOk(s', id) {
      assert RowOk(s, id);
    }
  }

  /** `k` would be the only holder of its family. */
  ghost predicate SoleHolder(s: State, c: nat, k: Call) {
    Holding(k) ==>
      forall d :: d in s.calls && d != c && Holding(s.calls[d]) ==> s.calls[d].family != k.family
  }

  lemma MovingKeepsCalls(cfg: Config, s: State, c: nat, k: Call)
    requires CallsOk(cfg, s) && CallOk(cfg, s, c, k) && SoleHolder(s, c, k)
    ensures CallsOk(cfg, WithCall(s, c, k))
  {
    var s' := WithCall(s, c, k);
    forall d | d in s'.calls ensures CallOk(cfg, s', d, s'.calls[d]) {
      SameStoreSameCall(cfg, s, s', d, s'.calls[d]);
    }
    forall d, e | d in s'.calls && e in s'.calls ensures OneHolder(s'.calls, d, e) {
      if d != c && e != c {
        assert OneHolder(s.calls, d, e);
      }
    }
  }

  /** A call's position is judged against the store and the history, not other calls. */
  lemma SameStoreSameCall(cfg: Config, s: State, s': State, c: nat, k: Call)
    requires s' == s.(calls := s'.calls)
    ensures CallOk(cfg, s, c, k) == CallOk(cfg, s', c, k)
  {
  }

  /** Moving one call on keeps the invariant when its new position is justified. */
  lemma MovingKeepsInv(cfg: Config, s: State, c: nat, k: Call)
    requires Inv(cfg, s)
    requires c in s.calls ==> !s.calls[c].Finished?
    requires CallOk(cfg, s, c, k) && SoleHolder(s, c, k)
    ensures Inv(cfg, WithCall(s, c, k))
  {
    MovingKeepsHistory(cfg, s, c, k);
    SameHistorySameLinks(cfg, s, WithCall(s, c, k));
    MovingKeepsCalls(cfg, s, c, k);
  }

  /** A row the store hands out is justified by the history. */
  lemma ReadingIsOk(cfg: Config, s: State, presented: string)
    requires Inv(cfg, s)
    ensures var found := ByHash(s.table, cfg.digest(presented));
            found.Some? ==>
              && ReadOk(cfg, s, presented, found.value)
              && found.value.family in s.lineages
              && s.lineages[found.value.family].ids != []
  {
    var found := ByHash(s.table, cfg.digest(presented));
    RowsAreKeyed(cfg, s);
    if found.Some? {
      assert RowOk(s, found.value.id) && EntryOk(cfg, s, found.value.id);
    }
  }

  lemma JudgingIsOk(cfg: Config, s: State, c: nat, presented: string, row: Token)
    requires HistoryOk(cfg, s) && ReadOk(cfg, s, presented, row)
    ensures CallOk(cfg, s, c, Judged(presented, row, s.clock))
    ensures !Holding(Judged(presented, row, s.clock))
  {
    assert EntryOk(cfg, s, row.id);
  }

  /** An unused row is the last of its family. */
  lemma UnusedIsLast(cfg: Config, s: State, id: string)
    requires Inv(cfg, s) && Unspent(s.table, id)
    ensures var f := s.table[id].family;
            && f in s.lineages
            && s.table[id].user == s.lineages[f].user
            && s.lineages[f].ids != []
            && s.lineages[f].ids[|s.lineages[f].ids| - 1] == id
            && id in s.ledger && s.table[id].SameCredential(s.ledger[id].row)
  {
    assert RowOk(s, id) && EntryOk(cfg, s, id);
  }

  lemma HoldersFindTheLastSpent(cfg: Config, s: State, d: nat)
    requires CallsOk(cfg, s) && d in s.calls && Holding(s.calls[d])
    ensures var f := s.calls[d].family;
            && f in s.lineages
            && var ids := s.lineages[f].ids;
               ids != [] ==> !Unspent(s.table, ids[|ids| - 1])
  {
    assert CallOk(cfg, s, d, s.calls[d]);
  }

  lemma NoHolderBesideAnUnusedRow(cfg: Config, s: State, id: string, d: nat)
    requires Inv(cfg, s) && Unspent(s.table, id) && d in s.calls && Holding(s.calls[d])
    ensures s.calls[d].family != s.table[id].family
  {
    UnusedIsLast(cfg, s, id);
    HoldersFindTheLastSpent(cfg, s, d);
  }

  /** A successful MarkUsed makes the caller the one holder of its family. */
  lemma ConsumerBecomesHolder(cfg: Config, s: State, c: nat, presented: string, row: Token, at: int)
    requires Inv(cfg, s) && ReadOk(cfg, s, presented, row) && Unspent(s.table, row.id)
    ensures HolderOk(cfg, s.(table := Marked(s.table, row.id, at)), Some(presented), row.user, row.family)
    ensures SoleHolder(s, c, Granted(Some(presented), row.user, row.family))
  {
    UnusedIsLast(cfg, s, row.id);
    forall d | d in s.calls && d != c && Holding(s.calls[d]) ensures s.calls[d].family != row.family {
      NoHolderBesideAnUnusedRow(cfg, s, row.id, d);
    }
  }

  /** The loser of a race to consume a row knows the family it has to revoke. */
  lemma ReplayKnowsItsFamily(cfg: Config, s: State, presented: string, row: Token)
    requires EntriesOk(cfg, s) && ReadOk(cfg, s, presented, row)
    ensures row.family in s.lineages && s.lineages[row.family].ids != []
  {
    assert EntryOk(cfg, s, row.id);
  }

  lemma StampingIsOk(cfg: Config, s: State, c: nat, spent: Option<string>, user: string, family: string)
    requires EntriesOk(cfg, s) && HolderOk(cfg, s, spent, user, family)
    ensures CallOk(cfg, s, c, Issuing(spent, user, family, s.clock))
  {
    forall id | id in s.ledger && s.ledger[id].row.family == family ensures s.ledger[id].row.createdAt <= s.clock {
      assert EntryOk(cfg, s, id);
    }
  }

  lemma NextIsJustified(cfg: Config, s: State, c: nat, id: string, secret: string)
    requires Inv(cfg, s) && c in s.calls && !s.calls[c].Finished? && !s.calls[c].Issuing?
    ensures var k := s.calls[c];
            var k' := Next(cfg, s, k, id, secret);
            CallOk(cfg, Effect(cfg, s, c, k, id, secret), c, k') && SoleHolder(s, c, k')
  {
    var k := s.calls[c];
    assert CallOk(cfg, s, c, k);
    match k {
      case Presented(presented) => ReadingIsOk(cfg, s, presented);
      case Found(presented, row) => JudgingIsOk(cfg, s, c, presented, row);
      case Consuming(presented, row, at) =>
        if Unspent(s.table, row.id) {
          ConsumerBecomesHolder(cfg, s, c, presented, row, at);
        } else {
          ReplayKnowsItsFamily(cfg, s, presented, row);
        }
      case Granted(spent, user, family) =>
        StampingIsOk(cfg, s, c, spent, user, family);
        forall d | d in s.calls && d != c && Holding(s.calls[d]) ensures s.calls[d].family != family {
          assert OneHolder(s.calls, c, d);
        }
      case LoggingOut(presented) => ReadingIsOk(cfg, s, presented);
      case _ =>
    }
  }

  // ----- Storing the next row of a family -----

  lemma StoringKeepsEntries(cfg: Config, s: State, c: nat, id: string, secret: string, k': Call)
    requires EntriesOk(cfg, s) && c in s.calls && s.calls[c].Issuing? && CallOk(cfg, s, c, s.calls[c])
    requires Fresh(s, id, secret) && k'.Finished?
    ensures EntriesOk(cfg, WithCall(Stored(cfg, s, c, s.calls[c], id, secret), c, k'))
  {
    var s' := WithCall(Stored(cfg, s, c, s.calls[c], id, secret), c, k');
    forall x | x in s'.ledger ensures EntryOk(cfg, s', x) {
      if x != id {
        assert EntryOk(cfg, s, x);
      }
    }
    forall f, i: nat | f in s'.lineages && i < |s'.lineages[f].ids| ensures PlaceOk(s', f, i) {
      if i < |s.lineages[f].ids| {
        assert PlaceOk(s, f, i);
      }
    }
  }

  lemma StoringKeepsOrder(cfg: Config, s: State, c: nat, id: string, secret: string, k': Call)
    requires HistoryOk(cfg, s) && c in s.calls && s.calls[c].Issuing? && CallOk(cfg, s, c, s.calls[c])
    requires Fresh(s, id, secret)
    ensures OrderOk(WithCall(Stored(cfg, s, c, s.calls[c], id, secret), c, k').ledger)
  {
    var s' := Stored(cfg, s, c, s.calls[c], id, secret);
    forall x | x in s.ledger
      ensures s.ledger[x].issuer != c
      ensures s.ledger[x].row.family == s.calls[c].family ==> s.ledger[x].index < s'.ledger[id].index
    {
      assert EntryOk(cfg, s, x);
    }
    forall x, y | x in s'.ledger && y in s'.ledger ensures InOrder(s'.ledger, x, y) {
      if x != id && y != id {
        assert InOrder(s.ledger, x, y);
      }
    }
  }

  lemma StoringKeepsLinks(cfg: Config, s: State, c: nat, id: string, secret: string, k': Call)
    requires EntriesOk(cfg, s) && LinksOk(cfg, s)
    requires c in s.calls && s.calls[c].Issuing? && CallOk(cfg, s, c, s.calls[c])
    requires Fresh(s, id, secret) && k'.Finished?
    requires EntriesOk(cfg, WithCall(Stored(cfg, s, c, s.calls[c], id, secret), c, k'))
    ensures LinksOk(cfg, WithCall(Stored(cfg, s, c, s.calls[c], id, secret), c, k'))
  {
    var k := s.calls[c];
    var s' := WithCall(Stored(cfg, s, c, k, id, secret), c, k');
    forall x | x in s'.ledger ensures LinkOk(cfg, s', x) {
      if x != id {
        OldLinkIsOk(cfg, s, c, id, secret, k', x);
      }
    }
  }

  lemma OldLinkIsOk(cfg: Config, s: State, c: nat, id: string, secret: string, k': Call, x: string)
    requires c in s.calls && s.calls[c].Issuing? && Fresh(s, id, secret)
    requires x in s.ledger && EntryOk(cfg, s, x) && LinkOk(cfg, s, x)
    requires EntryOk(cfg, WithCall(Stored(cfg, s, c, s.calls[c], id, secret), c, k'), x)
    ensures LinkOk(cfg, WithCall(Stored(cfg, s, c, s.calls[c], id, secret), c, k'), x)
  {
    var s' := WithCall(Stored(cfg, s, c, s.calls[c], id, secret), c, k');
    var e := s.ledger[x];
    if e.index > 0 {
      assert s'.lineages[e.row.family].ids[e.index - 1] == s.lineages[e.row.family].ids[e.index - 1];
    }
  }

  lemma StoringKeepsTable(cfg: Config, s: State, c: nat, id: string, secret: string, k': Call)
    requires EntriesOk(cfg, s) && TableOk(s)
    requires c in s.calls && s.calls[c].Issuing? && CallOk(cfg, s, c, s.calls[c])
    requires Fresh(s, id, secret)
    ensures TableOk(WithCall(Stored(cfg, s, c, s.calls[c], id, secret), c, k'))
  {
    var s1 := Stored(cfg, s, c, s.calls[c], id, secret);
    var s' := WithCall(s1, c, k');
    forall x | x in s'.table ensures RowOk(s', x) {
      if x != id {
        assert RowOk(s, x) && EntryOk(cfg, s, x);
      }
      assert RowOk(s1, x);
    }
  }

  lemma StoringKeepsCalls(cfg: Config, s: State, c: nat, id: string, secret: string, k': Call)
    requires HistoryOk(cfg, s) && CallsOk(cfg, s) && c in s.calls && s.calls[c].Issuing? && Fresh(s, id, secret)
    requires k'.Finished?
    requires k'.outcome.Session? ==>
               k' == Finished(s.calls[c].spent, Session(s.calls[c].user, id, secret))
    ensures CallsOk(cfg, WithCall(Stored(cfg, s, c, s.calls[c], id, secret), c, k'))
  {
    var s1 := Stored(cfg, s, c, s.calls[c], id, secret);
    var s' := WithCall(s1, c, k');
    assert CallOk(cfg, s, c, s.calls[c]);
    forall d | d in s'.calls ensures CallOk(cfg, s', d, s'.calls[d]) {
      if d != c {
        assert CallOk(cfg, s, d, s.calls[d]) && OneHolder(s.calls, c, d);
      }
      SameStoreSameCall(cfg, s1, s', d, s'.calls[d]);
    }
    forall d, e | d in s'.calls && e in s'.calls ensures OneHolder(s'.calls, d, e) {
      if d != c && e != c {
        assert OneHolder(s.calls, d, e);
      }
    }
  }

  lemma StoringKeepsInv(cfg: Config, s: State, c: nat, id: string, secret: string, k': Call)
    requires Inv(cfg, s) && c in s.calls && s.calls[c].Issuing? && Fresh(s, id, secret)
    requires k'.Finished?
    requires k'.outcome.Session? ==>
               k' == Finished(s.calls[c].spent, Session(s.calls[c].user, id, secret))
    ensures Inv(cfg, WithCall(Stored(cfg, s, c, s.calls[c], id, secret), c, k'))
  {
    assert CallOk(cfg, s, c, s.calls[c]);
    StoringKeepsEntries(cfg, s, c, id, secret, k');
    StoringKeepsOrder(cfg, s, c, id, secret, k');
    StoringKeepsLinks(cfg, s, c, id, secret, k');
    StoringKeepsTable(cfg, s, c, id, secret, k');
    StoringKeepsCalls(cfg, s, c, id, secret, k');
  }

  // ----- Every action -----

  ghost function WithFamily(s: State, family: string, user: string): State {
    s.(lineages := s.lineages[family := Lineage(user, [])])
  }

  lemma NewFamilyKeepsHistory(cfg: Config, s: State, family: string, user: string)
    requires EntriesOk(cfg, s) && OrderOk(s.ledger) && TableOk(s) && LinksOk(cfg, s) && family !in s.lineages
    ensures var s1 := WithFamily(s, family, user);
            EntriesOk(cfg, s1) && OrderOk(s1.ledger) && TableOk(s1) && LinksOk(cfg, s1)
  {
    var s1 := WithFamily(s, family, user);
    forall id | id in s.ledger ensures EntryOk(cfg, s1, id) {
      assert EntryOk(cfg, s, id);
    }
    forall f, i: nat | f in s1.lineages && i < |s1.lineages[f].ids| ensures PlaceOk(s1, f, i) {
      assert PlaceOk(s, f, i);
    }
    forall id | id in s1.table ensures RowOk(s1, id) {
      assert RowOk(s, id);
    }
    SameHistorySameLinks(cfg, s, s1);
  }

  lemma BeginStartKeepsInv(cfg: Config, s: State, c: nat, user: string, family: string)
    requires Inv(cfg, s) && c !in s.calls && family !in s.lineages
    ensures Inv(cfg, WithCall(WithFamily(s, family, user), c, Granted(None, user, family)))
  {
    var s1 := WithFamily(s, family, user);
    NewFamilyKeepsHistory(cfg, s, family, user);
    assert CallsOk(cfg, s1) by {
      forall d | d in s.calls ensures CallOk(cfg, s1, d, s.calls[d]) {
        NewFamilyKeepsCalls(cfg, s, d, s.calls[d], family, user);
      }
    }
    forall d | d in s.calls && Holding(s.calls[d]) ensures s.calls[d].family != family {
      HoldersFindTheLastSpent(cfg, s, d);
    }
    MovingKeepsInv(cfg, s1, c, Granted(None, user, family));
  }

  lemma NewFamilyKeepsCalls(cfg: Config, s: State, d: nat, k: Call, family: string, user: string)
    requires CallOk(cfg, s, d, k) && family !in s.lineages
    ensures CallOk(cfg, WithFamily(s, family, user), d, k)
  {
  }

  lemma ProceedKeepsInv(cfg: Config, s: State, c: nat, id: string, secret: string)
    requires Inv(cfg, s) && Runnable(s, c, id, secret)
    ensures Inv(cfg, WithCall(Effect(cfg, s, c, s.calls[c], id, secret), c, Next(cfg, s, s.calls[c], id, secret)))
  {
    if s.calls[c].Issuing? {
      StoringKeepsInv(cfg, s, c, id, secret, Next(cfg, s, s.calls[c], id, secret));
    } else {
      NextIsJustified(cfg, s, c, id, secret);
      EffectKeepsInv(cfg, s, c, id, secret);
      MovingKeepsInv(cfg, Effect(cfg, s, c, s.calls[c], id, secret), c, Next(cfg, s, s.calls[c], id, secret));
    }
  }

  lemma LoseKeepsInv(cfg: Config, s: State, c: nat, applied: bool, id: string, secret: string)
    requires Inv(cfg, s) && Runnable(s, c, id, secret)
    ensures var t := if applied then Effect(cfg, s, c, s.calls[c], id, secret) else s;
            Inv(cfg, WithCall(t, c, Finished(None, Failed)))
  {
    if !applied {
      MovingKeepsInv(cfg, s, c, Finished(None, Failed));
    } else if s.calls[c].Issuing? {
      StoringKeepsInv(cfg, s, c, id, secret, Finished(None, Failed));
    } else {
      EffectKeepsInv(cfg, s, c, id, secret);
      MovingKeepsInv(cfg, Effect(cfg, s, c, s.calls[c], id, secret), c, Finished(None, Failed));
    }
  }

  /** Every action of every call keeps the invariant. */
  lemma StepKeepsInv(cfg: Config, s: State, a: Action)
    requires Inv(cfg, s) && Enabled(s, a)
    ensures Inv(cfg, Apply(cfg, s, a))
  {
    match a {
      case Tick(to) => TickKeepsInv(cfg, s, to);
      case BeginStart(c, user, family) => BeginStartKeepsInv(cfg, s, c, user, family);
      case Proceed(c, id, secret) => ProceedKeepsInv(cfg, s, c, id, secret);
      case Lose(c, applied, id, secret) => LoseKeepsInv(cfg, s, c, applied, id, secret);
      case _ =>
        var k := Apply(cfg, s, a).calls[a.c];
        assert Apply(cfg, s, a) == WithCall(s, a.c, k);
        MovingKeepsInv(cfg, s, a.c, k);
    }
  }

  lemma TickKeepsInv(cfg: Config, s: State, to: int)
    requires Inv(cfg, s) && s.clock <= to
    ensures Inv(cfg, s.(clock := to))
  {
    var s' := s.(clock := to);
    forall id | id in s'.table ensures RowOk(s', id) {
      assert RowOk(s, id);
    }
    AgingKeepsInv(cfg, s, s');
  }

  lemma {:induction false} RunKeepsInv(cfg: Config, s: State, acts: seq<Action>)
    requires Inv(cfg, s) && Runs(cfg, s, acts)
    ensures Inv(cfg, After(cfg, s, acts))
    decreases |acts|
  {
    if acts != [] {
      StepKeepsInv(cfg, s, acts[0]);
      RunKeepsInv(cfg, Apply(cfg, s, acts[0]), acts[1..]);
    }
  }

  lemma EmptyIsOk(cfg: Config)
    ensures Inv(cfg, EMPTY)
  {
  }
}
