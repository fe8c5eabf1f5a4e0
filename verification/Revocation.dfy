/** What revoking a family achieves when other calls are in flight. MarkUsed guards on
    `used_at` alone, so a Rotate that read the family's unused row before the revocation can
    still consume it and store a live successor. The family is dead for good exactly when no
    such call is in flight. */
module Revocation {
  import opened Base
  import opened TokenTable
  import opened Rotation
  import opened RotationSafety

  ghost predicate AllRevoked(t: Table, f: string) {
    forall id :: id in t && t[id].family == f ==> t[id].revokedAt.Some?
  }

  /** RevokeFamily leaves no unrevoked row behind. */
  lemma RevokingIsTotal(t: Table, f: string, at: int)
    ensures AllRevoked(FamilyRevoked(t, f, at), f)
  {
  }

  /** Call `k` can still lead to a row of family `f` being stored: it is committed to storing
      one, or it read the family's row while that row was unused, unrevoked and unexpired. */
  ghost predicate CanStillIssue(s: State, k: Call, f: string) {
    match k
    case Found(_, row) =>
      row.family == f && row.usedAt.None? && row.revokedAt.None? && s.clock < row.expiresAt && Unspent(s.table, row.id)
    case Consuming(_, row, _) => row.family == f && Unspent(s.table, row.id)
    case Granted(_, _, family) => family == f
    case Issuing(_, _, family, _) => family == f
    case _ => false
  }

  ghost predicate NoneInFlight(s: State, f: string) {
    forall c :: c in s.calls ==> !CanStillIssue(s, s.calls[c], f)
  }

  ghost predicate Dead(s: State, f: string) {
    f in s.lineages && AllRevoked(s.table, f) && NoneInFlight(s, f)
  }

  // ----- A dead family stays dead -----

  /** The effect of a call that is not storing a row of `f`. */
  lemma EffectKeepsRevoked(cfg: Config, s: State, c: nat, k: Call, id: string, secret: string, f: string)
    requires AllRevoked(s.table, f) && f in s.lineages && (k.Issuing? ==> k.family != f)
    ensures var s' := Effect(cfg, s, c, k, id, secret);
            AllRevoked(s'.table, f) && f in s'.lineages && s'.lineages[f] == s.lineages[f]
  {
  }

  /** The row a call read earlier, if it holds one, has been stored. */
  ghost predicate KnowsItsRow(s: State, k: Call) {
    (k.Found? || k.Consuming?) ==> k.row.id in s.ledger
  }

  lemma CallsKnowTheirRows(cfg: Config, s: State, d: nat)
    requires CallsOk(cfg, s) && d in s.calls
    ensures KnowsItsRow(s, s.calls[d])
  {
    assert CallOk(cfg, s, d, s.calls[d]);
  }

  /** No statement revives another call's chance: rows never become unused again. */
  lemma EffectKeepsOthersOut(cfg: Config, s: State, c: nat, id: string, secret: string, k: Call, f: string)
    requires Runnable(s, c, id, secret) && KnowsItsRow(s, k) && !CanStillIssue(s, k, f)
    ensures !CanStillIssue(Effect(cfg, s, c, s.calls[c], id, secret), k, f)
  {
  }

  lemma NextIsStillOut(cfg: Config, s: State, c: nat, id: string, secret: string, f: string)
    requires c in s.calls && !s.calls[c].Finished?
    requires AllRevoked(s.table, f) && !CanStillIssue(s, s.calls[c], f)
    ensures !CanStillIssue(Effect(cfg, s, c, s.calls[c], id, secret), Next(cfg, s, s.calls[c], id, secret), f)
  {
  }

  /** A call's chance is judged against the store, not the other calls. */
  lemma OtherCallsDoNotMatter(s: State, c: nat, k': Call, k: Call, f: string)
    ensures CanStillIssue(WithCall(s, c, k'), k, f) == CanStillIssue(s, k, f)
  {
  }

  lemma ProceedKeepsDead(cfg: Config, s: State, c: nat, id: string, secret: string, f: string, k': Call)
    requires Inv(cfg, s) && Dead(s, f) && Runnable(s, c, id, secret)
    requires k' == Next(cfg, s, s.calls[c], id, secret) || k'.Finished?
    ensures var s' := WithCall(Effect(cfg, s, c, s.calls[c], id, secret), c, k');
            Dead(s', f) && s'.lineages[f] == s.lineages[f]
  {
    var s1 := Effect(cfg, s, c, s.calls[c], id, secret);
    var s' := WithCall(s1, c, k');
    EffectKeepsRevoked(cfg, s, c, s.calls[c], id, secret, f);
    NextIsStillOut(cfg, s, c, id, secret, f);
    forall d | d in s'.calls ensures !CanStillIssue(s', s'.calls[d], f) {
      if d != c {
        CallsKnowTheirRows(cfg, s, d);
        EffectKeepsOthersOut(cfg, s, c, id, secret, s.calls[d], f);
      }
      OtherCallsDoNotMatter(s1, c, k', s'.calls[d], f);
    }
  }

  lemma StepKeepsDead(cfg: Config, s: State, a: Action, f: string)
    requires Inv(cfg, s) && Dead(s, f) && Enabled(s, a)
    ensures var s' := Apply(cfg, s, a); Dead(s', f) && s'.lineages[f] == s.lineages[f]
  {
    match a {
      case Proceed(c, id, secret) =>
        ProceedKeepsDead(cfg, s, c, id, secret, f, Next(cfg, s, s.calls[c], id, secret));
      case Lose(c, applied, id, secret) =>
        if applied {
          ProceedKeepsDead(cfg, s, c, id, secret, f, Finished(None, Failed));
        }
      case _ =>
    }
  }

  lemma {:induction false} RunKeepsDead(cfg: Config, s: State, acts: seq<Action>, f: string)
    requires Inv(cfg, s) && Dead(s, f) && Runs(cfg, s, acts)
    ensures var s' := After(cfg, s, acts); Dead(s', f) && s'.lineages[f] == s.lineages[f]
    decreases |acts|
  {
    if acts != [] {
      StepKeepsInv(cfg, s, acts[0]);
      StepKeepsDead(cfg, s, acts[0], f);
      RunKeepsDead(cfg, Apply(cfg, s, acts[0]), acts[1..], f);
    }
  }

  // ----- A call in flight can revive it -----

  function StepsLeft(k: Call): nat {
    match k
    case Found(_, _) => 4
    case Consuming(_, _, _) => 3
    case Granted(_, _, _) => 2
    case Issuing(_, _, _, _) => 1
    case _ => 0
  }

  /** The row of a session just issued: in its family, unused and unrevoked. */
  ghost predicate IssuedRow(s: State, id: string, f: string) {
    && id in s.table
    && s.table[id].family == f && s.table[id].usedAt.None? && s.table[id].revokedAt.None?
  }

  /** Left to run alone, a call in flight stores a row of the family and returns its session. */
  lemma {:induction false} InFlightCallCanFinish(cfg: Config, s: State, c: nat, f: string, id: string, secret: string)
    returns (acts: seq<Action>)
    requires Inv(cfg, s) && c in s.calls && CanStillIssue(s, s.calls[c], f) && Fresh(s, id, secret)
    ensures Runs(cfg, s, acts)
    ensures var s' := After(cfg, s, acts);
            && f in s'.lineages && f in s.lineages
            && s'.lineages[f].ids == s.lineages[f].ids + [id]
            && c in s'.calls && s'.calls[c].Finished?
            && s'.calls[c].outcome == Session(s.lineages[f].user, id, secret)
            && s'.clock == s.clock && id in s'.ledger && s'.ledger[id].row.family == f
            && IssuedRow(s', id, f)
            && s'.table[id].expiresAt == (if s.calls[c].Issuing? then s.calls[c].at else s.clock) + cfg.ttl
    decreases StepsLeft(s.calls[c])
  {
    assert CallOk(cfg, s, c, s.calls[c]);
    var a := Proceed(c, id, secret);
    var s1 := Apply(cfg, s, a);
    if s.calls[c].Issuing? {
      acts := [a];
      assert Runs(cfg, s1, []) && After(cfg, s1, []) == s1;
      assert acts[1..] == [];
    } else {
      OneStepCloser(cfg, s, c, f, id, secret);
      StepKeepsInv(cfg, s, a);
      var rest := InFlightCallCanFinish(cfg, s1, c, f, id, secret);
      acts := [a] + rest;
      assert acts[1..] == rest;
    }
  }

  lemma OneStepCloser(cfg: Config, s: State, c: nat, f: string, id: string, secret: string)
    requires Inv(cfg, s) && c in s.calls && CanStillIssue(s, s.calls[c], f)
    requires !s.calls[c].Issuing? && Fresh(s, id, secret)
    ensures var s1 := Apply(cfg, s, Proceed(c, id, secret));
            && CanStillIssue(s1, s1.calls[c], f)
            && StepsLeft(s1.calls[c]) < StepsLeft(s.calls[c])
            && f in s.lineages && s1.lineages == s.lineages && s1.ledger == s.ledger
            && s1.clock == s.clock
            && (s1.calls[c].Issuing? ==> s1.calls[c].at == s.clock)
  {
    var k := s.calls[c];
    assert CallOk(cfg, s, c, k);
    if k.Found? || k.Consuming? {
      ReplayKnowsItsFamily(cfg, s, k.presented, k.row);
    }
  }

  // ----- Fresh names exist -----

  lemma {:induction false} LongerThanAll(s: set<string>) returns (x: string)
    ensures forall y :: y in s ==> |y| < |x|
    decreases |s|
  {
    if s == {} {
      x := "";
    } else {
      var y :| y in s;
      var z := LongerThanAll(s - {y});
      x := if |y| < |z| then z else y + "a";
    }
  }

  lemma FreshNames(s: State) returns (id: string, secret: string)
    ensures Fresh(s, id, secret)
  {
    id := LongerThanAll(s.ledger.Keys);
    secret := LongerThanAll(set x | x in s.ledger :: s.ledger[x].secret);
  }

  // ----- The exact condition -----

  /** The history of `s` is kept in `s'`. */
  ghost predicate Extends(s: State, s': State) {
    && (forall id :: id in s.ledger ==> id in s'.ledger && s'.ledger[id] == s.ledger[id])
    && (forall f :: f in s.lineages ==> f in s'.lineages && s.lineages[f].ids <= s'.lineages[f].ids)
  }

  lemma StepExtends(cfg: Config, s: State, a: Action)
    requires Enabled(s, a)
    ensures Extends(s, Apply(cfg, s, a))
  {
  }

  lemma {:induction false} RunExtends(cfg: Config, s: State, acts: seq<Action>)
    requires Runs(cfg, s, acts)
    ensures Extends(s, After(cfg, s, acts))
    decreases |acts|
  {
    if acts != [] {
      StepExtends(cfg, s, acts[0]);
      RunExtends(cfg, Apply(cfg, s, acts[0]), acts[1..]);
    }
  }

  /** A call that returned a session of family `f` after state `s`. */
  ghost predicate NewSession(s: State, s': State, c: nat, f: string) {
    && c in s'.calls && s'.calls[c].Finished? && s'.calls[c].outcome.Session?
    && s'.calls[c].outcome.id in s'.ledger && s'.ledger[s'.calls[c].outcome.id].row.family == f
    && !(c in s.calls && s.calls[c].Finished?)
  }

  /** From `s` to `s'` family `f` got no row, and no call returned a session of it. */
  ghost predicate NothingNew(s: State, s': State, f: string) {
    && f in s.lineages && f in s'.lineages && s'.lineages[f] == s.lineages[f]
    && forall c :: !NewSession(s, s', c, f)
  }

  /** Whoever holds a session of an unchanged family stored its row before, and had returned. */
  lemma NoRowNoSession(cfg: Config, s: State, s': State, c: nat, f: string)
    requires Inv(cfg, s) && Inv(cfg, s') && Extends(s, s')
    requires f in s.lineages && f in s'.lineages && s'.lineages[f] == s.lineages[f]
    ensures !NewSession(s, s', c, f)
  {
    if c in s'.calls && s'.calls[c].Finished? && s'.calls[c].outcome.Session? {
      assert CallOk(cfg, s', c, s'.calls[c]);
      var id := s'.calls[c].outcome.id;
      if s'.ledger[id].row.family == f {
        assert EntryOk(cfg, s', id);
        assert PlaceOk(s, f, s'.ledger[id].index);
        assert EntryOk(cfg, s, id);
      }
    }
  }

  lemma DeadMeansNothingNew(cfg: Config, s: State, acts: seq<Action>, f: string)
    requires Inv(cfg, s) && Dead(s, f) && Runs(cfg, s, acts)
    ensures NothingNew(s, After(cfg, s, acts), f)
  {
    var s' := After(cfg, s, acts);
    RunKeepsDead(cfg, s, acts, f);
    RunKeepsInv(cfg, s, acts);
    RunExtends(cfg, s, acts);
    forall c ensures !NewSession(s, s', c, f) {
      NoRowNoSession(cfg, s, s', c, f);
    }
  }

  /** In a reachable state whose rows of family `f` are all revoked, no run ever stores another
      row of the family and no call returns a session of it any more, if and only if no call in
      flight can still issue one. Either half alone is equivalent to that as well. */
  lemma RevocationIsFinalIffNoneInFlight(cfg: Config, past: seq<Action>, s: State, f: string)
    requires Reached(cfg, past, s) && f in s.lineages && AllRevoked(s.table, f)
    ensures (forall acts :: Runs(cfg, s, acts) ==> NothingNew(s, After(cfg, s, acts), f)) <==> NoneInFlight(s, f)
    ensures (forall acts :: Runs(cfg, s, acts) ==>
               var s' := After(cfg, s, acts); f in s'.lineages && s'.lineages[f] == s.lineages[f])
            <==> NoneInFlight(s, f)
    ensures (forall acts, c :: Runs(cfg, s, acts) ==> !NewSession(s, After(cfg, s, acts), c, f))
            <==> NoneInFlight(s, f)
  {
    ReachedIsOk(cfg, past, s);
    if NoneInFlight(s, f) {
      forall acts | Runs(cfg, s, acts) ensures NothingNew(s, After(cfg, s, acts), f) {
        DeadMeansNothingNew(cfg, s, acts, f);
      }
    } else {
      var c :| c in s.calls && CanStillIssue(s, s.calls[c], f);
      var id, secret := FreshNames(s);
      var acts := InFlightCallCanFinish(cfg, s, c, f, id, secret);
      assert |After(cfg, s, acts).lineages[f].ids| == |s.lineages[f].ids| + 1;
      assert NewSession(s, After(cfg, s, acts), c, f);
    }
  }

  /** With one call at a time the condition always holds: once every call has returned, a
      revoked family is dead. */
  lemma RevocationIsFinalBetweenCalls(cfg: Config, past: seq<Action>, s: State, f: string, acts: seq<Action>)
    requires Reached(cfg, past, s) && f in s.lineages && AllRevoked(s.table, f)
    requires forall c :: c in s.calls ==> s.calls[c].Finished?
    requires Runs(cfg, s, acts)
    ensures NothingNew(s, After(cfg, s, acts), f)
  {
    ReachedIsOk(cfg, past, s);
    DeadMeansNothingNew(cfg, s, acts, f);
  }

  // ----- How much a late call can do -----

  lemma OldPlacesHoldOldRows(s: State, s': State, f: string, i: nat)
    requires Extends(s, s') && f in s.lineages && i < |s.lineages[f].ids| && PlaceOk(s, f, i)
    ensures f in s'.lineages && i < |s'.lineages[f].ids| && s'.lineages[f].ids[i] in s.ledger
  {
    assert s'.lineages[f].ids[i] == s.lineages[f].ids[i];
  }

  /** A row stored since `s` right behind a row that `s` already had takes the family's first
      free place. */
  lemma NewRowFollowsOldRow(cfg: Config, s: State, s': State, x: string, p: string)
    requires EntriesOk(cfg, s) && Extends(s, s')
    requires x in s'.ledger && x !in s.ledger && EntryOk(cfg, s', x) && p in s.ledger
    requires s.ledger[p].row.family == s'.ledger[x].row.family && s.ledger[p].index + 1 == s'.ledger[x].index
    ensures var f := s'.ledger[x].row.family;
            f in s.lineages && s'.ledger[x].index == |s.lineages[f].ids|
  {
    var f := s'.ledger[x].row.family;
    assert EntryOk(cfg, s, p);
    if s'.ledger[x].index < |s.lineages[f].ids| {
      OldPlacesHoldOldRows(s, s', f, s'.ledger[x].index);
    }
  }

  /** From the instant `s` on -- a revocation, say -- at most one row of a family is ever
      stored in exchange for a secret that was already issued at that instant. Every later
      row of a revived family answers a secret issued after it. */
  lemma OneRowFromEarlierSecrets(cfg: Config, past: seq<Action>, s: State, acts: seq<Action>, s': State,
                                 x: string, y: string, p: string, q: string)
    requires Reached(cfg, past, s) && Injective(cfg) && Runs(cfg, s, acts) && s' == After(cfg, s, acts)
    requires x in s'.ledger && x !in s.ledger && p in s.ledger && s'.ledger[x].spent == Some(s.ledger[p].secret)
    requires y in s'.ledger && y !in s.ledger && q in s.ledger && s'.ledger[y].spent == Some(s.ledger[q].secret)
    requires s'.ledger[x].row.family == s'.ledger[y].row.family
    ensures x == y
  {
    ReachedIsOk(cfg, past, s);
    RunKeepsInv(cfg, s, acts);
    RunExtends(cfg, s, acts);
    SpentNamesPrevious(cfg, s', x, p);
    SpentNamesPrevious(cfg, s', y, q);
    NewRowFollowsOldRow(cfg, s, s', x, p);
    NewRowFollowsOldRow(cfg, s, s', y, q);
  }

  // ----- The condition can fail -----

  /** One login, one logout, and one refresh that read the row before the logout revoked it. */
  const LOGIN: seq<Action> := [BeginStart(0, "ada", "f"), Proceed(0, "", ""), Proceed(0, "row", "key")]
  const REFRESH: seq<Action> := [BeginRotate(1, "key"), Proceed(1, "", ""), Proceed(1, "", "")]
  const LOGOUT: seq<Action> := [BeginRevoke(2, "key"), Proceed(2, "", ""), Proceed(2, "", "")]
  const LATE_REFRESH: seq<Action> := LOGIN + (REFRESH + LOGOUT)

  ghost function LateRow(cfg: Config): Token {
    Token("row", "ada", "f", cfg.digest("key"), cfg.ttl, 0, None, None)
  }

  /** The store once the login has issued its row, with the given calls still open. */
  ghost function LoggedIn(cfg: Config, calls: map<nat, Call>): State {
    State(0, map["row" := LateRow(cfg)], map[0 := Finished(None, Session("ada", "row", "key"))] + calls,
          map["row" := Entry(LateRow(cfg), "key", None, 0, 0)], map["f" := Lineage("ada", ["row"])])
  }

  ghost function LoggedOut(cfg: Config): State {
    LoggedIn(cfg, map[1 := Consuming("key", LateRow(cfg), 0), 2 := Finished(None, Ended)])
    .(table := map["row" := LateRow(cfg).(revokedAt := Some(0))])
  }

  lemma LoginSteps(cfg: Config)
    ensures Runs(cfg, EMPTY, LOGIN) && After(cfg, EMPTY, LOGIN) == LoggedIn(cfg, map[])
  {
    var s1 := State(0, map[], map[0 := Granted(None, "ada", "f")], map[], map["f" := Lineage("ada", [])]);
    var s2 := State(0, map[], map[0 := Issuing(None, "ada", "f", 0)], map[], map["f" := Lineage("ada", [])]);
    assert Steps(cfg, EMPTY, LOGIN[0], s1);
    assert Steps(cfg, s1, LOGIN[1], s2);
    assert Steps(cfg, s2, LOGIN[2], LoggedIn(cfg, map[])) by {
      var s3 := Apply(cfg, s2, LOGIN[2]);
      assert s3.lineages["f"].ids == ["row"];
      assert s3.calls == LoggedIn(cfg, map[]).calls && s3.table == map["row" := LateRow(cfg)];
      assert s3.ledger == LoggedIn(cfg, map[]).ledger && s3.lineages == map["f" := Lineage("ada", ["row"])];
    }
    ThreeSteps(cfg, EMPTY, s1, s2, LoggedIn(cfg, map[]), LOGIN);
  }

  lemma RowIsFound(cfg: Config, calls: map<nat, Call>)
    ensures var s := LoggedIn(cfg, calls);
            && Keyed(s.table)
            && ByHash(s.table, cfg.digest("key")) == Some(LateRow(cfg))
            && Unspent(s.table, "row")
  {
    LookupIsDetermined(LoggedIn(cfg, calls).table, cfg.digest("key"), Some(LateRow(cfg)));
  }

  /** One reading step of one call, with the rest of the calls as they are. */
  lemma ReadingStep(cfg: Config, calls: map<nat, Call>, c: nat, k: Call)
    requires cfg.ttl > 0 && c != 0 && c in calls
    requires || (calls[c] == Presented("key") && k == Found("key", LateRow(cfg)))
             || (calls[c] == Found("key", LateRow(cfg)) && k == Consuming("key", LateRow(cfg), 0))
             || (calls[c] == LoggingOut("key") && k == Ending("f", 0))
    ensures Steps(cfg, LoggedIn(cfg, calls), Proceed(c, "", ""), LoggedIn(cfg, calls[c := k]))
  {
    RowIsFound(cfg, calls);
    var s := LoggedIn(cfg, calls);
    assert s.calls[c := k] == LoggedIn(cfg, calls[c := k]).calls;
  }

  lemma RefreshBegins(cfg: Config)
    ensures Steps(cfg, LoggedIn(cfg, map[]), REFRESH[0], LoggedIn(cfg, map[1 := Presented("key")]))
  {
    RowIsFound(cfg, map[]);
    assert LoggedIn(cfg, map[]).calls[1 := Presented("key")] == LoggedIn(cfg, map[1 := Presented("key")]).calls;
  }

  lemma RefreshReads(cfg: Config)
    requires cfg.ttl > 0
    ensures Steps(cfg, LoggedIn(cfg, map[1 := Presented("key")]), REFRESH[1],
                  LoggedIn(cfg, map[1 := Found("key", LateRow(cfg))]))
    ensures Steps(cfg, LoggedIn(cfg, map[1 := Found("key", LateRow(cfg))]), REFRESH[2],
                  LoggedIn(cfg, map[1 := Consuming("key", LateRow(cfg), 0)]))
  {
    var shown, found := map[1 := Presented("key")], map[1 := Found("key", LateRow(cfg))];
    ReadingStep(cfg, shown, 1, Found("key", LateRow(cfg)));
    ReadingStep(cfg, found, 1, Consuming("key", LateRow(cfg), 0));
    assert shown[1 := Found("key", LateRow(cfg))] == found;
    assert found[1 := Consuming("key", LateRow(cfg), 0)] == map[1 := Consuming("key", LateRow(cfg), 0)];
  }

  lemma RefreshSteps(cfg: Config)
    requires cfg.ttl > 0
    ensures var s := LoggedIn(cfg, map[]);
            && Runs(cfg, s, REFRESH)
            && After(cfg, s, REFRESH) == LoggedIn(cfg, map[1 := Consuming("key", LateRow(cfg), 0)])
  {
    RefreshBegins(cfg);
    RefreshReads(cfg);
    ThreeSteps(cfg, LoggedIn(cfg, map[]), LoggedIn(cfg, map[1 := Presented("key")]),
               LoggedIn(cfg, map[1 := Found("key", LateRow(cfg))]),
               LoggedIn(cfg, map[1 := Consuming("key", LateRow(cfg), 0)]), REFRESH);
  }

  lemma LogoutSteps(cfg: Config)
    requires cfg.ttl > 0
    ensures var s := LoggedIn(cfg, map[1 := Consuming("key", LateRow(cfg), 0)]);
            && Runs(cfg, s, LOGOUT)
            && After(cfg, s, LOGOUT) == LoggedOut(cfg)
  {
    var held := map[1 := Consuming("key", LateRow(cfg), 0)];
    var s7 := LoggedIn(cfg, held[2 := LoggingOut("key")]);
    var s8 := LoggedIn(cfg, held[2 := Ending("f", 0)]);
    assert Steps(cfg, LoggedIn(cfg, held), LOGOUT[0], s7) by { RowIsFound(cfg, held); }
    ReadingStep(cfg, held[2 := LoggingOut("key")], 2, Ending("f", 0));
    assert held[2 := LoggingOut("key")][2 := Ending("f", 0)] == held[2 := Ending("f", 0)];
    LogoutRevokes(cfg);
    ThreeSteps(cfg, LoggedIn(cfg, held), s7, s8, LoggedOut(cfg), LOGOUT);
  }

  lemma LogoutRevokes(cfg: Config)
    ensures Steps(cfg, LoggedIn(cfg, map[1 := Consuming("key", LateRow(cfg), 0), 2 := Ending("f", 0)]),
                  LOGOUT[2], LoggedOut(cfg))
  {
    var calls := map[1 := Consuming("key", LateRow(cfg), 0), 2 := Ending("f", 0)];
    RowIsFound(cfg, calls);
    assert FamilyRevoked(LoggedIn(cfg, calls).table, "f", 0) == LoggedOut(cfg).table;
    assert LoggedIn(cfg, calls).calls[2 := Finished(None, Ended)] == LoggedOut(cfg).calls;
  }

  lemma {:induction false} RunsCompose(cfg: Config, s: State, xs: seq<Action>, ys: seq<Action>)
    requires Runs(cfg, s, xs) && Runs(cfg, After(cfg, s, xs), ys)
    ensures Runs(cfg, s, xs + ys) && After(cfg, s, xs + ys) == After(cfg, After(cfg, s, xs), ys)
    decreases |xs|
  {
    if xs == [] {
      assert xs + ys == ys;
    } else {
      RunsCompose(cfg, Apply(cfg, s, xs[0]), xs[1..], ys);
      assert (xs + ys)[1..] == xs[1..] + ys;
    }
  }

  lemma LateRefreshRuns(cfg: Config)
    requires cfg.ttl > 0
    ensures Reached(cfg, LATE_REFRESH, LoggedOut(cfg))
  {
    LoginSteps(cfg);
    RefreshSteps(cfg);
    LogoutSteps(cfg);
    RunsCompose(cfg, LoggedIn(cfg, map[]), REFRESH, LOGOUT);
    RunsCompose(cfg, EMPTY, LOGIN, REFRESH + LOGOUT);
  }

  /** A reachable state in which every row of a family is revoked, logout has returned, and the
      family nevertheless gets a new session. */
  lemma RevokedFamilyCanRevive(cfg: Config)
    returns (s: State, acts: seq<Action>)
    requires cfg.ttl > 0
    ensures Reached(cfg, LATE_REFRESH, s)
    ensures "f" in s.lineages && AllRevoked(s.table, "f")
    ensures 2 in s.calls && s.calls[2] == Finished(None, Ended)
    ensures Runs(cfg, s, acts)
    ensures var s' := After(cfg, s, acts);
            && 1 in s'.calls && s'.calls[1].Finished? && s'.calls[1].outcome.Session?
            && var id := s'.calls[1].outcome.id;
               && "f" in s'.lineages && s'.lineages["f"].ids == ["row", id]
               && id in s'.table && s'.table[id].family == "f" && s'.table[id].Active(s'.clock)
  {
    s := LoggedOut(cfg);
    LateRefreshRuns(cfg);
    ReachedIsOk(cfg, LATE_REFRESH, s);
    var id, secret := FreshNames(s);
    acts := InFlightCallCanFinish(cfg, s, 1, "f", id, secret);
  }

  ghost predicate Steps(cfg: Config, s: State, a: Action, s': State) {
    Enabled(s, a) && s' == Apply(cfg, s, a)
  }

  lemma ThreeSteps(cfg: Config, s0: State, s1: State, s2: State, s3: State, acts: seq<Action>)
    requires |acts| == 3
    requires Steps(cfg, s0, acts[0], s1) && Steps(cfg, s1, acts[1], s2) && Steps(cfg, s2, acts[2], s3)
    ensures Runs(cfg, s0, acts) && After(cfg, s0, acts) == s3
  {
    assert Runs(cfg, s3, []) && After(cfg, s3, []) == s3;
    assert acts[2..][1..] == [] && acts[1..][1..] == acts[2..];
    assert Runs(cfg, s2, acts[2..]) && After(cfg, s2, acts[2..]) == s3;
    assert Runs(cfg, s1, acts[1..]) && After(cfg, s1, acts[1..]) == s3;
  }
}
