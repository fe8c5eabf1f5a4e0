/** What every run of the rotation protocol keeps, whatever the interleaving. */
module RotationSafety {
  import opened Base
  import opened TokenTable
  import opened Rotation

  /** The state a run from the empty store has reached. */
  ghost predicate Reached(cfg: Config, past: seq<Action>, s: State) {
    Runs(cfg, EMPTY, past) && s == After(cfg, EMPTY, past)
  }

  lemma ReachedIsOk(cfg: Config, past: seq<Action>, s: State)
    requires Reached(cfg, past, s)
    ensures Inv(cfg, s)
  {
    EmptyIsOk(cfg);
    RunKeepsInv(cfg, EMPTY, past);
  }

  // ----- What one step writes -----

  /** Nothing blocks a call: it may take its next step or fail at it, effect or no effect, as long
      as fresh names are at hand; new calls may begin and time may pass at any point. */
  lemma NothingIsBlocked(s: State, c: nat, id: string, secret: string, to: int, user: string, applied: bool)
    requires forall x :: x in s.ledger ==> x != id && s.ledger[x].secret != secret
    ensures c in s.calls && !s.calls[c].Finished? ==>
              Enabled(s, Proceed(c, id, secret)) && Enabled(s, Lose(c, applied, id, secret))
    ensures c !in s.calls ==>
              && Enabled(s, BeginRotate(c, secret)) && Enabled(s, BeginRevoke(c, secret))
              && Enabled(s, BeginRevokeAll(c, user)) && Enabled(s, BeginSweep(c))
              && (id !in s.lineages ==> Enabled(s, BeginStart(c, user, id)))
    ensures s.clock <= to ==> Enabled(s, Tick(to))
  {
  }

  /** The statement that this action runs to its end, if it runs one. */
  ghost function Statement(s: State, a: Action): Option<Call>
    requires Enabled(s, a)
  {
    if a.Proceed? || (a.Lose? && a.applied) then Some(s.calls[a.c]) else None
  }

  /** Every statement touches its own rows only, and of these only its own column. A revocation
      stamps the unrevoked rows of its family, or user, and no others; a sweep removes the rows
      that expired before its cutoff; a login or refresh adds one row. */
  lemma WhatAStepWrites(cfg: Config, s: State, a: Action)
    requires Enabled(s, a)
    ensures var t, t' := s.table, Apply(cfg, s, a).table;
            match Statement(s, a)
            case Some(Consuming(_, row, at)) =>
              && t'.Keys == t.Keys
              && forall x :: x in t ==>
                   t'[x] == if x == row.id && t[x].usedAt.None? then t[x].(usedAt := Some(at)) else t[x]
            case Some(Replaying(f, at)) =>
              && t'.Keys == t.Keys
              && forall x :: x in t ==>
                   t'[x] == if t[x].family == f && t[x].revokedAt.None? then t[x].(revokedAt := Some(at)) else t[x]
            case Some(Ending(f, at)) =>
              && t'.Keys == t.Keys
              && forall x :: x in t ==>
                   t'[x] == if t[x].family == f && t[x].revokedAt.None? then t[x].(revokedAt := Some(at)) else t[x]
            case Some(EndingAll(user, at)) =>
              && t'.Keys == t.Keys
              && forall x :: x in t ==>
                   t'[x] == if t[x].user == user && t[x].revokedAt.None? then t[x].(revokedAt := Some(at)) else t[x]
            case Some(Sweeping(cutoff)) =>
              && (forall x :: x in t' <==> x in t && cutoff <= t[x].expiresAt)
              && (forall x :: x in t' ==> t'[x] == t[x])
            case Some(Issuing(_, user, f, at)) =>
              t' == t[a.id := Token(a.id, user, f, cfg.digest(a.secret), at + cfg.ttl, at, None, None)]
            case _ => t' == t
  {
    StatementsTakeEffect(cfg, s, a);
    if Statement(s, a).Some? {
      match s.calls[a.c] {
        case Consuming(_, row, at) =>
        case Replaying(f, at) =>
        case Ending(f, at) =>
        case EndingAll(user, at) =>
        case Sweeping(cutoff) =>
        case _ =>
      }
    }
  }

  lemma StatementsTakeEffect(cfg: Config, s: State, a: Action)
    requires Enabled(s, a)
    ensures Apply(cfg, s, a).table ==
            if Statement(s, a).Some? then Effect(cfg, s, a.c, s.calls[a.c], a.id, a.secret).table else s.table
  {
  }

  // ----- Stamps -----

  /** What is stamped on a row stays stamped, and nothing but the stamps ever changes. */
  ghost predicate Kept(row: Token, row': Token) {
    && row.SameCredential(row')
    && (row.usedAt.Some? ==> row'.usedAt == row.usedAt)
    && (row.revokedAt.Some? ==> row'.revokedAt == row.revokedAt)
  }

  /** This action stamps row `x` as revoked: a replay of its family, a logout of it, or a logout
      of its user everywhere. */
  ghost predicate Revokes(s: State, a: Action, x: string, at: int)
    requires Enabled(s, a)
  {
    && x in s.table
    && match Statement(s, a)
       case Some(Replaying(f, now)) => s.table[x].family == f && now == at
       case Some(Ending(f, now)) => s.table[x].family == f && now == at
       case Some(EndingAll(user, now)) => s.table[x].user == user && now == at
       case _ => false
  }

  lemma StepKeepsRows(cfg: Config, s: State, a: Action, x: string)
    requires Inv(cfg, s) && Enabled(s, a) && x in s.ledger && x in Apply(cfg, s, a).table
    ensures x in s.table && Kept(s.table[x], Apply(cfg, s, a).table[x])
    ensures var row := Apply(cfg, s, a).table[x];
            row.revokedAt.Some? && s.table[x].revokedAt.None? ==> Revokes(s, a, x, row.revokedAt.value)
  {
    WhatAStepWrites(cfg, s, a);
  }

  lemma StepKeepsLedger(cfg: Config, s: State, a: Action, x: string)
    requires Enabled(s, a) && x in s.ledger
    ensures x in Apply(cfg, s, a).ledger && Apply(cfg, s, a).ledger[x] == s.ledger[x]
  {
  }

  /** Whatever happens later, a row that is still there has kept its credential and every stamp
      it had: consumption and revocation are never undone or dated anew. */
  lemma {:induction false} StampsStay(cfg: Config, s: State, acts: seq<Action>, x: string)
    requires Inv(cfg, s) && Runs(cfg, s, acts) && x in s.ledger && x in After(cfg, s, acts).table
    ensures x in s.table && Kept(s.table[x], After(cfg, s, acts).table[x])
    decreases |acts|
  {
    if acts != [] {
      StepKeepsInv(cfg, s, acts[0]);
      StepKeepsLedger(cfg, s, acts[0], x);
      StampsStay(cfg, Apply(cfg, s, acts[0]), acts[1..], x);
      StepKeepsRows(cfg, s, acts[0], x);
    }
  }

  /** A row is revoked for one reason only: at one point of the run a replay or a logout of its
      own family, or a logout of its own user, stamped it. No run of other families' calls
      touches it. */
  lemma {:induction false} WhatRevokedIt(cfg: Config, s: State, acts: seq<Action>, x: string) returns (n: nat)
    requires Inv(cfg, s) && Runs(cfg, s, acts) && x in s.table && s.table[x].revokedAt.None?
    requires x in After(cfg, s, acts).table && After(cfg, s, acts).table[x].revokedAt.Some?
    ensures n < |acts| && Runs(cfg, s, acts[..n]) && Enabled(After(cfg, s, acts[..n]), acts[n])
    ensures Revokes(After(cfg, s, acts[..n]), acts[n], x, After(cfg, s, acts).table[x].revokedAt.value)
    decreases |acts|
  {
    var s1 := Apply(cfg, s, acts[0]);
    assert RowOk(s, x);
    StepKeepsInv(cfg, s, acts[0]);
    StepKeepsLedger(cfg, s, acts[0], x);
    StampsStay(cfg, s1, acts[1..], x);
    StepKeepsRows(cfg, s, acts[0], x);
    if s1.table[x].revokedAt.Some? {
      n := 0;
    } else {
      var m := WhatRevokedIt(cfg, s1, acts[1..], x);
      OneStepFurther(cfg, s, acts, m);
      n := m + 1;
    }
  }

  lemma OneStepFurther(cfg: Config, s: State, acts: seq<Action>, m: nat)
    requires m < |acts| && Enabled(s, acts[0]) && Runs(cfg, Apply(cfg, s, acts[0]), acts[1..][..m])
    ensures Runs(cfg, s, acts[..m + 1])
    ensures After(cfg, s, acts[..m + 1]) == After(cfg, Apply(cfg, s, acts[0]), acts[1..][..m])
  {
    assert acts[..m + 1][1..] == acts[1..][..m];
  }

  // ----- One ticket per family -----

  /** What may still become a session of a family: an unused row, or a call that is
      committed to storing the family's next row. */
  datatype Ticket = Row(id: string) | Pending(c: nat)

  ghost function Tickets(s: State, f: string): set<Ticket> {
    (set id | id in s.table && s.table[id].family == f && s.table[id].usedAt.None? :: Row(id)) +
    (set c | c in s.calls && Holding(s.calls[c]) && s.calls[c].family == f :: Pending(c))
  }

  lemma TicketsAgree(cfg: Config, s: State, f: string, x: Ticket, y: Ticket)
    requires Inv(cfg, s) && x in Tickets(s, f) && y in Tickets(s, f)
    ensures x == y
  {
    match (x, y) {
      case (Row(i), Row(j)) => RowsOfOneFamily(cfg, s, i, j);
      case (Row(i), Pending(d)) => NoHolderBesideAnUnusedRow(cfg, s, i, d);
      case (Pending(c), Row(j)) => NoHolderBesideAnUnusedRow(cfg, s, j, c);
      case (Pending(c), Pending(d)) => assert OneHolder(s.calls, c, d);
    }
  }

  lemma RowsOfOneFamily(cfg: Config, s: State, i: string, j: string)
    requires Inv(cfg, s) && Unspent(s.table, i) && Unspent(s.table, j) && s.table[i].family == s.table[j].family
    ensures i == j
  {
    UnusedIsLast(cfg, s, i);
    UnusedIsLast(cfg, s, j);
  }

  /** In every reachable state a family has at most one unused row or pending issue. */
  lemma AtMostOneTicket(cfg: Config, past: seq<Action>, s: State, f: string)
    requires Reached(cfg, past, s)
    ensures |Tickets(s, f)| <= 1
  {
    ReachedIsOk(cfg, past, s);
    forall x, y | x in Tickets(s, f) && y in Tickets(s, f) ensures x == y {
      TicketsAgree(cfg, s, f, x, y);
    }
    PairwiseEqualIsSmall(Tickets(s, f));
  }

  // ----- A family is one linear chain -----

  /** Every row that was exchanged for a secret directly follows, in the same family and for
      the same user, the row that secret was issued with; the first row was exchanged for
      nothing. */
  lemma FamilyIsAChain(cfg: Config, past: seq<Action>, s: State, id: string)
    requires Reached(cfg, past, s) && Injective(cfg) && id in s.ledger
    ensures var e := s.ledger[id];
            && e.row.family in s.lineages
            && e.row.user == s.lineages[e.row.family].user
            && var ids := s.lineages[e.row.family].ids;
               && e.index < |ids| && ids[e.index] == id
               && (e.spent == None <==> e.index == 0)
               && (e.index > 0 ==>
                     && ids[e.index - 1] in s.ledger
                     && var previous := s.ledger[ids[e.index - 1]];
                        && e.spent == Some(previous.secret)
                        && previous.row.family == e.row.family && previous.row.user == e.row.user
                        && previous.index == e.index - 1
                        && previous.row.expiresAt <= e.row.expiresAt)
  {
    ReachedIsOk(cfg, past, s);
    LinkToPrevious(cfg, s, id);
  }

  lemma LinkToPrevious(cfg: Config, s: State, id: string)
    requires Inv(cfg, s) && Injective(cfg) && id in s.ledger && EntryOk(cfg, s, id)
    ensures var e := s.ledger[id];
            && (e.spent == None <==> e.index == 0)
            && (e.index > 0 ==>
                  && var previous := s.lineages[e.row.family].ids[e.index - 1];
                     && previous in s.ledger
                     && e.spent == Some(s.ledger[previous].secret)
                     && s.ledger[previous].row.family == e.row.family
                     && s.ledger[previous].row.user == e.row.user
                     && s.ledger[previous].index == e.index - 1
                     && s.ledger[previous].row.expiresAt <= e.row.expiresAt)
  {
    assert LinkOk(cfg, s, id);
    var e := s.ledger[id];
    if e.index > 0 {
      var previous := s.lineages[e.row.family].ids[e.index - 1];
      assert PlaceOk(s, e.row.family, e.index - 1) && EntryOk(cfg, s, previous);
      assert InOrder(s.ledger, previous, id);
    }
  }

  /** The secret a row was exchanged for is its predecessor's, so it names that predecessor. */
  lemma SpentNamesPrevious(cfg: Config, s: State, x: string, p: string)
    requires Injective(cfg) && Inv(cfg, s) && x in s.ledger && p in s.ledger
    requires s.ledger[x].spent == Some(s.ledger[p].secret)
    ensures s.ledger[p].row.family == s.ledger[x].row.family && s.ledger[p].index + 1 == s.ledger[x].index
    ensures EntryOk(cfg, s, x)
  {
    LinkToPrevious(cfg, s, x);
    var previous := s.lineages[s.ledger[x].row.family].ids[s.ledger[x].index - 1];
    assert InOrder(s.ledger, previous, p);
  }

  lemma SpentHasAnOwner(cfg: Config, s: State, x: string) returns (p: string)
    requires Injective(cfg) && Inv(cfg, s) && x in s.ledger && s.ledger[x].spent.Some?
    ensures p in s.ledger && s.ledger[x].spent == Some(s.ledger[p].secret)
  {
    assert EntryOk(cfg, s, x);
    LinkToPrevious(cfg, s, x);
    p := s.lineages[s.ledger[x].row.family].ids[s.ledger[x].index - 1];
  }

  /** No secret is ever exchanged for two rows. */
  lemma OneSuccessorPerSecret(cfg: Config, past: seq<Action>, s: State, x: string, y: string)
    requires Reached(cfg, past, s) && Injective(cfg)
    requires x in s.ledger && y in s.ledger && s.ledger[x].spent.Some? && s.ledger[x].spent == s.ledger[y].spent
    ensures x == y
  {
    ReachedIsOk(cfg, past, s);
    var p := SpentHasAnOwner(cfg, s, x);
    SpentNamesPrevious(cfg, s, x, p);
    SpentNamesPrevious(cfg, s, y, p);
  }

  /** Of all the Rotates that ever present one secret, at most one returns a session. */
  lemma OneWinner(cfg: Config, past: seq<Action>, s: State, c: nat, d: nat)
    requires Reached(cfg, past, s) && Injective(cfg)
    requires c in s.calls && s.calls[c].Finished? && s.calls[c].outcome.Session?
    requires d in s.calls && s.calls[d].Finished? && s.calls[d].outcome.Session?
    requires s.calls[c].spent.Some? && s.calls[c].spent == s.calls[d].spent
    ensures c == d
  {
    ReachedIsOk(cfg, past, s);
    assert CallOk(cfg, s, c, s.calls[c]) && CallOk(cfg, s, d, s.calls[d]);
    OneSuccessorPerSecret(cfg, past, s, s.calls[c].outcome.id, s.calls[d].outcome.id);
  }

  /** A session answers only a secret this service issued, and stays with that secret's user. */
  lemma OnlyIssuedSecretsWin(cfg: Config, past: seq<Action>, s: State, c: nat)
    requires Reached(cfg, past, s) && Injective(cfg)
    requires c in s.calls && s.calls[c].Finished? && s.calls[c].outcome.Session? && s.calls[c].spent.Some?
    ensures exists id :: id in s.ledger && s.ledger[id].secret == s.calls[c].spent.value
                         && s.ledger[id].row.user == s.calls[c].outcome.user
  {
    ReachedIsOk(cfg, past, s);
    assert CallOk(cfg, s, c, s.calls[c]);
    var id := s.calls[c].outcome.id;
    assert EntryOk(cfg, s, id);
    LinkToPrevious(cfg, s, id);
    var e := s.ledger[id];
    var previous := s.lineages[e.row.family].ids[e.index - 1];
    assert EntryOk(cfg, s, previous);
    assert s.ledger[previous].secret == s.calls[c].spent.value;
  }

  // ----- The janitor -----

  /** The rows a sweep has removed form the oldest part of each family. */
  ghost predicate PrefixGone(s: State) {
    forall x, y ::
      (&& x in s.ledger && y in s.ledger
       && s.ledger[x].row.family == s.ledger[y].row.family
       && s.ledger[x].index < s.ledger[y].index && y !in s.table)
      ==> x !in s.table
  }

  lemma SweepKeepsPrefix(cfg: Config, s: State, cutoff: int)
    requires Inv(cfg, s) && PrefixGone(s)
    ensures PrefixGone(s.(table := WithoutExpired(s.table, cutoff)))
  {
    var s' := s.(table := WithoutExpired(s.table, cutoff));
    forall x, y |
      (&& x in s.ledger && y in s.ledger
       && s.ledger[x].row.family == s.ledger[y].row.family
       && s.ledger[x].index < s.ledger[y].index && y !in s'.table)
      ensures x !in s'.table
    {
      assert EntryOk(cfg, s, x) && EntryOk(cfg, s, y) && InOrder(s.ledger, x, y);
      if x in s.table && y in s.table {
        assert RowOk(s, x) && RowOk(s, y);
      }
    }
  }

  lemma StoringKeepsPrefix(cfg: Config, s: State, c: nat, id: string, secret: string)
    requires Inv(cfg, s) && PrefixGone(s) && c in s.calls && s.calls[c].Issuing? && Fresh(s, id, secret)
    ensures PrefixGone(Stored(cfg, s, c, s.calls[c], id, secret))
  {
    var s' := Stored(cfg, s, c, s.calls[c], id, secret);
    forall y | y in s.ledger && s.ledger[y].row.family == s.calls[c].family
      ensures s.ledger[y].index < s'.ledger[id].index
    {
      assert EntryOk(cfg, s, y);
    }
  }

  lemma OtherStatementsKeepRows(cfg: Config, s: State, c: nat, k: Call, id: string, secret: string)
    requires !k.Sweeping? && !k.Issuing?
    ensures var s' := Effect(cfg, s, c, k, id, secret); s'.ledger == s.ledger && s'.table.Keys == s.table.Keys
  {
  }

  lemma EffectKeepsPrefix(cfg: Config, s: State, c: nat, id: string, secret: string)
    requires Inv(cfg, s) && PrefixGone(s) && Runnable(s, c, id, secret)
    ensures PrefixGone(Effect(cfg, s, c, s.calls[c], id, secret))
  {
    var k := s.calls[c];
    if k.Sweeping? {
      SweepKeepsPrefix(cfg, s, k.cutoff);
    } else if k.Issuing? {
      StoringKeepsPrefix(cfg, s, c, id, secret);
    } else {
      OtherStatementsKeepRows(cfg, s, c, k, id, secret);
    }
  }

  lemma {:induction false} RunKeepsPrefix(cfg: Config, s: State, acts: seq<Action>)
    requires Inv(cfg, s) && PrefixGone(s) && Runs(cfg, s, acts)
    ensures PrefixGone(After(cfg, s, acts))
    decreases |acts|
  {
    if acts != [] {
      match acts[0] {
        case Proceed(c, id, secret) => EffectKeepsPrefix(cfg, s, c, id, secret);
        case Lose(c, _, id, secret) => EffectKeepsPrefix(cfg, s, c, id, secret);
        case _ =>
      }
      StepKeepsInv(cfg, s, acts[0]);
      RunKeepsPrefix(cfg, Apply(cfg, s, acts[0]), acts[1..]);
    }
  }

  /** Sweeps only ever remove the oldest rows of a family. */
  lemma SweepsTakeAPrefix(cfg: Config, past: seq<Action>, s: State, x: string, y: string)
    requires Reached(cfg, past, s)
    requires x in s.ledger && y in s.ledger && s.ledger[x].row.family == s.ledger[y].row.family
    requires s.ledger[x].index < s.ledger[y].index && y !in s.table
    ensures x !in s.table
  {
    EmptyIsOk(cfg);
    RunKeepsPrefix(cfg, EMPTY, past);
  }

  /** A secret that has been consumed, presented again within a week of its expiry, always
      reaches the revocation of its family. */
  lemma ReplayIsCaught(cfg: Config, past: seq<Action>, s: State, x: string, now: int)
    requires Reached(cfg, past, s) && Injective(cfg) && x in s.ledger
    requires s.clock <= s.ledger[x].row.expiresAt + WEEK
    requires x in s.table ==> s.table[x].usedAt.Some?
    ensures var secret := s.ledger[x].secret;
            && var found := ByHash(s.table, cfg.digest(secret));
               found.Some? && Judged(secret, found.value, now) == Replaying(s.ledger[x].row.family, now)
  {
    ReachedIsOk(cfg, past, s);
    assert EntryOk(cfg, s, x) && RowOk(s, x);
    RowsAreKeyed(cfg, s);
    DigestsAreUnique(cfg, s);
    LookupIsDetermined(s.table, s.table[x].hash, Some(s.table[x]));
  }
}
