/** The session service, one call at a time: the methods over the token store, each proved
    to do what the abstract session machine does in one move. */
module SessionService {
  import opened Base
  import opened TokenTable
  import opened Rotation

  /** One whole call. `now` is read before the first write, `at` just before a new row is
      stored; `signs` says whether the access token could be signed. */
  datatype Op =
    | Start(user: string, family: string, at: int, id: string, secret: string, signs: bool)
    | Rotate(presented: string, now: int, at: int, id: string, secret: string, signs: bool)
    | Revoke(presented: string, now: int)
    | RevokeAll(user: string, now: int)
    | Sweep(now: int)

  ghost predicate Sound(t: Table) {
    Keyed(t) && UniqueHashes(t)
  }

  // ----- The abstract machine -----

  ghost function Lookup(cfg: Config, t: Table, presented: string): Option<Token> {
    if presented == "" then None else ByHash(t, cfg.digest(presented))
  }

  function Row(cfg: Config, user: string, family: string, at: int, id: string, secret: string): Token {
    Token(id, user, family, cfg.digest(secret), at + cfg.ttl, at, None, None)
  }

  function Issued(
      cfg: Config, t: Table, user: string, family: string, at: int, id: string, secret: string, signs: bool): Table
  {
    if signs then Inserted(t, Row(cfg, user, family, at, id, secret)) else t
  }

  function Granting(user: string, id: string, secret: string, signs: bool): Outcome {
    if signs then Session(user, id, secret) else Failed
  }

  ghost function Served(cfg: Config, t: Table, op: Op): Table {
    match op
    case Start(user, family, at, id, secret, signs) => Issued(cfg, t, user, family, at, id, secret, signs)
    case Rotate(presented, now, at, id, secret, signs) =>
      (match Lookup(cfg, t, presented)
       case None => t
       case Some(row) =>
         if row.usedAt.Some? then FamilyRevoked(t, row.family, now)
         else if !row.Active(now) then t
         else Issued(cfg, Marked(t, row.id, now), row.user, row.family, at, id, secret, signs))
    case Revoke(presented, now) =>
      (match Lookup(cfg, t, presented)
       case None => t
       case Some(row) => FamilyRevoked(t, row.family, now))
    case RevokeAll(user, now) => UserRevoked(t, user, now)
    case Sweep(now) => WithoutExpired(t, now - WEEK)
  }

  ghost function Answer(cfg: Config, t: Table, op: Op): Outcome {
    match op
    case Start(user, _, _, id, secret, signs) => Granting(user, id, secret, signs)
    case Rotate(presented, now, _, id, secret, signs) =>
      (match Lookup(cfg, t, presented)
       case None => Invalid
       case Some(row) =>
         if row.Active(now) then Granting(row.user, id, secret, signs)
         else if row.usedAt.None? && row.revokedAt.None? then Expired
         else Invalid)
    case _ => Ended
  }

  // ----- The service -----

  class Service {
    const tokens: TokenStore
    const cfg: Config

    constructor (tokens: TokenStore, cfg: Config)
      ensures this.tokens == tokens && this.cfg == cfg
    {
      this.tokens := tokens;
      this.cfg := cfg;
    }

    method Issue(user: string, family: string, at: int, id: string, secret: string, signs: bool)
      returns (out: Outcome)
      modifies tokens
      ensures tokens.tokens == Issued(cfg, old(tokens.tokens), user, family, at, id, secret, signs)
      ensures out == Granting(user, id, secret, signs)
      ensures signs ==>
                && out == Session(user, id, secret)
                && tokens.tokens ==
                   old(tokens.tokens)[id := Token(id, user, family, cfg.digest(secret), at + cfg.ttl, at, None, None)]
      ensures !signs ==> out == Failed && tokens.tokens == old(tokens.tokens)
    {
      if !signs {
        return Failed;
      }
      tokens.Issue(Row(cfg, user, family, at, id, secret));
      out := Session(user, id, secret);
    }

    method Start(user: string, family: string, at: int, id: string, secret: string, signs: bool)
      returns (out: Outcome)
      modifies tokens
      ensures tokens.tokens == Served(cfg, old(tokens.tokens), Op.Start(user, family, at, id, secret, signs))
      ensures out == Answer(cfg, old(tokens.tokens), Op.Start(user, family, at, id, secret, signs))
      ensures signs ==>
                && out == Session(user, id, secret)
                && tokens.tokens ==
                   old(tokens.tokens)[id := Token(id, user, family, cfg.digest(secret), at + cfg.ttl, at, None, None)]
      ensures !signs ==> out == Failed && tokens.tokens == old(tokens.tokens)
    {
      out := Issue(user, family, at, id, secret, signs);
    }

    /** The second half of Rotate: consume the row that was read and issue its successor. When
        another call consumed it first, this one is a replay. */
    method Exchange(row: Token, now: int, at: int, id: string, secret: string, signs: bool)
      returns (out: Outcome)
      modifies tokens
      ensures old(Unspent(tokens.tokens, row.id)) ==>
                && tokens.tokens == Issued(cfg, Marked(old(tokens.tokens), row.id, now),
                                           row.user, row.family, at, id, secret, signs)
                && out == Granting(row.user, id, secret, signs)
      ensures !old(Unspent(tokens.tokens, row.id)) ==>
                && tokens.tokens == FamilyRevoked(old(tokens.tokens), row.family, now)
                && out == Invalid
      ensures !(row.id in old(tokens.tokens) && old(tokens.tokens)[row.id].usedAt.None?) ==>
                && out == Invalid && tokens.tokens.Keys == old(tokens.tokens).Keys
                && forall y :: y in tokens.tokens ==>
                     tokens.tokens[y] ==
                     if old(tokens.tokens)[y].family == row.family && old(tokens.tokens)[y].revokedAt.None?
                     then old(tokens.tokens)[y].(revokedAt := Some(now)) else old(tokens.tokens)[y]
    {
      var won := tokens.MarkUsed(row.id, now);
      if !won {
        tokens.RevokeFamily(row.family, now);
        return Invalid;
      }
      out := Issue(row.user, row.family, at, id, secret, signs);
    }

    method Rotate(presented: string, now: int, at: int, id: string, secret: string, signs: bool)
      returns (out: Outcome)
      requires Sound(tokens.tokens)
      modifies tokens
      ensures tokens.tokens == Served(cfg, old(tokens.tokens), Op.Rotate(presented, now, at, id, secret, signs))
      ensures out == Answer(cfg, old(tokens.tokens), Op.Rotate(presented, now, at, id, secret, signs))
      // A live secret is consumed and answered with a session of the same user and family.
      ensures forall x :: x in old(tokens.tokens) && presented != "" ==>
                var row := old(tokens.tokens)[x];
                && row.hash == cfg.digest(presented)
                && row.usedAt.None? && row.revokedAt.None? && now < row.expiresAt ==>
                  var spent := old(tokens.tokens)[x := row.(usedAt := Some(now))];
                  if signs then
                    && out == Session(row.user, id, secret)
                    && tokens.tokens ==
                       spent[id := Token(id, row.user, row.family, cfg.digest(secret), at + cfg.ttl, at, None, None)]
                  else
                    out == Failed && tokens.tokens == spent
      // A consumed one revokes what is not yet revoked of its own family, and nothing else.
      ensures forall x, y :: x in old(tokens.tokens) && presented != "" && y in old(tokens.tokens) ==>
                var row, was := old(tokens.tokens)[x], old(tokens.tokens)[y];
                row.hash == cfg.digest(presented) && row.usedAt.Some? ==>
                  && out == Invalid && tokens.tokens.Keys == old(tokens.tokens).Keys
                  && tokens.tokens[y] ==
                     if was.family == row.family && was.revokedAt.None? then was.(revokedAt := Some(now)) else was
      // Any other is refused and changes nothing.
      ensures forall x :: x in old(tokens.tokens) && presented != "" ==>
                var row := old(tokens.tokens)[x];
                && row.hash == cfg.digest(presented)
                && row.usedAt.None? && (row.revokedAt.Some? || row.expiresAt <= now) ==>
                  out == (if row.revokedAt.Some? then Invalid else Expired) && tokens.tokens == old(tokens.tokens)
      ensures (presented == "" || forall x :: x in old(tokens.tokens) ==>
                 old(tokens.tokens)[x].hash != cfg.digest(presented)) ==>
                out == Invalid && tokens.tokens == old(tokens.tokens)
    {
      if presented == "" {
        return Invalid;
      }
      var found := tokens.ByHash(cfg.digest(presented));
      LookupIsDetermined(tokens.tokens, cfg.digest(presented), found);
      if found.None? {
        return Invalid;
      }
      var row := found.value;
      if row.usedAt.Some? {
        tokens.RevokeFamily(row.family, now);
        return Invalid;
      }
      if row.revokedAt.Some? {
        return Invalid;
      }
      if !(now < row.expiresAt) {
        return Expired;
      }
      out := Exchange(row, now, at, id, secret, signs);
    }

    method Revoke(presented: string, now: int)
      requires Sound(tokens.tokens)
      modifies tokens
      ensures tokens.tokens == Served(cfg, old(tokens.tokens), Op.Revoke(presented, now))
      ensures tokens.tokens.Keys == old(tokens.tokens).Keys
      ensures forall x, y :: x in old(tokens.tokens) && presented != "" && y in old(tokens.tokens) ==>
                var row, was := old(tokens.tokens)[x], old(tokens.tokens)[y];
                row.hash == cfg.digest(presented) ==>
                  tokens.tokens[y] ==
                  if was.family == row.family && was.revokedAt.None? then was.(revokedAt := Some(now)) else was
      ensures (presented == "" || forall x :: x in old(tokens.tokens) ==>
                 old(tokens.tokens)[x].hash != cfg.digest(presented)) ==>
                tokens.tokens == old(tokens.tokens)
    {
      if presented == "" {
        return;
      }
      var found := tokens.ByHash(cfg.digest(presented));
      LookupIsDetermined(tokens.tokens, cfg.digest(presented), found);
      if found.None? {
        return;
      }
      tokens.RevokeFamily(found.value.family, now);
    }

    method RevokeAllForUser(user: string, now: int)
      modifies tokens
      ensures tokens.tokens == Served(cfg, old(tokens.tokens), RevokeAll(user, now))
      ensures tokens.tokens.Keys == old(tokens.tokens).Keys
      ensures forall y :: y in tokens.tokens ==>
                var was := old(tokens.tokens)[y];
                tokens.tokens[y] ==
                if was.user == user && was.revokedAt.None? then was.(revokedAt := Some(now)) else was
    {
      tokens.RevokeAllForUser(user, now);
    }

    /** The janitor's sweep: rows stay a week past their expiry. */
    method DeleteExpiredTokens(now: int) returns (deleted: nat)
      modifies tokens
      ensures tokens.tokens == Served(cfg, old(tokens.tokens), Sweep(now))
      ensures forall y :: y in tokens.tokens <==>
                y in old(tokens.tokens) && now <= old(tokens.tokens)[y].expiresAt + 604_800_000_000_000
      ensures forall y :: y in tokens.tokens ==> tokens.tokens[y] == old(tokens.tokens)[y]
      ensures deleted == |old(tokens.tokens)| - |tokens.tokens|
    {
      deleted := tokens.DeleteExpired(now - WEEK);
    }
  }

  // ----- What the machine promises over whole histories of calls -----

  /** New ids and secrets are fresh. */
  ghost predicate Welcome(cfg: Config, t: Table, op: Op) {
    match op
    case Start(_, _, _, id, secret, _) => FreshFor(cfg, t, id, secret)
    case Rotate(_, _, _, id, secret, _) => FreshFor(cfg, t, id, secret)
    case _ => true
  }

  ghost predicate FreshFor(cfg: Config, t: Table, id: string, secret: string) {
    id !in t && forall x :: x in t ==> t[x].hash != cfg.digest(secret)
  }

  /** Rows may go, be consumed or be revoked; none is new. */
  ghost predicate Within(u: Table, t: Table) {
    forall x :: x in u ==> x in t && u[x].SameCredential(t[x])
  }

  lemma WithinIsSound(u: Table, t: Table)
    requires Sound(t) && Within(u, t)
    ensures Sound(u)
  {
    forall x, y | x in u && y in u && u[x].hash == u[y].hash ensures x == y {
      assert t[x].hash == t[y].hash;
    }
  }

  lemma IssuingKeepsSound(cfg: Config, t: Table, row: Token)
    requires Sound(t) && row.id !in t && forall x :: x in t ==> t[x].hash != row.hash
    ensures Sound(Inserted(t, row))
  {
  }

  lemma ServingKeepsSound(cfg: Config, t: Table, op: Op)
    requires Sound(t) && Welcome(cfg, t, op)
    ensures Sound(Served(cfg, t, op))
  {
    match op {
      case Start(user, family, at, id, secret, signs) =>
        IssuingKeepsSound(cfg, t, Row(cfg, user, family, at, id, secret));
      case Rotate(presented, now, at, id, secret, signs) =>
        var found := Lookup(cfg, t, presented);
        if found.Some? && found.value.Active(now) && signs {
          var spent := Marked(t, found.value.id, now);
          WithinIsSound(spent, t);
          IssuingKeepsSound(cfg, spent, Row(cfg, found.value.user, found.value.family, at, id, secret));
        } else {
          WithinIsSound(Served(cfg, t, op), t);
        }
      case _ => WithinIsSound(Served(cfg, t, op), t);
    }
  }

  /** Every row of family `f` is revoked. */
  ghost predicate LoggedOut(t: Table, f: string) {
    forall x :: x in t && t[x].family == f ==> t[x].revokedAt.Some?
  }

  ghost predicate Histories(cfg: Config, t: Table, ops: seq<Op>)
    decreases |ops|
  {
    ops == [] ||
    (Sound(t) && Welcome(cfg, t, ops[0]) && Histories(cfg, Served(cfg, t, ops[0]), ops[1..]))
  }

  ghost function Finally(cfg: Config, t: Table, ops: seq<Op>): Table
    requires Histories(cfg, t, ops)
    decreases |ops|
  {
    if ops == [] then t else Finally(cfg, Served(cfg, t, ops[0]), ops[1..])
  }

  /** Rotate returns a session exactly when the row its secret names is active and the access
      token can be signed. */
  lemma RotateSucceedsIffActive(cfg: Config, t: Table, op: Op)
    requires Sound(t) && op.Rotate?
    ensures Answer(cfg, t, op).Session? <==>
              op.signs && op.presented != "" &&
              exists x :: x in t && t[x].hash == cfg.digest(op.presented) && t[x].Active(op.now)
  {
    if x :| x in t && t[x].hash == cfg.digest(op.presented) && t[x].Active(op.now) && op.presented != "" {
      LookupIsDetermined(t, cfg.digest(op.presented), Some(t[x]));
    }
  }

  /** Presenting a consumed secret, or logging out with any secret of a family, logs the whole
      family out. */
  lemma ReplayOrLogoutEndsTheFamily(cfg: Config, t: Table, op: Op, x: string)
    requires Sound(t) && x in t
    requires (op.Rotate? && t[x].usedAt.Some?) || op.Revoke?
    requires op.presented != "" && cfg.digest(op.presented) == t[x].hash
    ensures LoggedOut(Served(cfg, t, op), t[x].family)
  {
    LookupIsDetermined(t, t[x].hash, Some(t[x]));
  }

  ghost predicate StartsOther(op: Op, f: string) {
    op.Start? ==> op.family != f
  }

  /** A family that is logged out stays so through any history of calls, and no secret of it
      is ever exchanged for a session again. */
  lemma {:induction false} LoggedOutForGood(cfg: Config, t: Table, ops: seq<Op>, last: Op, f: string)
    requires Histories(cfg, t, ops) && Sound(t) && LoggedOut(t, f)
    requires forall i :: 0 <= i < |ops| ==> StartsOther(ops[i], f)
    ensures var t' := Finally(cfg, t, ops);
            && Sound(t') && LoggedOut(t', f)
            && ((&& last.Rotate?
                 && Lookup(cfg, t', last.presented).Some?
                 && Lookup(cfg, t', last.presented).value.family == f)
                ==> !Answer(cfg, t', last).Session?)
    decreases |ops|
  {
    if ops != [] {
      ServingKeepsSound(cfg, t, ops[0]);
      LoggedOutForGood(cfg, Served(cfg, t, ops[0]), ops[1..], last, f);
    }
  }

  // ----- Families do not disturb each other -----

  /** The secret names a row of family `g`. */
  ghost predicate Names(cfg: Config, t: Table, presented: string, g: string) {
    presented != "" && exists x :: x in t && t[x].hash == cfg.digest(presented) && t[x].family == g
  }

  /** A call on family `g`: it starts it or presents a secret of it. Logging a user out and
      sweeping are on every family. */
  ghost predicate IsOn(cfg: Config, t: Table, op: Op, g: string) {
    match op
    case Start(_, family, _, _, _, _) => family == g
    case Rotate(presented, _, _, _, _, _) => Names(cfg, t, presented, g)
    case Revoke(presented, _) => Names(cfg, t, presented, g)
    case RevokeAll(_, _) => true
    case Sweep(_) => true
  }

  /** A history without the calls on other families. */
  ghost function Only(cfg: Config, t: Table, ops: seq<Op>, g: string): seq<Op>
    decreases |ops|
  {
    if ops == [] then []
    else
      (if IsOn(cfg, t, ops[0], g) then [ops[0]] else []) + Only(cfg, Served(cfg, t, ops[0]), ops[1..], g)
  }

  /** The answers to the calls on family `g`. */
  ghost function AnswersTo(cfg: Config, t: Table, ops: seq<Op>, g: string): seq<Outcome>
    decreases |ops|
  {
    if ops == [] then []
    else
      (if IsOn(cfg, t, ops[0], g) then [Answer(cfg, t, ops[0])] else []) +
      AnswersTo(cfg, Served(cfg, t, ops[0]), ops[1..], g)
  }

  /** The tables hold the same rows of family `g`. */
  ghost predicate SameFamily(t: Table, u: Table, g: string) {
    forall x :: (x in t && t[x].family == g) || (x in u && u[x].family == g) ==> x in t && x in u && t[x] == u[x]
  }

  /** The rows of `g` are as they were, and every credential is still there. */
  ghost predicate Spares(t: Table, t': Table, g: string) {
    SameFamily(t, t', g) && Within(t, t')
  }

  lemma StatementsSpare(t: Table, row: Token, at: int, g: string)
    requires row.id in t && t[row.id] == row && row.family != g
    ensures Spares(t, Marked(t, row.id, at), g) && Spares(t, FamilyRevoked(t, row.family, at), g)
  {
  }

  lemma InsertingSpares(t: Table, t': Table, row: Token, g: string)
    requires Spares(t, t', g) && row.id !in t && row.id !in t' && row.family != g
    ensures Spares(t, Inserted(t', row), g)
  {
  }

  /** A call on other families leaves the rows of `g` alone. */
  lemma OthersLeaveAlone(cfg: Config, t: Table, op: Op, g: string)
    requires Sound(t) && Welcome(cfg, t, op) && !IsOn(cfg, t, op, g)
    ensures Spares(t, Served(cfg, t, op), g)
  {
    match op {
      case Start(user, family, at, id, secret, signs) =>
        InsertingSpares(t, t, Row(cfg, user, family, at, id, secret), g);
      case Rotate(presented, now, at, id, secret, signs) =>
        var found := Lookup(cfg, t, presented);
        if found.Some? {
          var row := found.value;
          StatementsSpare(t, row, now, g);
          InsertingSpares(t, Marked(t, row.id, now), Row(cfg, row.user, row.family, at, id, secret), g);
        }
      case Revoke(presented, now) =>
        var found := Lookup(cfg, t, presented);
        if found.Some? {
          StatementsSpare(t, found.value, now, g);
        }
    }
  }

  lemma SameRowIsFound(cfg: Config, t: Table, u: Table, presented: string, g: string)
    requires Sound(t) && Sound(u) && SameFamily(t, u, g) && Names(cfg, t, presented, g)
    ensures Lookup(cfg, t, presented).Some? && Lookup(cfg, u, presented) == Lookup(cfg, t, presented)
    ensures Lookup(cfg, t, presented).value.family == g && Names(cfg, u, presented, g)
  {
    var x :| x in t && t[x].hash == cfg.digest(presented) && t[x].family == g;
    LookupIsDetermined(t, cfg.digest(presented), Some(t[x]));
    LookupIsDetermined(u, cfg.digest(presented), Some(u[x]));
  }

  /** `u` holds the rows of family `g` that `t` does, and no credential that `t` lacks. */
  ghost predicate Reduced(t: Table, u: Table, g: string) {
    Within(u, t) && SameFamily(t, u, g)
  }

  lemma StatementsKeepReduced(t: Table, u: Table, g: string, key: string, at: int)
    requires Reduced(t, u, g)
    ensures Reduced(FamilyRevoked(t, g, at), FamilyRevoked(u, g, at), g)
    ensures Reduced(UserRevoked(t, key, at), UserRevoked(u, key, at), g)
    ensures Reduced(WithoutExpired(t, at), WithoutExpired(u, at), g)
    ensures key in t && t[key].family == g ==> Reduced(Marked(t, key, at), Marked(u, key, at), g)
  {
  }

  lemma IssuingKeepsReduced(t: Table, u: Table, g: string, row: Token)
    requires Reduced(t, u, g)
    ensures Reduced(Inserted(t, row), Inserted(u, row), g)
  {
  }

  lemma OwnRotateDecides(cfg: Config, t: Table, u: Table, op: Op, g: string)
    requires Sound(t) && Sound(u) && Reduced(t, u, g) && op.Rotate? && Names(cfg, t, op.presented, g)
    ensures Reduced(Served(cfg, t, op), Served(cfg, u, op), g) && Answer(cfg, u, op) == Answer(cfg, t, op)
  {
    SameRowIsFound(cfg, t, u, op.presented, g);
    var row := Lookup(cfg, t, op.presented).value;
    StatementsKeepReduced(t, u, g, row.id, op.now);
    if row.Active(op.now) && op.signs {
      IssuingKeepsReduced(Marked(t, row.id, op.now), Marked(u, row.id, op.now), g,
                          Row(cfg, row.user, g, op.at, op.id, op.secret));
    }
  }

  lemma StaysWelcome(cfg: Config, t: Table, u: Table, op: Op, g: string)
    requires Sound(t) && Sound(u) && Reduced(t, u, g) && Welcome(cfg, t, op) && IsOn(cfg, t, op, g)
    ensures Welcome(cfg, u, op) && IsOn(cfg, u, op, g)
  {
    if op.Rotate? || op.Revoke? {
      SameRowIsFound(cfg, t, u, op.presented, g);
    }
    forall x | x in u ensures x in t && u[x].hash == t[x].hash && u[x].family == t[x].family {
      assert u[x].SameCredential(t[x]);
    }
  }

  /** A call on family `g` does to its rows, and answers, what those rows alone decide. */
  lemma OwnRowsDecide(cfg: Config, t: Table, u: Table, op: Op, g: string)
    requires Sound(t) && Sound(u) && Reduced(t, u, g) && IsOn(cfg, t, op, g)
    ensures Reduced(Served(cfg, t, op), Served(cfg, u, op), g) && Answer(cfg, u, op) == Answer(cfg, t, op)
  {
    match op {
      case Start(user, family, at, id, secret, _) =>
        IssuingKeepsReduced(t, u, g, Row(cfg, user, family, at, id, secret));
      case Rotate(_, _, _, _, _, _) => OwnRotateDecides(cfg, t, u, op, g);
      case Revoke(presented, now) =>
        SameRowIsFound(cfg, t, u, presented, g);
        StatementsKeepReduced(t, u, g, "", now);
      case RevokeAll(user, now) => StatementsKeepReduced(t, u, g, user, now);
      case Sweep(now) => StatementsKeepReduced(t, u, g, "", now - WEEK);
    }
  }

  /** A family is served as if no other family existed: leaving out every login, refresh,
      replay and logout of other families changes neither its rows nor any answer to its calls. */
  lemma {:induction false} FamiliesAreIndependent(cfg: Config, t: Table, u: Table, ops: seq<Op>, g: string)
    requires Histories(cfg, t, ops) && Sound(t) && Sound(u) && Reduced(t, u, g)
    ensures var own := Only(cfg, t, ops, g);
            && Histories(cfg, u, own)
            && SameFamily(Finally(cfg, t, ops), Finally(cfg, u, own), g)
            && AnswersTo(cfg, u, own, g) == AnswersTo(cfg, t, ops, g)
    decreases |ops|
  {
    if ops != [] {
      var op := ops[0];
      var t' := Served(cfg, t, op);
      ServingKeepsSound(cfg, t, op);
      if IsOn(cfg, t, op, g) {
        StaysWelcome(cfg, t, u, op, g);
        OwnRowsDecide(cfg, t, u, op, g);
        ServingKeepsSound(cfg, u, op);
        FamiliesAreIndependent(cfg, t', Served(cfg, u, op), ops[1..], g);
        assert Only(cfg, t, ops, g)[1..] == Only(cfg, t', ops[1..], g);
      } else {
        OthersLeaveAlone(cfg, t, op, g);
        FamiliesAreIndependent(cfg, t', u, ops[1..], g);
        assert Only(cfg, t, ops, g) == Only(cfg, t', ops[1..], g);
      }
    }
  }

  /** In particular, after any history a refresh with a secret of one family is answered the
      same whether or not a logout or a replay of another family came just before it. */
  lemma LogoutsSpareOtherFamilies(cfg: Config, t: Table, ops: seq<Op>, op: Op, last: Op, x: string, y: string)
    requires Histories(cfg, t, ops) && Sound(t)
    requires var now := Finally(cfg, t, ops);
             && x in now && y in now && now[x].family != now[y].family
             && (op.Revoke? || (op.Rotate? && now[x].usedAt.Some?))
             && op.presented != "" && cfg.digest(op.presented) == now[x].hash
             && last.Rotate? && last.presented != "" && cfg.digest(last.presented) == now[y].hash
    ensures var now := Finally(cfg, t, ops);
            Answer(cfg, Served(cfg, now, op), last) == Answer(cfg, now, last)
  {
    FinallyIsSound(cfg, t, ops);
    var now := Finally(cfg, t, ops);
    var next := Served(cfg, now, op);
    LookupIsDetermined(now, now[x].hash, Some(now[x]));
    assert SameFamily(now, next, now[y].family);
    WithinIsSound(next, now);
    SameRowIsFound(cfg, now, next, last.presented, now[y].family);
  }

  lemma {:induction false} FinallyIsSound(cfg: Config, t: Table, ops: seq<Op>)
    requires Histories(cfg, t, ops) && Sound(t)
    ensures Sound(Finally(cfg, t, ops))
    decreases |ops|
  {
    if ops != [] {
      ServingKeepsSound(cfg, t, ops[0]);
      FinallyIsSound(cfg, Served(cfg, t, ops[0]), ops[1..]);
    }
  }

  // ----- A call that runs alone in the protocol does what the method does -----

  /** The next action of call `c`: its next statement, or the failure to sign an access token,
      which comes before the new row is stored. */
  ghost function NextOf(s: State, c: nat, id: string, secret: string, signs: bool): Action
    requires c in s.calls
  {
    if s.calls[c].Granted? && !signs then Lose(c, false, id, secret) else Proceed(c, id, secret)
  }

  /** Call `c` taking its steps one after another, with no other call moving. */
  ghost function Alone(cfg: Config, s: State, c: nat, id: string, secret: string, signs: bool, steps: nat): State
    requires c in s.calls
    decreases steps
  {
    if steps == 0 || !Runnable(s, c, id, secret) then s
    else Alone(cfg, Apply(cfg, s, NextOf(s, c, id, secret, signs)), c, id, secret, signs, steps - 1)
  }

  lemma {:induction false} AloneIsARun(
      cfg: Config, s: State, c: nat, id: string, secret: string, signs: bool, steps: nat)
    returns (acts: seq<Action>)
    requires c in s.calls
    ensures Runs(cfg, s, acts) && After(cfg, s, acts) == Alone(cfg, s, c, id, secret, signs, steps)
    decreases steps
  {
    acts := [];
    if steps != 0 && Runnable(s, c, id, secret) {
      var a := NextOf(s, c, id, secret, signs);
      var rest := AloneIsARun(cfg, Apply(cfg, s, a), c, id, secret, signs, steps - 1);
      acts := [a] + rest;
      assert acts[1..] == rest;
    }
  }

  /** Call `c`, running alone for the given steps, ends with this table and this outcome. */
  ghost predicate EndsWith(
      cfg: Config, s: State, c: nat, id: string, secret: string, signs: bool, steps: nat, t: Table, out: Outcome)
  {
    && c in s.calls
    && var s' := Alone(cfg, s, c, id, secret, signs, steps);
       s'.table == t && c in s'.calls && s'.calls[c].Finished? && s'.calls[c].outcome == out
  }

  lemma IssuingEnds(cfg: Config, s: State, c: nat, id: string, secret: string, signs: bool, steps: nat)
    requires c in s.calls && s.calls[c].Issuing? && Fresh(s, id, secret) && steps >= 1
    ensures var k := s.calls[c];
            EndsWith(cfg, s, c, id, secret, signs, steps,
                     Issued(cfg, s.table, k.user, k.family, k.at, id, secret, true), Session(k.user, id, secret))
  {
  }

  lemma GrantedEnds(cfg: Config, s: State, c: nat, id: string, secret: string, signs: bool, steps: nat)
    requires c in s.calls && s.calls[c].Granted? && Fresh(s, id, secret) && steps >= 2
    ensures var k := s.calls[c];
            EndsWith(cfg, s, c, id, secret, signs, steps,
                     Issued(cfg, s.table, k.user, k.family, s.clock, id, secret, signs),
                     Granting(k.user, id, secret, signs))
  {
    if signs {
      IssuingEnds(cfg, Apply(cfg, s, Proceed(c, id, secret)), c, id, secret, signs, steps - 1);
    }
  }

  lemma ConsumingEnds(cfg: Config, s: State, c: nat, id: string, secret: string, signs: bool, steps: nat)
    requires c in s.calls && s.calls[c].Consuming? && Fresh(s, id, secret) && steps >= 3
    requires Unspent(s.table, s.calls[c].row.id)
    ensures var k := s.calls[c];
            EndsWith(cfg, s, c, id, secret, signs, steps,
                     Issued(cfg, Marked(s.table, k.row.id, k.at), k.row.user, k.row.family, s.clock, id, secret, signs),
                     Granting(k.row.user, id, secret, signs))
  {
    GrantedEnds(cfg, Apply(cfg, s, Proceed(c, id, secret)), c, id, secret, signs, steps - 1);
  }

  lemma FoundEnds(cfg: Config, s: State, c: nat, id: string, secret: string, op: Op)
    requires c in s.calls && s.calls[c].Found? && Fresh(s, id, secret) && Sound(s.table)
    requires op.Rotate? && op == Rotate(s.calls[c].presented, s.clock, s.clock, id, secret, op.signs)
    requires Lookup(cfg, s.table, op.presented) == Some(s.calls[c].row)
    ensures EndsWith(cfg, s, c, id, secret, op.signs, 4, Served(cfg, s.table, op), Answer(cfg, s.table, op))
  {
    var row := s.calls[c].row;
    var s1 := Apply(cfg, s, Proceed(c, id, secret));
    assert s1.table == s.table && s1.calls[c] == Judged(op.presented, row, s.clock);
    if row.usedAt.Some? {
    } else if row.Active(s.clock) {
      ConsumingEnds(cfg, s1, c, id, secret, op.signs, 3);
    }
  }

  lemma RotateEnds(cfg: Config, s: State, c: nat, id: string, secret: string, op: Op)
    requires c !in s.calls && Fresh(s, id, secret) && Sound(s.table)
    requires op.Rotate? && op == Rotate(op.presented, s.clock, s.clock, id, secret, op.signs)
    ensures EndsWith(cfg, Apply(cfg, s, BeginRotate(c, op.presented)), c, id, secret, op.signs, 5,
                     Served(cfg, s.table, op), Answer(cfg, s.table, op))
  {
    var s1 := Apply(cfg, s, BeginRotate(c, op.presented));
    if Lookup(cfg, s.table, op.presented).Some? {
      FoundEnds(cfg, Apply(cfg, s1, Proceed(c, id, secret)), c, id, secret, op);
    }
  }

  /** In any reachable state, a Rotate whose steps nothing interrupts leaves the table and
      returns the answer that the Rotate method does, whether or not its access token can be
      signed. When it can, it returns a session exactly if the row its secret names is active. */
  lemma UninterruptedRotate(
      cfg: Config, s: State, c: nat, presented: string, id: string, secret: string, signs: bool)
    returns (acts: seq<Action>)
    requires Inv(cfg, s) && Injective(cfg) && c !in s.calls && Fresh(s, id, secret)
    ensures acts != [] && acts[0] == BeginRotate(c, presented) && Runs(cfg, s, acts)
    ensures var op := Rotate(presented, s.clock, s.clock, id, secret, signs);
            var s' := After(cfg, s, acts);
            && s'.table == Served(cfg, s.table, op)
            && c in s'.calls && s'.calls[c].Finished? && s'.calls[c].outcome == Answer(cfg, s.table, op)
            && (s'.calls[c].outcome.Session? <==>
                  && signs && presented != ""
                  && exists x :: x in s.table && s.table[x].hash == cfg.digest(presented) && s.table[x].Active(s.clock))
  {
    RowsAreKeyed(cfg, s);
    DigestsAreUnique(cfg, s);
    var op := Rotate(presented, s.clock, s.clock, id, secret, signs);
    RotateEnds(cfg, s, c, id, secret, op);
    RotateSucceedsIffActive(cfg, s.table, op);
    var s1 := Apply(cfg, s, BeginRotate(c, presented));
    var rest := AloneIsARun(cfg, s1, c, id, secret, signs, 5);
    acts := [BeginRotate(c, presented)] + rest;
    assert acts[1..] == rest;
  }

  // ----- The other calls, alone -----

  /** The action that opens a call other than Rotate. */
  function OpeningOf(c: nat, op: Op): Action
    requires !op.Rotate?
  {
    match op
    case Start(user, family, _, _, _, _) => BeginStart(c, user, family)
    case Revoke(presented, _) => BeginRevoke(c, presented)
    case RevokeAll(user, _) => BeginRevokeAll(c, user)
    case Sweep(_) => BeginSweep(c)
  }

  /** A call made and served within one instant, with these names for its new row. */
  predicate MadeNow(s: State, op: Op, id: string, secret: string, signs: bool) {
    match op
    case Start(_, family, at, i, x, w) =>
      family !in s.lineages && at == s.clock && i == id && x == secret && w == signs
    case Rotate(_, _, _, _, _, _) => false
    case Revoke(_, now) => now == s.clock
    case RevokeAll(_, now) => now == s.clock
    case Sweep(now) => now == s.clock
  }

  lemma StartEnds(cfg: Config, s: State, c: nat, id: string, secret: string, op: Op)
    requires c !in s.calls && Fresh(s, id, secret) && op.Start? && MadeNow(s, op, id, secret, op.signs)
    ensures EndsWith(cfg, Apply(cfg, s, OpeningOf(c, op)), c, id, secret, op.signs, 2,
                     Served(cfg, s.table, op), Answer(cfg, s.table, op))
  {
    GrantedEnds(cfg, Apply(cfg, s, OpeningOf(c, op)), c, id, secret, op.signs, 2);
  }

  lemma LogoutEnds(cfg: Config, s: State, c: nat, id: string, secret: string, signs: bool, op: Op)
    requires c !in s.calls && op.Revoke? && op.now == s.clock
    ensures EndsWith(cfg, Apply(cfg, s, OpeningOf(c, op)), c, id, secret, signs, 2,
                     Served(cfg, s.table, op), Answer(cfg, s.table, op))
  {
    var s1 := Apply(cfg, s, OpeningOf(c, op));
    if Lookup(cfg, s.table, op.presented).Some? {
      var s2 := Apply(cfg, s1, Proceed(c, id, secret));
      assert s2.calls[c] == Ending(Lookup(cfg, s.table, op.presented).value.family, s.clock);
      assert Alone(cfg, s2, c, id, secret, signs, 1) ==
             Alone(cfg, Apply(cfg, s2, Proceed(c, id, secret)), c, id, secret, signs, 0);
    }
  }

  lemma OneStatementEnds(cfg: Config, s: State, c: nat, id: string, secret: string, signs: bool, op: Op)
    requires c !in s.calls && (op.RevokeAll? || op.Sweep?) && op.now == s.clock
    ensures EndsWith(cfg, Apply(cfg, s, OpeningOf(c, op)), c, id, secret, signs, 2,
                     Served(cfg, s.table, op), Answer(cfg, s.table, op))
  {
    var s1 := Apply(cfg, s, OpeningOf(c, op));
    var s2 := Apply(cfg, s1, Proceed(c, id, secret));
    assert Alone(cfg, s1, c, id, secret, signs, 2) == Alone(cfg, s2, c, id, secret, signs, 1);
  }

  /** A login, logout or sweep that nothing interrupts leaves the table and returns the answer
      that its method does. */
  lemma UninterruptedCall(cfg: Config, s: State, c: nat, op: Op, id: string, secret: string, signs: bool)
    returns (acts: seq<Action>)
    requires c !in s.calls && Fresh(s, id, secret) && MadeNow(s, op, id, secret, signs)
    ensures acts != [] && acts[0] == OpeningOf(c, op) && Runs(cfg, s, acts)
    ensures var s' := After(cfg, s, acts);
            && s'.table == Served(cfg, s.table, op)
            && c in s'.calls && s'.calls[c].Finished? && s'.calls[c].outcome == Answer(cfg, s.table, op)
  {
    match op {
      case Start(_, _, _, _, _, _) => StartEnds(cfg, s, c, id, secret, op);
      case Revoke(_, _) => LogoutEnds(cfg, s, c, id, secret, signs, op);
      case RevokeAll(_, _) => OneStatementEnds(cfg, s, c, id, secret, signs, op);
      case Sweep(_) => OneStatementEnds(cfg, s, c, id, secret, signs, op);
    }
    var s1 := Apply(cfg, s, OpeningOf(c, op));
    var rest := AloneIsARun(cfg, s1, c, id, secret, signs, 2);
    acts := [OpeningOf(c, op)] + rest;
    assert acts[1..] == rest;
  }

  /** A refresh that finds its row consumed by another call, after it had read it unused, revokes
      that family and no other before it answers that the secret is invalid. */
  lemma LostRaceRevokes(cfg: Config, s: State, c: nat, id: string, secret: string) returns (acts: seq<Action>)
    requires c in s.calls && s.calls[c].Consuming?
    requires s.calls[c].row.id !in s.table || s.table[s.calls[c].row.id].usedAt.Some?
    ensures Runs(cfg, s, acts)
    ensures var k, s' := s.calls[c], After(cfg, s, acts);
            && s'.calls == s.calls[c := Finished(None, Invalid)]
            && s'.table.Keys == s.table.Keys
            && forall y :: y in s.table ==>
                 s'.table[y] == if s.table[y].family == k.row.family && s.table[y].revokedAt.None?
                                then s.table[y].(revokedAt := Some(k.at)) else s.table[y]
  {
    var k := s.calls[c];
    var go := Proceed(c, id, secret);
    var s1 := Apply(cfg, s, go);
    assert s1.calls[c] == Replaying(k.row.family, k.at);
    var s2 := Apply(cfg, s1, go);
    acts := [go, go];
    assert acts[1..] == [go] && acts[1..][1..] == [];
    assert After(cfg, s1, [go]) == After(cfg, s2, [go][1..]);
    assert s.calls[c := Replaying(k.row.family, k.at)][c := Finished(None, Invalid)]
           == s.calls[c := Finished(None, Invalid)];
  }
}
