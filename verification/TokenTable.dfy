/** The refresh-token table: one function per store statement, and the map-backed
    store whose methods are proved to perform exactly those statements. */
module TokenTable {
  import opened Base

  /** One issued refresh credential. Times are nanoseconds. */
  datatype Token = Token(
    id: string,
    user: string,
    family: string,
    hash: string,
    expiresAt: int,
    createdAt: int,
    usedAt: Option<int>,
    revokedAt: Option<int>)
  {
    predicate Active(now: int) {
      usedAt.None? && revokedAt.None? && now < expiresAt
    }

    /** Everything but the two columns that statements update after insertion. */
    predicate SameCredential(that: Token) {
      this == that.(usedAt := usedAt, revokedAt := revokedAt)
    }
  }

  type Table = map<string, Token>

  // ----- The statements, as functions of the table -----

  function Inserted(t: Table, token: Token): Table {
    t[token.id := token]
  }

  /** The guard of MarkUsed: the row exists and `used_at IS NULL`. */
  predicate Unspent(t: Table, id: string) {
    id in t && t[id].usedAt.None?
  }

  function Marked(t: Table, id: string, at: int): Table {
    if Unspent(t, id) then t[id := t[id].(usedAt := Some(at))] else t
  }

  function RevokedRow(row: Token, at: int): Token {
    if row.revokedAt.None? then row.(revokedAt := Some(at)) else row
  }

  function FamilyRevoked(t: Table, family: string, at: int): Table {
    map id | id in t :: if t[id].family == family then RevokedRow(t[id], at) else t[id]
  }

  function UserRevoked(t: Table, user: string, at: int): Table {
    map id | id in t :: if t[id].user == user then RevokedRow(t[id], at) else t[id]
  }

  function WithoutExpired(t: Table, before: int): Table {
    map id | id in t && !(t[id].expiresAt < before) :: t[id]
  }

  /** What a lookup by digest may answer. */
  ghost predicate Answers(t: Table, hash: string, found: Option<Token>) {
    match found
    case None => forall id :: id in t ==> t[id].hash != hash
    case Some(row) => row.id in t && t[row.id] == row && row.hash == hash
  }

  ghost predicate Keyed(t: Table) {
    forall id :: id in t ==> t[id].id == id
  }

  ghost predicate UniqueHashes(t: Table) {
    forall x, y :: x in t && y in t && t[x].hash == t[y].hash ==> x == y
  }

  ghost function ByHash(t: Table, hash: string): (found: Option<Token>)
    ensures Keyed(t) ==> Answers(t, hash, found)
  {
    if id :| id in t && t[id].hash == hash then Some(t[id]) else None
  }

  /** With unique digests (the table's unique index) a lookup has one answer. */
  lemma LookupIsDetermined(t: Table, hash: string, found: Option<Token>)
    requires Keyed(t) && UniqueHashes(t) && Answers(t, hash, found)
    ensures found == ByHash(t, hash)
  {
    var other := ByHash(t, hash);
    assert found.Some? && other.Some? ==> found.value.id == other.value.id;
  }

  /** The map-backed token store. */
  class TokenStore {
    var tokens: Table

    constructor ()
      ensures tokens == map[]
    {
      tokens := map[];
    }

    method Issue(token: Token)
      modifies this
      ensures tokens == Inserted(old(tokens), token)
      ensures token.id in tokens && tokens[token.id] == token && tokens.Keys == old(tokens).Keys + {token.id}
      ensures forall id :: id in old(tokens) && id != token.id ==> tokens[id] == old(tokens)[id]
    {
      tokens := tokens[token.id := token];
    }

    method ByHash(hash: string) returns (found: Option<Token>)
      requires Keyed(tokens)
      ensures Answers(tokens, hash, found)
    {
      var todo := tokens.Keys;
      while todo != {}
        invariant todo <= tokens.Keys
        invariant forall id :: id in tokens && id !in todo ==> tokens[id].hash != hash
        decreases |todo|
      {
        var id :| id in todo;
        if tokens[id].hash == hash {
          return Some(tokens[id]);
        }
        todo := todo - {id};
      }
      found := None;
    }

    method MarkUsed(id: string, at: int) returns (ok: bool)
      modifies this
      ensures tokens == Marked(old(tokens), id, at)
      ensures ok <==> id in old(tokens) && old(tokens)[id].usedAt.None?
      ensures ok ==> tokens == old(tokens)[id := old(tokens)[id].(usedAt := Some(at))]
      ensures !ok ==> tokens == old(tokens)
    {
      if id !in tokens || tokens[id].usedAt.Some? {
        return false;
      }
      tokens := tokens[id := tokens[id].(usedAt := Some(at))];
      ok := true;
    }

    method RevokeFamily(family: string, at: int)
      modifies this
      ensures tokens == FamilyRevoked(old(tokens), family, at)
      ensures tokens.Keys == old(tokens).Keys
      ensures forall id :: id in tokens ==>
                tokens[id] == if old(tokens)[id].family == family && old(tokens)[id].revokedAt.None?
                              then old(tokens)[id].(revokedAt := Some(at)) else old(tokens)[id]
    {
      ghost var before := tokens;
      var todo := tokens.Keys;
      while todo != {}
        invariant tokens.Keys == before.Keys && todo <= before.Keys
        invariant forall id :: id in before ==>
                    tokens[id] == if id in todo then before[id] else FamilyRevoked(before, family, at)[id]
        decreases |todo|
      {
        var id :| id in todo;
        if tokens[id].family == family && tokens[id].revokedAt.None? {
          tokens := tokens[id := tokens[id].(revokedAt := Some(at))];
        }
        todo := todo - {id};
      }
    }

    method RevokeAllForUser(user: string, at: int)
      modifies this
      ensures tokens == UserRevoked(old(tokens), user, at)
      ensures tokens.Keys == old(tokens).Keys
      ensures forall id :: id in tokens ==>
                tokens[id] == if old(tokens)[id].user == user && old(tokens)[id].revokedAt.None?
                              then old(tokens)[id].(revokedAt := Some(at)) else old(tokens)[id]
    {
      ghost var before := tokens;
      var todo := tokens.Keys;
      while todo != {}
        invariant tokens.Keys == before.Keys && todo <= before.Keys
        invariant forall id :: id in before ==>
                    tokens[id] == if id in todo then before[id] else UserRevoked(before, user, at)[id]
        decreases |todo|
      {
        var id :| id in todo;
        if tokens[id].user == user && tokens[id].revokedAt.None? {
          tokens := tokens[id := tokens[id].(revokedAt := Some(at))];
        }
        todo := todo - {id};
      }
    }

    method DeleteExpired(before: int) returns (deleted: nat)
      modifies this
      ensures tokens == WithoutExpired(old(tokens), before)
      ensures forall id :: id in tokens <==> id in old(tokens) && before <= old(tokens)[id].expiresAt
      ensures forall id :: id in tokens ==> tokens[id] == old(tokens)[id]
      ensures deleted == |old(tokens)| - |tokens|
    {
      deleted := 0;
      ghost var start := tokens;
      var todo := tokens.Keys;
      while todo != {}
        invariant todo <= tokens.Keys <= start.Keys
        invariant forall id :: id in tokens ==> tokens[id] == start[id]
        invariant forall id :: id in start && id !in todo ==>
                    (id in tokens <==> !(start[id].expiresAt < before))
        invariant deleted == |start| - |tokens|
        decreases |todo|
      {
        var id :| id in todo;
        if tokens[id].expiresAt < before {
          assert tokens.Keys - {id} == (tokens - {id}).Keys;
          tokens := tokens - {id};
          deleted := deleted + 1;
        }
        todo := todo - {id};
      }
    }
  }
}
