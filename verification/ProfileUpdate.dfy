/** Patching a profile: the map-backed store assigns fields, the SQL store builds an UPDATE
    with numbered placeholders. Both are shown to mean the same change. */
module ProfileUpdate {
  import opened Base

  datatype Profile = Profile(
    id: string,
    displayName: string,
    bio: string,
    avatarKey: Option<string>,
    updatedAt: int)

  /** The fields a PATCH supplied. */
  datatype Patch = Patch(
    displayName: Option<string>,
    bio: Option<string>,
    avatarKey: Option<string>,
    clearAvatar: bool)
  {
    predicate Empty() {
      displayName.None? && bio.None? && avatarKey.None? && !clearAvatar
    }
  }

  type Users = map<string, Profile>

  ghost predicate Keyed(users: Users) {
    forall id :: id in users ==> users[id].id == id
  }

  function OrElse<T>(o: Option<T>, otherwise: T): T {
    if o.Some? then o.value else otherwise
  }

  /** The profile a patch asks for; removing the avatar wins over replacing it. */
  function Patched(p: Profile, patch: Patch, now: int): Profile {
    Profile(
      p.id,
      OrElse(patch.displayName, p.displayName),
      OrElse(patch.bio, p.bio),
      if patch.clearAvatar then None else if patch.avatarKey.Some? then patch.avatarKey else p.avatarKey,
      now)
  }

  function Updated(users: Users, id: string, patch: Patch, now: int): Users {
    if id in users then users[id := Patched(users[id], patch, now)] else users
  }

  // ----- The map-backed store -----

  class UserStore {
    var users: Users

    constructor (users: Users)
      ensures this.users == users
    {
      this.users := users;
    }

    method Update(id: string, patch: Patch, now: int) returns (found: Option<Profile>)
      modifies this
      ensures users == Updated(old(users), id, patch, now)
      ensures found == if id in users then Some(users[id]) else None
      ensures users.Keys == old(users).Keys
      ensures forall x :: x in users && x != id ==> users[x] == old(users)[x]
      ensures id in users ==>
                var p, q := old(users)[id], users[id];
                && q.id == p.id && q.updatedAt == now
                && q.displayName == (if patch.displayName.Some? then patch.displayName.value else p.displayName)
                && q.bio == (if patch.bio.Some? then patch.bio.value else p.bio)
                && q.avatarKey == (if patch.clearAvatar then None
                                   else if patch.avatarKey.Some? then patch.avatarKey else p.avatarKey)
    {
      if id !in users {
        return None;
      }
      var user := users[id];
      if patch.displayName.Some? {
        user := user.(displayName := patch.displayName.value);
      }
      if patch.bio.Some? {
        user := user.(bio := patch.bio.value);
      }
      if patch.clearAvatar {
        user := user.(avatarKey := None);
      } else if patch.avatarKey.Some? {
        user := user.(avatarKey := Some(patch.avatarKey.value));
      }
      user := user.(updatedAt := now);
      users := users[id := user];
      found := Some(user);
    }
  }

  // ----- UPDATE statements -----

  datatype Cell = Text(value: string) | Null | Time(at: int)

  type Row = map<string, Cell>

  /** `column = $placeholder`, `column = NULL` or `column = now()`. */
  datatype Assignment =
    | Bind(column: string, placeholder: nat)
    | SetNull(column: string)
    | SetNow(column: string)

  /** `UPDATE users SET assignments WHERE id = $where`. */
  datatype Statement = Statement(assignments: seq<Assignment>, where: nat, args: seq<string>)

  predicate InRange(a: Assignment, args: seq<string>) {
    a.Bind? ==> 1 <= a.placeholder <= |args|
  }

  predicate AllInRange(assignments: seq<Assignment>, args: seq<string>) {
    forall i :: 0 <= i < |assignments| ==> InRange(assignments[i], args)
  }

  function Value(a: Assignment, args: seq<string>, now: int): Cell
    requires InRange(a, args)
  {
    match a
    case Bind(_, placeholder) => Text(args[placeholder - 1])
    case SetNull(_) => Null
    case SetNow(_) => Time(now)
  }

  /** A SET list may name a column once. */
  predicate DistinctColumns(assignments: seq<Assignment>) {
    forall i, j :: 0 <= i < j < |assignments| ==> assignments[i].column != assignments[j].column
  }

  /** The row after a SET list. */
  function Assigned(row: Row, assignments: seq<Assignment>, args: seq<string>, now: int): Row
    requires AllInRange(assignments, args)
  {
    if assignments == [] then row
    else
      var last := assignments[|assignments| - 1];
      Assigned(row, assignments[..|assignments| - 1], args, now)[last.column := Value(last, args, now)]
  }

  function Cells(p: Profile): Row {
    map["id" := Text(p.id),
        "display_name" := Text(p.displayName),
        "bio" := Text(p.bio),
        "avatar_key" := if p.avatarKey.Some? then Text(p.avatarKey.value) else Null,
        "updated_at" := Time(p.updatedAt)]
  }

  function Rows(users: Users): map<string, Row> {
    map id | id in users :: Cells(users[id])
  }

  /** Executing a statement: every row whose id is the argument named in WHERE is assigned. */
  function Executed(rows: map<string, Row>, stmt: Statement, now: int): map<string, Row>
    requires AllInRange(stmt.assignments, stmt.args) && 1 <= stmt.where <= |stmt.args|
  {
    map k | k in rows ::
      if "id" in rows[k] && rows[k]["id"] == Text(stmt.args[stmt.where - 1])
      then Assigned(rows[k], stmt.assignments, stmt.args, now)
      else rows[k]
  }

  /** Arguments added later do not change what a SET list means. */
  lemma {:induction false} LaterArgumentsDoNotMatter(
      row: Row, assignments: seq<Assignment>, args: seq<string>, more: seq<string>, now: int)
    requires AllInRange(assignments, args)
    ensures AllInRange(assignments, args + more)
    ensures Assigned(row, assignments, args + more, now) == Assigned(row, assignments, args, now)
  {
    if assignments != [] {
      var last := assignments[|assignments| - 1];
      LaterArgumentsDoNotMatter(row, assignments[..|assignments| - 1], args, more, now);
      assert InRange(last, args);
    }
  }

  lemma AssigningOneMore(
      row: Row, assignments: seq<Assignment>, a: Assignment, args: seq<string>, more: seq<string>, now: int)
    requires AllInRange(assignments, args) && InRange(a, args + more)
    ensures AllInRange(assignments + [a], args + more)
    ensures Assigned(row, assignments + [a], args + more, now) ==
            Assigned(row, assignments, args, now)[a.column := Value(a, args + more, now)]
  {
    LaterArgumentsDoNotMatter(row, assignments, args, more, now);
    assert (assignments + [a])[..|assignments|] == assignments;
  }

  // ----- The builder -----

  /** A SET list under construction. History: the column and value of each `Add`, and the
      columns assigned in all. */
  class SetList {
    var assignments: seq<Assignment>
    var args: seq<string>
    ghost var bound: seq<(string, string)>
    ghost var columns: set<string>

    /** Placeholder i stands for argument i, which is the value its column was given. */
    ghost predicate Valid()
      reads this
    {
      && AllInRange(assignments, args) && DistinctColumns(assignments)
      && (forall a :: a in assignments ==> a.column in columns)
      && |args| == |bound|
      && (forall i :: 0 <= i < |bound| ==> args[i] == bound[i].1 && Bind(bound[i].0, i + 1) in assignments)
      && (forall i :: 0 <= i < |assignments| && assignments[i].Bind? ==>
            bound[assignments[i].placeholder - 1].0 == assignments[i].column)
    }

    ghost function Applied(row: Row, now: int): Row
      requires Valid()
      reads this
    {
      Assigned(row, assignments, args, now)
    }

    constructor ()
      ensures Valid() && assignments == [] && bound == [] && columns == {}
    {
      assignments, args, bound, columns := [], [], [], {};
    }

    method Add(column: string, value: string)
      requires Valid() && column !in columns
      modifies this
      ensures Valid() && bound == old(bound) + [(column, value)]
      ensures columns == old(columns) + {column} && assignments != []
      ensures forall row, now :: Applied(row, now) == old(Applied(row, now))[column := Text(value)]
    {
      forall row, now
        ensures AllInRange(assignments + [Bind(column, |args| + 1)], args + [value])
        ensures Assigned(row, assignments + [Bind(column, |args| + 1)], args + [value], now) ==
                Assigned(row, assignments, args, now)[column := Text(value)]
      {
        AssigningOneMore(row, assignments, Bind(column, |args| + 1), args, [value], now);
      }
      args := args + [value];
      assignments := assignments + [Bind(column, |args|)];
      bound := bound + [(column, value)];
      columns := columns + {column};
    }

    /** An assignment without a placeholder. */
    method AddFixed(a: Assignment)
      requires Valid() && !a.Bind? && a.column !in columns
      modifies this
      ensures Valid() && bound == old(bound)
      ensures columns == old(columns) + {a.column} && assignments != []
      ensures forall row, now :: Applied(row, now) == old(Applied(row, now))[a.column := Value(a, [], now)]
    {
      forall row, now
        ensures AllInRange(assignments + [a], args)
        ensures Assigned(row, assignments + [a], args, now) ==
                Assigned(row, assignments, args, now)[a.column := Value(a, [], now)]
      {
        AssigningOneMore(row, assignments, a, args, [], now);
        assert args + [] == args;
      }
      assignments := assignments + [a];
      columns := columns + {a.column};
    }
  }

  /** What the patch asks of a row, column by column. */
  function PatchedRow(row: Row, patch: Patch, now: int): Row {
    var named := if patch.displayName.Some? then row["display_name" := Text(patch.displayName.value)] else row;
    var told := if patch.bio.Some? then named["bio" := Text(patch.bio.value)] else named;
    var shown := if patch.clearAvatar then told["avatar_key" := Null]
                 else if patch.avatarKey.Some? then told["avatar_key" := Text(patch.avatarKey.value)]
                 else told;
    shown["updated_at" := Time(now)]
  }

  /** The stamp is set, each supplied field goes to its own column, removing the avatar wins over
      replacing it, and no other column changes. */
  lemma PatchedRowIs(row: Row, patch: Patch, now: int)
    ensures var r := PatchedRow(row, patch, now);
            && "updated_at" in r && r["updated_at"] == Time(now)
            && (patch.displayName.Some? ==>
                  "display_name" in r && r["display_name"] == Text(patch.displayName.value))
            && (patch.bio.Some? ==> "bio" in r && r["bio"] == Text(patch.bio.value))
            && (patch.clearAvatar ==> "avatar_key" in r && r["avatar_key"] == Null)
            && (!patch.clearAvatar && patch.avatarKey.Some? ==>
                  "avatar_key" in r && r["avatar_key"] == Text(patch.avatarKey.value))
    ensures forall column :: column in row ==> column in PatchedRow(row, patch, now)
    ensures forall column ::
              && column in row && column != "updated_at"
              && (column == "display_name" ==> patch.displayName.None?)
              && (column == "bio" ==> patch.bio.None?)
              && (column == "avatar_key" ==> !patch.clearAvatar && patch.avatarKey.None?) ==>
                PatchedRow(row, patch, now)[column] == row[column]
  {
  }

  lemma PatchedCells(p: Profile, patch: Patch, now: int)
    ensures PatchedRow(Cells(p), patch, now) == Cells(Patched(p, patch, now))
  {
  }

  /** The statement sets what the patch asks, on the row named by its last argument. */
  ghost predicate Means(stmt: Statement, id: string, patch: Patch) {
    && AllInRange(stmt.assignments, stmt.args) && DistinctColumns(stmt.assignments)
    && stmt.where == |stmt.args| > 0
    && stmt.args[stmt.where - 1] == id
    && forall row, now :: Assigned(row, stmt.assignments, stmt.args, now) == PatchedRow(row, patch, now)
  }

  /** Builds the statement; an empty patch needs none. */
  method Build(id: string, patch: Patch) returns (stmt: Option<Statement>)
    ensures stmt.None? <==> patch.Empty()
    ensures stmt.Some? ==> Means(stmt.value, id, patch)
  {
    var list := new SetList();
    if patch.displayName.Some? {
      list.Add("display_name", patch.displayName.value);
    }
    if patch.bio.Some? {
      list.Add("bio", patch.bio.value);
    }
    if patch.clearAvatar {
      list.AddFixed(SetNull("avatar_key"));
    } else if patch.avatarKey.Some? {
      list.Add("avatar_key", patch.avatarKey.value);
    }
    if |list.assignments| == 0 {
      return None;
    }
    list.AddFixed(SetNow("updated_at"));
    forall row, now
      ensures AllInRange(list.assignments, list.args + [id])
      ensures Assigned(row, list.assignments, list.args + [id], now) == PatchedRow(row, patch, now)
    {
      assert list.Applied(row, now) == PatchedRow(row, patch, now);
      LaterArgumentsDoNotMatter(row, list.assignments, list.args, [id], now);
    }
    stmt := Some(Statement(list.assignments, |list.args| + 1, list.args + [id]));
  }

  // ----- The SQL store -----

  /** An empty patch only reads the row back; any other changes it as the patch asks. */
  function SqlUpdated(users: Users, id: string, patch: Patch, now: int): Users {
    if patch.Empty() then users else Updated(users, id, patch, now)
  }

  lemma ExecutingOneRow(users: Users, stmt: Statement, id: string, patch: Patch, now: int, k: string)
    requires Keyed(users) && Means(stmt, id, patch) && k in users
    ensures Executed(Rows(users), stmt, now)[k] == Cells(if k == id then Patched(users[k], patch, now) else users[k])
  {
    PatchedCells(users[k], patch, now);
    assert Rows(users)[k]["id"] == Text(k);
  }

  lemma SameRows(left: map<string, Row>, right: map<string, Row>)
    requires left.Keys == right.Keys && forall k :: k in left ==> left[k] == right[k]
    ensures left == right
  {
  }

  lemma ExecutingIsUpdating(users: Users, stmt: Statement, id: string, patch: Patch, now: int)
    requires Keyed(users) && Means(stmt, id, patch)
    ensures Executed(Rows(users), stmt, now) == Rows(Updated(users, id, patch, now))
  {
    var left, right := Executed(Rows(users), stmt, now), Rows(Updated(users, id, patch, now));
    forall k | k in users ensures k in left && k in right && left[k] == right[k] {
      ExecutingOneRow(users, stmt, id, patch, now, k);
    }
    SameRows(left, right);
  }

  class SqlUserStore {
    var rows: map<string, Row>

    constructor (users: Users)
      ensures rows == Rows(users)
    {
      rows := Rows(users);
    }

    /** `users` is the table as it stands, told apart from the rows that hold it. */
    method Update(id: string, patch: Patch, now: int, ghost users: Users) returns (found: bool)
      requires Keyed(users) && rows == Rows(users)
      modifies this
      ensures rows == Rows(SqlUpdated(users, id, patch, now))
      ensures found <==> id in users
    {
      var stmt := Build(id, patch);
      found := id in rows;
      if stmt.Some? {
        ExecutingIsUpdating(users, stmt.value, id, patch, now);
        rows := Executed(rows, stmt.value, now);
      }
    }
  }

  /** The two stores leave the same table exactly when the patch supplies a field, or there is
      no such row, or its time of update is already the current one: on an empty patch only the
      map-backed store moves it. */
  lemma StoresAgreeIff(users: Users, id: string, patch: Patch, now: int)
    requires Keyed(users)
    ensures Rows(SqlUpdated(users, id, patch, now)) == Rows(Updated(users, id, patch, now))
            <==> !patch.Empty() || id !in users || users[id].updatedAt == now
    ensures id in users ==>
              SqlUpdated(users, id, patch, now)[id].(updatedAt := now) == Updated(users, id, patch, now)[id]
    ensures forall x :: x in users && x != id ==>
              SqlUpdated(users, id, patch, now)[x] == users[x] == Updated(users, id, patch, now)[x]
  {
    if patch.Empty() && id in users {
      var r, m := Rows(SqlUpdated(users, id, patch, now)), Rows(Updated(users, id, patch, now));
      assert r[id]["updated_at"] == Time(users[id].updatedAt) && m[id]["updated_at"] == Time(now);
      if users[id].updatedAt == now {
        assert Updated(users, id, patch, now) == users;
      }
    }
  }
}
