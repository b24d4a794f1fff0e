/**
 * The Prisma-backed credential store: a table of user records, a table of
 * roles, and the three repository operations `exists`, `findOneBy` and
 * `create` (src/repositories/user_repository.ts), with the role lookup
 * `findByName` they rely on (src/repositories/role_repository.ts).
 */
module UserRepository {
  import opened Wrappers

  datatype RoleRecord = RoleRecord(id: nat, name: string, displayName: string)

  /** A stored row of the `user` table; `password` holds the bcrypt digest. */
  datatype UserRecord = UserRecord(id: nat, username: string, email: string, password: string, roleId: nat)

  /**
   * A user as the repository hands it out, with `include: { role: true }`.
   * `password` is None once a caller has replaced it by `undefined`.
   */
  datatype LoadedUser = LoadedUser(
    id: nat, username: string, email: string, password: Option<string>,
    roleId: nat, role: Option<RoleRecord>)

  datatype UserCreateDTO = UserCreateDTO(username: string, password: string, email: string)

  /** The columns the callers search on. */
  datatype Column = IdColumn | UsernameColumn | EmailColumn

  /**
   * The value of a `where: { [column]: value }` filter. `Undefined` is a
   * JavaScript `undefined`, which Prisma drops from the filter.
   */
  datatype FilterValue = Undefined | IntValue(n: int) | StringValue(s: string)

  /** The error `rejectOnNotFound` raises; its `name` is `NotFoundError`. */
  datatype DbError = NotFoundError

  /** Whether row `u` satisfies `where: { [column]: value }`. */
  predicate Matches(u: UserRecord, column: Column, value: FilterValue) {
    match value
    case Undefined => true
    case IntValue(n) => column == IdColumn && n == u.id
    case StringValue(s) =>
      (column == UsernameColumn && s == u.username) || (column == EmailColumn && s == u.email)
  }

  /** `prisma.user.count({ where })`. */
  function Count(users: seq<UserRecord>, column: Column, value: FilterValue): (n: nat)
    ensures n <= |users|
  {
    if |users| == 0 then 0
    else Count(users[..|users| - 1], column, value) + if Matches(users[|users| - 1], column, value) then 1 else 0
  }

  lemma {:induction false} CountPositive(users: seq<UserRecord>, column: Column, value: FilterValue)
    ensures Count(users, column, value) > 0 <==> exists i :: 0 <= i < |users| && Matches(users[i], column, value)
  {
    if |users| > 0 {
      var init := users[..|users| - 1];
      CountPositive(init, column, value);
      if Count(init, column, value) > 0 {
        var i :| 0 <= i < |init| && Matches(init[i], column, value);
        assert users[i] == init[i];
      }
      forall i | 0 <= i < |init| && Matches(users[i], column, value)
        ensures Count(init, column, value) > 0
      {
        assert init[i] == users[i];
      }
    }
  }

  /** `exists(column, value)`: true iff some stored row has `value` in `column`. */
  function Exists(users: seq<UserRecord>, column: Column, value: FilterValue): (b: bool)
    ensures b <==> exists i :: 0 <= i < |users| && Matches(users[i], column, value)
  {
    CountPositive(users, column, value);
    Count(users, column, value) > 0
  }

  /** Row `i` is the first row that satisfies the filter. */
  predicate IsFirstMatch(users: seq<UserRecord>, column: Column, value: FilterValue, i: int) {
    0 <= i < |users| && Matches(users[i], column, value) &&
    forall j :: 0 <= j < i ==> !Matches(users[j], column, value)
  }

  /** The index of the first row that satisfies the filter, searching from `from`. */
  function FirstIndexFrom(users: seq<UserRecord>, column: Column, value: FilterValue, from: nat): (k: int)
    requires from <= |users|
    requires forall j :: 0 <= j < from ==> !Matches(users[j], column, value)
    ensures k == -1 <==> !Exists(users, column, value)
    ensures k != -1 ==> IsFirstMatch(users, column, value, k)
    decreases |users| - from
  {
    if from == |users| then -1
    else if Matches(users[from], column, value) then from
    else FirstIndexFrom(users, column, value, from + 1)
  }

  /** The first role with the given id (role ids are primary keys). */
  function RoleById(roles: seq<RoleRecord>, id: nat): (r: Option<RoleRecord>)
    ensures r.None? <==> forall k :: 0 <= k < |roles| ==> roles[k].id != id
    ensures r.Some? ==> r.value in roles && r.value.id == id
  {
    if |roles| == 0 then None
    else if roles[0].id == id then Some(roles[0])
    else RoleById(roles[1..], id)
  }

  /** Role `k` is the first role with the given name. */
  predicate IsFirstRoleNamed(roles: seq<RoleRecord>, name: string, k: int) {
    0 <= k < |roles| && roles[k].name == name && forall j :: 0 <= j < k ==> roles[j].name != name
  }

  /**
   * `findByName(name)` with `rejectOnNotFound: true`: the first role with
   * that name, or the `NotFoundError` Prisma raises.
   */
  function FindRoleByName(roles: seq<RoleRecord>, name: string): (r: Result<RoleRecord, DbError>)
    ensures r.Failure? <==> forall k :: 0 <= k < |roles| ==> roles[k].name != name
    ensures r.Success? ==> exists k :: IsFirstRoleNamed(roles, name, k) && roles[k] == r.value
  {
    if |roles| == 0 then Failure(NotFoundError)
    else if roles[0].name == name then Success(roles[0])
    else
      var r := FindRoleByName(roles[1..], name);
      if r.Success? then
        var k :| IsFirstRoleNamed(roles[1..], name, k) && roles[1..][k] == r.value;
        assert IsFirstRoleNamed(roles, name, k + 1);
        r
      else r
  }

  /** A stored row with its role attached. */
  function Load(u: UserRecord, roles: seq<RoleRecord>): LoadedUser {
    LoadedUser(u.id, u.username, u.email, Some(u.password), u.roleId, RoleById(roles, u.roleId))
  }

  /**
   * `findOneBy(column, value)`: `findFirst` with the role included; null
   * when no row matches, otherwise the first matching row.
   */
  function FindOneBy(users: seq<UserRecord>, roles: seq<RoleRecord>, column: Column, value: FilterValue): (r: Option<LoadedUser>)
    ensures r.None? <==> !Exists(users, column, value)
    ensures r.Some? ==> exists i :: IsFirstMatch(users, column, value, i) && r.value == Load(users[i], roles)
  {
    var k := FirstIndexFrom(users, column, value, 0);
    if k < 0 then None else Some(Load(users[k], roles))
  }

  /** The foreign-key and primary-key constraints of the two tables. */
  ghost predicate WellFormed(users: seq<UserRecord>, roles: seq<RoleRecord>) {
    (forall i, j :: 0 <= i < j < |users| ==> users[i].id != users[j].id) &&
    (forall i :: 0 <= i < |users| ==> RoleById(roles, users[i].roleId).Some?)
  }

  /** Adding a row makes it findable and leaves every earlier answer of `exists` in place. */
  lemma {:induction false} ExistsAfterAppend(users: seq<UserRecord>, u: UserRecord, column: Column, value: FilterValue)
    ensures Exists(users + [u], column, value) <==> Exists(users, column, value) || Matches(u, column, value)
  {
    var all := users + [u];
    if Matches(u, column, value) {
      assert all[|users|] == u;
    }
    if Exists(users, column, value) {
      var i :| 0 <= i < |users| && Matches(users[i], column, value);
      assert all[i] == users[i];
    }
    if Exists(all, column, value) {
      var i :| 0 <= i < |all| && Matches(all[i], column, value);
      if i < |users| {
        assert all[i] == users[i];
      }
    }
  }

  /** The user table as Prisma keeps it: rows, the role table, and the autoincrement counter. */
  class UserStore {
    var users: seq<UserRecord>
    const roles: seq<RoleRecord>
    var nextId: nat

    ghost predicate Valid()
      reads this
    {
      WellFormed(users, roles) &&
      forall i :: 0 <= i < |users| ==> users[i].id < nextId
    }

    /** An empty user table over the given roles; autoincrement ids start at 1. */
    constructor (roles: seq<RoleRecord>)
      ensures Valid()
      ensures users == [] && this.roles == roles && nextId == 1
    {
      users := [];
      this.roles := roles;
      nextId := 1;
    }

    /**
     * `create(user)`: store the username, email and password exactly as
     * given, with `roleId` set to the id of the role named `default`, and
     * return the inserted row with its role. Fails with `NotFoundError`,
     * leaving the table untouched, when there is no such role.
     */
    method Create(user: UserCreateDTO) returns (r: Result<LoadedUser, DbError>)
      requires Valid()
      modifies this
      ensures Valid()
      ensures FindRoleByName(roles, "default").Failure? ==>
        r == Failure(NotFoundError) && users == old(users) && nextId == old(nextId)
      ensures FindRoleByName(roles, "default").Success? ==>
        var row := UserRecord(old(nextId), user.username, user.email, user.password,
                              FindRoleByName(roles, "default").value.id);
        users == old(users) + [row] && nextId == old(nextId) + 1 && r == Success(Load(row, roles))
    {
      var role := FindRoleByName(roles, "default");
      if role.Failure? {
        return Failure(NotFoundError);
      }
      var row := UserRecord(nextId, user.username, user.email, user.password, role.value.id);
      assert RoleById(roles, row.roleId).Some?;
      users := users + [row];
      nextId := nextId + 1;
      r := Success(Load(row, roles));
    }
  }
}
