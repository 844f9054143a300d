/**
 * Roles and users (accounts/models.py). A Role carries the thumbnail height it
 * grants and two permission flags; a user points at at most one Role, and a
 * Role that some user points at cannot be deleted.
 *
 * The role table is keyed by role name, the column's unique value, so the
 * name is the key and not a field of the row; the user table is keyed by
 * username, which the user model inherits as unique.
 */
module Accounts {
  import opened Wrappers

  /** Longest role name the name column admits. */
  const NameMaxLength := 20
  /** Default thumbnail height of a new Role. */
  const DefaultThumbnailSize := 200

  /** A Role row; its name is the key it is stored under. */
  datatype Role = Role(thumbnailSize: nat, allowOriginal: bool, allowExpiring: bool)

  /** A user account; `role` is a nullable foreign key (a role name) into the role table. */
  datatype User = User(role: Option<string>)

  type RoleTable = map<string, Role>
  type UserTable = map<string, User>

  datatype AccountError = NameTaken | NameTooLong | UnknownRole | RoleInUse | UsernameTaken

  /** No role name is longer than the column. */
  ghost predicate RoleTableValid(roles: RoleTable) {
    forall n :: n in roles ==> |n| <= NameMaxLength
  }

  /** No user's role points at a missing row (what PROTECT preserves). */
  ghost predicate RolesResolve(users: UserTable, roles: RoleTable) {
    forall u :: u in users && users[u].role.Some? ==> users[u].role.value in roles
  }

  /** A Role row created with only its name given: the column defaults fill the rest. */
  function NewRole(): (r: Role)
    ensures r.thumbnailSize == DefaultThumbnailSize && !r.allowOriginal && !r.allowExpiring
  {
    Role(DefaultThumbnailSize, false, false)
  }

  /** The names and rows of the three roles the application is seeded with. */
  const BasicName := "Basic"
  const PremiumName := "Premium"
  const EnterpriseName := "Enterprise"
  const Basic := Role(200, false, false)
  const Premium := Role(400, true, false)
  const Enterprise := Role(400, true, true)

  function SeededRoles(): (roles: RoleTable)
    ensures RoleTableValid(roles)
    ensures roles.Keys == {BasicName, PremiumName, EnterpriseName}
  {
    map[BasicName := Basic, PremiumName := Premium, EnterpriseName := Enterprise]
  }

  /** Inserting a Role: the unique name constraint and the name length bound. */
  function AddRole(roles: RoleTable, name: string, r: Role): (res: Result<RoleTable, AccountError>)
    ensures res.Err? <==> name in roles || |name| > NameMaxLength
    ensures res.Err? ==> res.error == (if name in roles then NameTaken else NameTooLong)
    ensures res.Ok? ==> name in res.value && res.value[name] == r
    ensures res.Ok? ==> res.value.Keys == roles.Keys + {name}
    ensures res.Ok? ==> forall n :: n in roles ==> res.value[n] == roles[n]
  {
    if name in roles then Err(NameTaken)
    else if |name| > NameMaxLength then Err(NameTooLong)
    else Ok(roles[name := r])
  }

  /** Inserting a Role keeps the table valid and leaves every user's role resolvable. */
  lemma AddRoleKeepsTables(roles: RoleTable, users: UserTable, name: string, r: Role)
    requires RoleTableValid(roles) && RolesResolve(users, roles)
    requires AddRole(roles, name, r).Ok?
    ensures RoleTableValid(AddRole(roles, name, r).value)
    ensures RolesResolve(users, AddRole(roles, name, r).value)
  {
    var next := AddRole(roles, name, r).value;
    assert next == roles[name := r];
  }

  /** True when some user's role is `name`. */
  predicate Referenced(users: UserTable, name: string) {
    exists u :: u in users && users[u].role == Some(name)
  }

  /** Deleting a Role; PROTECT refuses while any user still points at it. */
  function DeleteRole(roles: RoleTable, users: UserTable, name: string): (res: Result<RoleTable, AccountError>)
    ensures res.Err? <==> name !in roles || Referenced(users, name)
    ensures res.Ok? ==> res.value.Keys == roles.Keys - {name}
    ensures res.Ok? ==> forall n :: n in res.value ==> res.value[n] == roles[n]
  {
    if name !in roles then Err(UnknownRole)
    else if Referenced(users, name) then Err(RoleInUse)
    else Ok(roles - {name})
  }

  /** PROTECT's purpose: a successful delete never leaves a user pointing at a missing role. */
  lemma DeleteRoleKeepsReferences(roles: RoleTable, users: UserTable, name: string)
    requires RoleTableValid(roles) && RolesResolve(users, roles)
    requires DeleteRole(roles, users, name).Ok?
    ensures RoleTableValid(DeleteRole(roles, users, name).value)
    ensures RolesResolve(users, DeleteRole(roles, users, name).value)
  {
    var next := DeleteRole(roles, users, name).value;
    forall u | u in users && users[u].role.Some?
      ensures users[u].role.value in next
    {
      assert users[u].role.value != name || Referenced(users, name);
    }
  }

  /** The role a new account gets: the one asked for, or "Basic" when none is given. */
  function InitialRole(requested: Option<string>): (role: Option<string>)
    ensures role.Some?
    ensures requested.Some? ==> role == requested
  {
    if requested.None? then Some(BasicName) else requested
  }

  /** Creating an account: usernames are unique and the role must exist. */
  function CreateUser(users: UserTable, roles: RoleTable, username: string, requested: Option<string>): (res: Result<UserTable, AccountError>)
    ensures res.Err? <==> username in users || InitialRole(requested).value !in roles
    ensures res.Ok? ==> res.value == users[username := User(InitialRole(requested))]
  {
    if username in users then Err(UsernameTaken)
    else if InitialRole(requested).value !in roles then Err(UnknownRole)
    else Ok(users[username := User(InitialRole(requested))])
  }

  /** Creating an account keeps every user's role resolvable. */
  lemma CreateUserKeepsTables(users: UserTable, roles: RoleTable, username: string, requested: Option<string>)
    requires RolesResolve(users, roles)
    requires CreateUser(users, roles, username, requested).Ok?
    ensures RolesResolve(CreateUser(users, roles, username, requested).value, roles)
  {
  }

  /**
   * On the seeded roles, an account created without a role gets Basic:
   * thumbnails of 200 pixels, no original, no expiring links.
   */
  lemma DefaultAccountIsBasic(users: UserTable, username: string)
    requires username !in users
    ensures CreateUser(users, SeededRoles(), username, None).Ok?
    ensures var role := SeededRoles()[CreateUser(users, SeededRoles(), username, None).value[username].role.value];
      role.thumbnailSize == 200 && !role.allowOriginal && !role.allowExpiring
  {
  }
}
