/** The custom user model: a role string with three declared choices, and the
    role predicates built on it. */
module UserModels {
  import opened Base

  const ADMIN := "ADMIN"
  const MANAGER := "MANAGER"
  const USER := "USER"

  /** The roles the approve views assign, which `User.Role` does not declare. */
  const STUDENT := "STUDENT"
  const TEACHER := "TEACHER"

  /** The declared `User.Role` choices. */
  const RoleChoices: set<string> := {ADMIN, MANAGER, USER}

  datatype User = User(
    id: Uuid,
    username: string,
    email: string,
    role: string,
    isAuthenticated: bool)

  /** A user row as inserted: the role takes its default. */
  function NewUser(id: Uuid, username: string, email: string): (u: User)
    ensures u.role == USER && u.role in RoleChoices
  {
    User(id, username, email, USER, true)
  }

  predicate IsAdmin(u: User) { u.role == ADMIN }
  predicate IsManager(u: User) { u.role == MANAGER }
  predicate IsRegularUser(u: User) { u.role == USER }

  /** At most one of the three role predicates holds, and none holds outside the choices. */
  lemma RolePredicatesExclusive(u: User)
    ensures !(IsAdmin(u) && IsManager(u)) && !(IsAdmin(u) && IsRegularUser(u))
      && !(IsManager(u) && IsRegularUser(u))
    ensures (IsAdmin(u) || IsManager(u) || IsRegularUser(u)) <==> u.role in RoleChoices
  {
  }

  /** The roles the approve views write lie outside the declared choices. */
  lemma ApprovedRolesUndeclared()
    ensures STUDENT !in RoleChoices && TEACHER !in RoleChoices
  {
  }

  /** Index of the user with the given email in the user table, if any. */
  function FindUserByEmail(users: seq<User>, email: string): (r: Option<nat>)
    ensures r.Some? ==> r.value < |users| && users[r.value].email == email
    ensures r.None? ==> forall i :: 0 <= i < |users| ==> users[i].email != email
  {
    if users == [] then None
    else if users[0].email == email then Some(0)
    else match FindUserByEmail(users[1..], email)
      case None => None
      case Some(i) => Some(i + 1)
  }

  /** `email = models.EmailField(unique=True)`. */
  ghost predicate UniqueUserEmails(users: seq<User>) {
    forall i, j :: 0 <= i < j < |users| ==> users[i].email != users[j].email
  }

  /** The requesting principal of a web request: None when there is no user object. */
  type Requester = Option<User>

  /** The `IsUser`/`IsAdmin`/`IsStudent`/`IsTeacher` permission classes: an
      authenticated user whose role is `role`. */
  predicate HasRole(req: Requester, role: string) {
    req.Some? && req.value.isAuthenticated && req.value.role == role
  }

  /** The admin permission is the `is_admin` property of an authenticated user,
      and no requester passes two different role permissions. */
  lemma PermissionsAgreeWithRoles(req: Requester, r1: string, r2: string)
    ensures HasRole(req, ADMIN) <==> req.Some? && req.value.isAuthenticated && IsAdmin(req.value)
    ensures HasRole(req, USER) <==> req.Some? && req.value.isAuthenticated && IsRegularUser(req.value)
    ensures HasRole(req, r1) && HasRole(req, r2) ==> r1 == r2
  {
  }
}

/** `dashboard_data`: the role-to-dashboard mapping. */
module UserViews {
  import opened Base
  import opened UserModels

  const PermAdmin: seq<string> := ["manage_users", "view_reports", "system_settings"]
  const PermManager: seq<string> := ["view_reports", "manage_team"]
  const PermUser: seq<string> := ["view_profile", "update_profile"]

  /** The dashboard a role is sent to: its type, greeting and permission list. */
  function DashboardFor(u: User): (string, string, seq<string>) {
    if IsAdmin(u) then ("Admin", "Welcome to Admin Dashboard", PermAdmin)
    else if IsManager(u) then ("manager", "Welcome to Manager Dashboard", PermManager)
    else ("user", "Welcome to User Dashboard", PermUser)
  }

  /** Builds the response dictionary key by key. `serialized` is the
      `UserSerializer` output for `u`. */
  method DashboardData(u: User, serialized: Json) returns (data: map<string, Json>)
    ensures data.Keys == {"user", "role", "dashboard_type", "message", "permissions"}
    ensures data["user"] == serialized && data["role"] == JStr(u.role)
    ensures IsAdmin(u) ==>
      (data["dashboard_type"] == JStr("Admin")
       && data["permissions"] == JArr([JStr("manage_users"), JStr("view_reports"), JStr("system_settings")]))
    ensures IsManager(u) ==>
      (data["dashboard_type"] == JStr("manager")
       && data["permissions"] == JArr([JStr("view_reports"), JStr("manage_team")]))
    ensures !IsAdmin(u) && !IsManager(u) ==>
      (data["dashboard_type"] == JStr("user")
       && data["permissions"] == JArr([JStr("view_profile"), JStr("update_profile")]))
    ensures var (kind, msg, perms) := DashboardFor(u);
      data["dashboard_type"] == JStr(kind) && data["message"] == JStr(msg)
      && data["permissions"] == JArr(JsonStrs(perms))
  {
    data := map["user" := serialized, "role" := JStr(u.role)];
    if IsAdmin(u) {
      data := data["dashboard_type" := JStr("Admin")];
      data := data["message" := JStr("Welcome to Admin Dashboard")];
      data := data["permissions" := JArr(JsonStrs(PermAdmin))];
    } else if IsManager(u) {
      data := data["dashboard_type" := JStr("manager")];
      data := data["message" := JStr("Welcome to Manager Dashboard")];
      data := data["permissions" := JArr(JsonStrs(PermManager))];
    } else {
      data := data["dashboard_type" := JStr("user")];
      data := data["message" := JStr("Welcome to User Dashboard")];
      data := data["permissions" := JArr(JsonStrs(PermUser))];
    }
  }

  /** Students and teachers, whose roles are not declared choices, land on the
      plain user dashboard; only admins may manage users. */
  lemma UndeclaredRolesGetUserDashboard(u: User)
    ensures u.role == STUDENT || u.role == TEACHER ==> DashboardFor(u).0 == "user"
    ensures "manage_users" in DashboardFor(u).2 <==> IsAdmin(u)
  {
  }
}
