/**
 User administration: AdminService, the RBAC repository's guarded role changes and the
 secure-admin command line. Every operation runs its reads and writes in one immediate
 transaction; the permission check happens before that transaction starts.
 */
module Administration {
  import opened Common
  import opened Schema

  datatype Outcome =
    | Forbidden
    | CannotDisableSelf
    | UserNotFound
    | LastSuperAdmin
    | BaseRoleKept
    | RoleNotFound
    | StatusSet(changed: bool, revokedSessions: int)
    | RoleSet(changed: bool)
    | Registered(id: int)

  /** The transactions that change users or their roles. */
  datatype Op =
    | ServiceSetEnabled(actor: int, target: int, enabled: bool)
    | ServiceAssign(actor: int, target: int, role: string)
    | ServiceRevoke(actor: int, target: int, role: string)
    | CliAssign(target: int, role: string)
    | CliRevoke(target: int, role: string)
    | CliEnable(target: int)
    | CliDisable(target: int)
    | RegisterUser(hash: string)

  predicate KnownUser(t: Tables, user: int) { user > 0 && user in t.users }

  /** The guard that keeps the last enabled super administrator. */
  predicate IsLastSuperAdmin(t: Tables, user: int)
    requires user in t.users
  {
    && t.users[user].enabled
    && HasRole(t, user, SUPER_ADMIN)
    && |EnabledWithRole(t, SUPER_ADMIN)| <= 1
  }

  function GrantRole(t: Tables, user: int, role: string): Tables {
    var granted := t.(grants := t.grants + {(user, role)});
    if role == SUPER_ADMIN then SetLegacyRole(granted, user, LEGACY_ADMIN) else granted
  }

  function DropRole(t: Tables, user: int, role: string): Tables {
    var dropped := t.(grants := t.grants - {(user, role)});
    if role == SUPER_ADMIN then SetLegacyRole(dropped, user, "user") else dropped
  }

  function AssignTx(t: Tables, target: int, role: string): (Tables, Outcome) {
    if !KnownUser(t, target) then (t, UserNotFound)
    else if role !in ROLES then (t, RoleNotFound)
    else (GrantRole(t, target, role), RoleSet((target, role) !in t.grants))
  }

  function RevokeTx(t: Tables, target: int, role: string): (Tables, Outcome) {
    if role == BASE_ROLE then (t, BaseRoleKept)
    else if !KnownUser(t, target) then (t, UserNotFound)
    else if role == SUPER_ADMIN && IsLastSuperAdmin(t, target) then (t, LastSuperAdmin)
    else if role !in ROLES then (t, RoleNotFound)
    else (DropRole(t, target, role), RoleSet((target, role) in t.grants))
  }

  function DisabledTables(t: Tables, target: int): Tables {
    Revoke(SetEnabled(t, target, false), LiveOfUser(t.sessions, target))
  }

  function SetEnabledTx(t: Tables, actor: int, target: int, enabled: bool): (Tables, Outcome) {
    if !enabled && actor == target then (t, CannotDisableSelf)
    else if !KnownUser(t, target) then (t, UserNotFound)
    else if !enabled && IsLastSuperAdmin(t, target) then (t, LastSuperAdmin)
    else if enabled then (SetEnabled(t, target, true), StatusSet(true, 0))
    else (DisabledTables(t, target), StatusSet(true, |LiveOfUser(t.sessions, target)|))
  }

  /** The effect of one transaction, whatever was checked before it began. */
  function Apply(t: Tables, op: Op): (Tables, Outcome) {
    match op
    case ServiceSetEnabled(actor, target, enabled) => SetEnabledTx(t, actor, target, enabled)
    case ServiceAssign(_, target, role) => AssignTx(t, target, role)
    case ServiceRevoke(_, target, role) => RevokeTx(t, target, role)
    case CliAssign(target, role) => AssignTx(t, target, role)
    case CliRevoke(target, role) => if !KnownUser(t, target) then (t, UserNotFound) else RevokeTx(t, target, role)
    case CliEnable(target) =>
      if !KnownUser(t, target) then (t, UserNotFound)
      else if t.users[target].enabled then (t, StatusSet(false, 0))
      else (SetEnabled(t, target, true), StatusSet(true, 0))
    case CliDisable(target) =>
      if !KnownUser(t, target) then (t, UserNotFound)
      else if !t.users[target].enabled then (t, StatusSet(false, 0))
      else if IsLastSuperAdmin(t, target) then (t, LastSuperAdmin)
      else (DisabledTables(t, target), StatusSet(true, |LiveOfUser(t.sessions, target)|))
    case RegisterUser(hash) => (InsertUser(t, hash), Registered(t.nextUser))
  }

  function RequiredPermission(op: Op): string {
    match op
    case ServiceSetEnabled(_, _, enabled) => if enabled then "users.enable" else "users.disable"
    case ServiceAssign(_, _, _) => "roles.manage"
    case ServiceRevoke(_, _, _) => "roles.manage"
    case _ => ""
  }

  /** A service call made by an authenticated actor with nothing in between. */
  function Serve(t: Tables, actor: int, op: Op): (Tables, Outcome) {
    if !HasPermission(t, actor, RequiredPermission(op)) then (t, Forbidden) else Apply(t, op)
  }

  // ----- what every administration step keeps -----

  ghost predicate GrantsOk(t: Tables) {
    && (forall g <- t.grants :: g.0 in t.users && g.1 in ROLES)
    && (forall u <- t.users :: 0 < u < t.nextUser && (u, BASE_ROLE) in t.grants)
  }

  ghost predicate LegacyRoleAgrees(t: Tables) {
    forall u <- t.users :: t.users[u].role == (if (u, SUPER_ADMIN) in t.grants then LEGACY_ADMIN else "user")
  }

  ghost predicate HasSuperAdmin(t: Tables) {
    exists u <- t.users :: t.users[u].enabled && (u, SUPER_ADMIN) in t.grants
  }

  ghost predicate Inv(t: Tables) {
    GrantsOk(t) && LegacyRoleAgrees(t) && HasSuperAdmin(t)
  }

  /** Two members of a finite set: removing one leaves another. */
  lemma AnotherMember(s: set<int>, x: int) returns (y: int)
    requires |s| > 1
    ensures y in s && y != x
  {
    if forall y <- s :: y == x {
      SubsetCard(s, {x});
    }
    y :| y in s && y != x;
  }

  /** An operation the guard lets through leaves some other enabled super administrator. */
  lemma GuardLeavesSuperAdmin(t: Tables, target: int) returns (other: int)
    requires Inv(t) && target in t.users && !IsLastSuperAdmin(t, target)
    ensures other in t.users && t.users[other].enabled && (other, SUPER_ADMIN) in t.grants
    ensures other == target ==> !t.users[target].enabled || !HasRole(t, target, SUPER_ADMIN)
  {
    if t.users[target].enabled && HasRole(t, target, SUPER_ADMIN) {
      other := AnotherMember(EnabledWithRole(t, SUPER_ADMIN), target);
    } else {
      other :| other in t.users && t.users[other].enabled && (other, SUPER_ADMIN) in t.grants;
    }
  }

  /**
   Every step keeps an enabled super administrator, every user's base role, and the agreement of
   the legacy users.role column with membership of super_admin. The actor is arbitrary, so this
   covers a permission check that has gone stale by the time its transaction runs.
   */
  lemma StepKeepsInv(t: Tables, op: Op)
    requires Inv(t)
    ensures Inv(Apply(t, op).0)
  {
    var t' := Apply(t, op).0;
    match op
    case ServiceSetEnabled(_, target, enabled) => if t' != t { StatusKeepsInv(t, target, enabled); }
    case CliEnable(target) => if t' != t { StatusKeepsInv(t, target, true); }
    case CliDisable(target) => if t' != t { StatusKeepsInv(t, target, false); }
    case ServiceAssign(_, target, role) => AssignKeepsInv(t, target, role);
    case CliAssign(target, role) => AssignKeepsInv(t, target, role);
    case ServiceRevoke(_, target, role) => RevokeKeepsInv(t, target, role);
    case CliRevoke(target, role) => RevokeKeepsInv(t, target, role);
    case RegisterUser(hash) =>
      var u :| u in t.users && t.users[u].enabled && (u, SUPER_ADMIN) in t.grants;
      assert u in t'.users && t'.users[u].enabled && (u, SUPER_ADMIN) in t'.grants;
  }

  lemma StatusKeepsInv(t: Tables, target: int, enabled: bool)
    requires Inv(t) && KnownUser(t, target) && (enabled || !IsLastSuperAdmin(t, target))
    ensures Inv(SetEnabled(t, target, enabled))
    ensures !enabled ==> Inv(DisabledTables(t, target))
  {
    var t' := SetEnabled(t, target, enabled);
    var u;
    if enabled {
      u :| u in t.users && t.users[u].enabled && (u, SUPER_ADMIN) in t.grants;
    } else {
      u := GuardLeavesSuperAdmin(t, target);
      assert u != target;
    }
    assert t'.users[u].enabled && (u, SUPER_ADMIN) in t'.grants;
    if !enabled {
      var d := DisabledTables(t, target);
      assert d.users[u].enabled && (u, SUPER_ADMIN) in d.grants;
    }
  }

  lemma AssignKeepsInv(t: Tables, target: int, role: string)
    requires Inv(t)
    ensures Inv(AssignTx(t, target, role).0)
  {
    var t' := AssignTx(t, target, role).0;
    var u :| u in t.users && t.users[u].enabled && (u, SUPER_ADMIN) in t.grants;
    assert u in t'.users && t'.users[u].enabled && (u, SUPER_ADMIN) in t'.grants;
  }

  lemma RevokeKeepsInv(t: Tables, target: int, role: string)
    requires Inv(t)
    ensures Inv(RevokeTx(t, target, role).0)
  {
    var t' := RevokeTx(t, target, role).0;
    if t' != t {
      var u;
      if role == SUPER_ADMIN {
        u := GuardLeavesSuperAdmin(t, target);
      } else {
        u :| u in t.users && t.users[u].enabled && (u, SUPER_ADMIN) in t.grants;
      }
      assert u in t'.users && t'.users[u].enabled && (u, SUPER_ADMIN) in t'.grants;
    }
  }

  function Run(t: Tables, ops: seq<Op>): Tables
    decreases |ops|
  {
    if ops == [] then t else Run(Apply(t, ops[0]).0, ops[1..])
  }

  /** The same over whole runs of any length. */
  lemma {:induction false} RunKeepsInv(t: Tables, ops: seq<Op>)
    requires Inv(t)
    ensures Inv(Run(t, ops))
    decreases |ops|
  {
    if ops != [] {
      StepKeepsInv(t, ops[0]);
      RunKeepsInv(Apply(t, ops[0]).0, ops[1..]);
    }
  }

  /**
   The guard refuses exactly when going ahead would leave no enabled super administrator:
   it neither lets the last one go nor blocks a removal that was safe.
   */
  lemma GuardIsExact(t: Tables, target: int)
    requires Inv(t) && KnownUser(t, target)
    ensures IsLastSuperAdmin(t, target) <==> !HasSuperAdmin(DropRole(t, target, SUPER_ADMIN))
    ensures IsLastSuperAdmin(t, target) <==> !HasSuperAdmin(SetEnabled(t, target, false))
  {
    var dropped, disabled := DropRole(t, target, SUPER_ADMIN), SetEnabled(t, target, false);
    var admins := EnabledWithRole(t, SUPER_ADMIN);
    if IsLastSuperAdmin(t, target) {
      forall u | u in admins ensures u == target {
        if u != target { assert {u, target} <= admins; assert |{u, target}| == 2; SubsetCard({u, target}, admins); }
      }
      forall u | u in t.users && u != target ensures !(t.users[u].enabled && (u, SUPER_ADMIN) in t.grants) {
        assert u !in admins;
      }
      assert !HasSuperAdmin(dropped);
      assert !HasSuperAdmin(disabled);
    } else {
      var u := GuardLeavesSuperAdmin(t, target);
      assert u != target;
      assert dropped.users[u].enabled && (u, SUPER_ADMIN) in dropped.grants;
      assert disabled.users[u].enabled && (u, SUPER_ADMIN) in disabled.grants;
    }
  }

  /** What administration does to the session table: it only revokes sessions of users it disables. */
  lemma StepOnSessions(t: Tables, op: Op)
    ensures var t' := Apply(t, op).0;
            && t'.nextSession == t.nextSession
            && t.users.Keys <= t'.users.Keys
            && (t'.sessions == t.sessions ||
                exists target <- t.users :: t'.sessions == WithRevoked(t.sessions, LiveOfUser(t.sessions, target)))
  {
  }

  // ----- who may do what, and what it does -----

  predicate Holds(t: Tables, user: int, role: string) { (user, role) in t.grants }

  /** Who holds a permission: the roles it comes with. */
  function RolesWith(permission: string): set<string> {
    if permission == "roles.manage" then {"super_admin"}
    else if permission == "audit.read" then {"auditor", "security_admin", "super_admin"}
    else if permission == "users.read" || permission == "users.enable"
    then {"support", "security_admin", "super_admin"}
    else if permission in {"users.disable", "sessions.read", "sessions.revoke", "metrics.read"}
    then {"security_admin", "super_admin"}
    else {}
  }

  lemma PermissionOfRole(role: string, permission: string)
    requires role in ROLES
    ensures permission in PermissionsOf(role) <==> role in RolesWith(permission)
  {
  }

  /** A user has a permission exactly if one of its roles comes with it. */
  lemma PermissionIff(t: Tables, user: int, permission: string)
    requires GrantsOk(t)
    ensures HasPermission(t, user, permission) <==> exists role <- RolesWith(permission) :: Holds(t, user, role)
  {
    forall role <- ROLES ensures permission in PermissionsOf(role) <==> role in RolesWith(permission) {
      PermissionOfRole(role, permission);
    }
    assert RolesWith(permission) <= ROLES && (permission == "" ==> RolesWith(permission) == {});
    if HasPermission(t, user, permission) {
      var role :| role in ROLES && (user, role) in t.grants && permission in PermissionsOf(role);
      assert role in RolesWith(permission) && Holds(t, user, role);
    }
    if role :| role in RolesWith(permission) && Holds(t, user, role) {
      assert role in ROLES && (user, role) in t.grants && permission in PermissionsOf(role);
    }
    hide PermissionsOf, RolesWith;
  }

  /** What an actor needs for a service call: one of these roles. */
  function RolesFor(op: Op): set<string>
    requires op.ServiceSetEnabled? || op.ServiceAssign? || op.ServiceRevoke?
  {
    match op
    case ServiceSetEnabled(_, _, true) => {"support", "security_admin", "super_admin"}
    case ServiceSetEnabled(_, _, false) => {"security_admin", "super_admin"}
    case _ => {"super_admin"}
  }

  /** A service call is refused exactly to an actor with none of those roles, and then does nothing. */
  lemma ForbiddenIff(t: Tables, actor: int, op: Op)
    requires GrantsOk(t) && (op.ServiceSetEnabled? || op.ServiceAssign? || op.ServiceRevoke?)
    ensures Serve(t, actor, op).1 == Forbidden <==> forall role <- RolesFor(op) :: !Holds(t, actor, role)
    ensures Serve(t, actor, op).1 == Forbidden ==> Serve(t, actor, op).0 == t
    ensures Serve(t, actor, op).1 != Forbidden ==> Serve(t, actor, op) == Apply(t, op)
  {
    PermissionIff(t, actor, RequiredPermission(op));
    assert RolesWith(RequiredPermission(op)) == RolesFor(op);
    hide HasPermission, RolesWith, RolesFor;
  }

  /** Granting gives the target that role and changes no other role of anybody. */
  lemma AssignIs(t: Tables, target: int, role: string)
    ensures var (t', outcome) := AssignTx(t, target, role);
            && (outcome == UserNotFound <==> !KnownUser(t, target))
            && (outcome == RoleNotFound <==> KnownUser(t, target) && role !in ROLES)
            && (outcome.RoleSet? <==> KnownUser(t, target) && role in ROLES)
            && (outcome == RoleSet(true) ==> !HasRole(t, target, role))
            && (outcome == RoleSet(false) ==> HasRole(t, target, role))
            && (!outcome.RoleSet? ==> t' == t)
            && (outcome.RoleSet? ==> HasRole(t', target, role))
            && (forall u, r :: u != target || r != role ==> (HasRole(t', u, r) <==> HasRole(t, u, r)))
            && (forall u <- t.users :: u in t'.users && t'.users[u].enabled == t.users[u].enabled)
  {
  }

  /**
   Revoking takes that role from the target and no other from anybody; it is refused for the base
   role, an unknown user or role, and the last enabled super administrator.
   */
  lemma RevokeIs(t: Tables, target: int, role: string)
    ensures var (t', outcome) := RevokeTx(t, target, role);
            && (outcome == BaseRoleKept <==> role == "user")
            && (outcome == UserNotFound <==> role != "user" && !KnownUser(t, target))
            && (outcome == LastSuperAdmin <==>
                  KnownUser(t, target) && role == "super_admin" && IsLastSuperAdmin(t, target))
            && (outcome.RoleSet? <==>
                  role != "user" && KnownUser(t, target) && role in ROLES
                  && !(role == "super_admin" && IsLastSuperAdmin(t, target)))
            && (outcome == RoleSet(true) ==> HasRole(t, target, role))
            && (outcome == RoleSet(false) ==> !HasRole(t, target, role))
            && (!outcome.RoleSet? ==> t' == t)
            && (outcome.RoleSet? ==> !HasRole(t', target, role))
            && (forall u, r :: u != target || r != role ==> (HasRole(t', u, r) <==> HasRole(t, u, r)))
            && (forall u <- t.users :: u in t'.users && t'.users[u].enabled == t.users[u].enabled)
  {
  }

  /** Enabling and disabling set the target's flag and nobody else's; disabling ends its sessions. */
  lemma StatusIs(t: Tables, actor: int, target: int, enabled: bool)
    ensures var (t', outcome) := SetEnabledTx(t, actor, target, enabled);
            && (outcome == CannotDisableSelf <==> !enabled && actor == target)
            && (outcome == UserNotFound <==> (enabled || actor != target) && !KnownUser(t, target))
            && (outcome.StatusSet? <==>
                  KnownUser(t, target) && (enabled || (actor != target && !IsLastSuperAdmin(t, target))))
            && (outcome.StatusSet? ==>
                  outcome == StatusSet(true, |Unrevoked(t.sessions)| - |Unrevoked(t'.sessions)|))
            && (!outcome.StatusSet? ==> t' == t)
            && (outcome.StatusSet? ==> target in t'.users && t'.users[target].enabled == enabled)
            && (outcome.StatusSet? && !enabled ==> LiveOfUser(t'.sessions, target) == {})
            && (enabled ==> t'.sessions == t.sessions)
            && (forall u <- t.users :: u in t'.users && (u != target ==> t'.users[u] == t.users[u]))
            && t'.grants == t.grants
  {
    RevokeCountsDrop(t.sessions, LiveOfUser(t.sessions, target));
  }

  /** Roles change from the command line as they do in the service, once the user is known. */
  lemma CommandRolesAre(t: Tables, actor: int, target: int, role: string)
    ensures Apply(t, CliAssign(target, role)) == Apply(t, ServiceAssign(actor, target, role))
    ensures var (t', outcome) := Apply(t, CliRevoke(target, role));
            && (outcome == UserNotFound <==> !KnownUser(t, target))
            && (KnownUser(t, target) ==> (t', outcome) == Apply(t, ServiceRevoke(actor, target, role)))
            && (!KnownUser(t, target) ==> t' == t)
  {
  }

  /** The command line sets the flag in the same way, and reports whether it had to. */
  lemma CommandStatusIs(t: Tables, target: int)
    ensures var (t', outcome) := Apply(t, CliEnable(target));
            && (outcome.StatusSet? <==> KnownUser(t, target))
            && (outcome.StatusSet? ==>
                  t'.users.Keys == t.users.Keys && t'.users[target].enabled
                  && outcome == StatusSet(!t.users[target].enabled, 0))
            && (!outcome.StatusSet? ==> t' == t)
    ensures var (t', outcome) := Apply(t, CliDisable(target));
            && (outcome.StatusSet? <==> KnownUser(t, target) && !IsLastSuperAdmin(t, target))
            && (outcome.StatusSet? ==>
                  t'.users.Keys == t.users.Keys && !t'.users[target].enabled
                  && outcome == StatusSet(t.users[target].enabled, |Unrevoked(t.sessions)| - |Unrevoked(t'.sessions)|)
                  && (outcome.changed ==> LiveOfUser(t'.sessions, target) == {}))
            && (!outcome.StatusSet? ==> t' == t)
  {
    RevokeCountsDrop(t.sessions, LiveOfUser(t.sessions, target));
  }

  // ----- the services themselves -----

  /** Whether AdminService refuses an actor before any transaction starts. */
  method Authorised(db: Database, actor: int, permission: string) returns (ok: bool)
    ensures ok == HasPermission(db.tables, actor, permission)
  {
    ok := HasPermission(db.tables, actor, permission);
  }

  class AdminService {
    const db: Database

    constructor (db: Database)
      ensures this.db == db
    {
      this.db := db;
    }

    method SetUserEnabled(actor: int, target: int, enabled: bool) returns (outcome: Outcome)
      requires Inv(db.tables)
      modifies db
      ensures (db.tables, outcome) == Serve(old(db.tables), actor, ServiceSetEnabled(actor, target, enabled))
      ensures outcome == Forbidden <==>
                && !Holds(old(db.tables), actor, "security_admin") && !Holds(old(db.tables), actor, "super_admin")
                && (enabled ==> !Holds(old(db.tables), actor, "support"))
      ensures Inv(db.tables)
    {
      StepKeepsInv(db.tables, ServiceSetEnabled(actor, target, enabled));
      ForbiddenIff(db.tables, actor, ServiceSetEnabled(actor, target, enabled));
      var allowed := Authorised(db, actor, if enabled then "users.enable" else "users.disable");
      if !allowed { return Forbidden; }
      if !enabled && actor == target { return CannotDisableSelf; }
      var tx := new Transaction.Begin(db);
      if !KnownUser(db.tables, target) {
        tx.Destroy();
        return UserNotFound;
      }
      if !enabled && IsLastSuperAdmin(db.tables, target) {
        tx.Destroy();
        return LastSuperAdmin;
      }
      db.tables := SetEnabled(db.tables, target, enabled);
      var revoked := 0;
      if !enabled {
        var ids := LiveOfUser(db.tables.sessions, target);
        revoked := |ids|;
        db.tables := Revoke(db.tables, ids);
      }
      var committed := tx.Commit();
      return StatusSet(true, revoked);
    }

    method AssignRole(actor: int, target: int, role: string) returns (outcome: Outcome)
      requires Inv(db.tables)
      modifies db
      ensures (db.tables, outcome) == Serve(old(db.tables), actor, ServiceAssign(actor, target, role))
      ensures outcome == Forbidden <==> !Holds(old(db.tables), actor, "super_admin")
      ensures Inv(db.tables)
    {
      StepKeepsInv(db.tables, ServiceAssign(actor, target, role));
      ForbiddenIff(db.tables, actor, ServiceAssign(actor, target, role));
      var allowed := Authorised(db, actor, "roles.manage");
      if !allowed { return Forbidden; }
      var tx := new Transaction.Begin(db);
      if !KnownUser(db.tables, target) {
        tx.Destroy();
        return UserNotFound;
      }
      outcome := AssignRoleLocked(db, target, role);
      if outcome.RoleNotFound? { tx.Destroy(); } else { var committed := tx.Commit(); }
    }

    method RevokeRole(actor: int, target: int, role: string) returns (outcome: Outcome)
      requires Inv(db.tables)
      modifies db
      ensures (db.tables, outcome) == Serve(old(db.tables), actor, ServiceRevoke(actor, target, role))
      ensures outcome == Forbidden <==> !Holds(old(db.tables), actor, "super_admin")
      ensures Inv(db.tables)
    {
      StepKeepsInv(db.tables, ServiceRevoke(actor, target, role));
      ForbiddenIff(db.tables, actor, ServiceRevoke(actor, target, role));
      var allowed := Authorised(db, actor, "roles.manage");
      if !allowed { return Forbidden; }
      if role == BASE_ROLE { return BaseRoleKept; }
      var tx := new Transaction.Begin(db);
      if !KnownUser(db.tables, target) {
        tx.Destroy();
        return UserNotFound;
      }
      if role == SUPER_ADMIN && IsLastSuperAdmin(db.tables, target) {
        tx.Destroy();
        return LastSuperAdmin;
      }
      outcome := RevokeRoleLocked(db, target, role);
      if outcome.RoleNotFound? { tx.Destroy(); } else { var committed := tx.Commit(); }
    }
  }

  /** The statements of assign_role_locked, for a user that exists. */
  method AssignRoleLocked(db: Database, target: int, role: string) returns (outcome: Outcome)
    requires KnownUser(db.tables, target)
    modifies db
    ensures (db.tables, outcome) == AssignTx(old(db.tables), target, role)
  {
    if role !in ROLES { return RoleNotFound; }
    var changed := (target, role) !in db.tables.grants;
    db.tables := db.tables.(grants := db.tables.grants + {(target, role)});
    if role == SUPER_ADMIN {
      db.tables := SetLegacyRole(db.tables, target, LEGACY_ADMIN);
    }
    return RoleSet(changed);
  }

  /** The statements of revoke_role_locked. */
  method RevokeRoleLocked(db: Database, target: int, role: string) returns (outcome: Outcome)
    modifies db
    ensures role !in ROLES ==> outcome == RoleNotFound && db.tables == old(db.tables)
    ensures role in ROLES ==>
      && outcome == RoleSet((target, role) in old(db.tables).grants)
      && (target > 0 ==> db.tables == DropRole(old(db.tables), target, role))
  {
    if role !in ROLES { return RoleNotFound; }
    var changed := (target, role) in db.tables.grants;
    db.tables := db.tables.(grants := db.tables.grants - {(target, role)});
    if role == SUPER_ADMIN {
      var remaining := HasRole(db.tables, target, SUPER_ADMIN);
      if !remaining {
        db.tables := SetLegacyRole(db.tables, target, "user");
      }
    }
    return RoleSet(changed);
  }

  datatype Command = Promote | Demote | AssignRole(role: string) | RevokeRole(role: string) | Enable | Disable

  function CommandOp(command: Command, target: int): Op {
    match command
    case Promote => CliAssign(target, SUPER_ADMIN)
    case Demote => CliRevoke(target, SUPER_ADMIN)
    case AssignRole(role) => CliAssign(target, role)
    case RevokeRole(role) => CliRevoke(target, role)
    case Enable => CliEnable(target)
    case Disable => CliDisable(target)
  }

  /** What each command leaves behind when it succeeds. */
  lemma CommandIs(t: Tables, command: Command, target: int)
    ensures var (t', outcome) := Apply(t, CommandOp(command, target));
            var done := outcome.RoleSet? || outcome.StatusSet?;
            && (!done ==> t' == t)
            && (done ==>
                  && KnownUser(t, target) && target in t'.users
                  && match command
                     case Promote => HasRole(t', target, "super_admin") && t'.users[target].role == "admin"
                     case Demote => !HasRole(t', target, "super_admin") && t'.users[target].role == "user"
                     case AssignRole(role) => HasRole(t', target, role)
                     case RevokeRole(role) => !HasRole(t', target, role)
                     case Enable => t'.users[target].enabled
                     case Disable => !t'.users[target].enabled)
  {
  }

  /** The transactional block of secure-admin: decode the command, then act in one transaction. */
  method RunCommand(db: Database, command: Command, target: int) returns (outcome: Outcome)
    requires Inv(db.tables)
    modifies db
    ensures (db.tables, outcome) == Apply(old(db.tables), CommandOp(command, target))
    ensures Inv(db.tables)
  {
    StepKeepsInv(db.tables, CommandOp(command, target));
    var roleName, assigning, revoking := "", false, false;
    match command {
      case Promote => roleName, assigning := SUPER_ADMIN, true;
      case Demote => roleName, revoking := SUPER_ADMIN, true;
      case AssignRole(role) => roleName, assigning := role, true;
      case RevokeRole(role) => roleName, revoking := role, true;
      case Enable =>
      case Disable =>
    }
    var tx := new Transaction.Begin(db);
    if !KnownUser(db.tables, target) {
      tx.Destroy();
      return UserNotFound;
    }
    if assigning {
      outcome := AssignRoleLocked(db, target, roleName);
      if outcome.RoleNotFound? { tx.Destroy(); } else { var committed := tx.Commit(); }
      return;
    }
    if revoking {
      if roleName == BASE_ROLE {
        tx.Destroy();
        return BaseRoleKept;
      }
      if roleName == SUPER_ADMIN && IsLastSuperAdmin(db.tables, target) {
        tx.Destroy();
        return LastSuperAdmin;
      }
      outcome := RevokeRoleLocked(db, target, roleName);
      if outcome.RoleNotFound? { tx.Destroy(); } else { var committed := tx.Commit(); }
      return;
    }
    var changed, revoked := false, 0;
    if command.Enable? {
      if !db.tables.users[target].enabled {
        db.tables := SetEnabled(db.tables, target, true);
        changed := true;
      }
    } else if db.tables.users[target].enabled {
      if IsLastSuperAdmin(db.tables, target) {
        tx.Destroy();
        return LastSuperAdmin;
      }
      db.tables := SetEnabled(db.tables, target, false);
      changed := true;
      var ids := LiveOfUser(db.tables.sessions, target);
      revoked := |ids|;
      db.tables := Revoke(db.tables, ids);
    }
    var committed := tx.Commit();
    return StatusSet(changed, revoked);
  }
}
