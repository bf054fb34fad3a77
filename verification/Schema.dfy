/**
 The database tables the services share, the SQL statements that change them, and the
 transaction object that groups statements.

 SQLite itself is represented by the effect of each statement on the tables; an immediate
 transaction holds the write lock, so its statements act on the tables alone until it commits or
 rolls back.
 */
module Schema {
  import opened Common

  datatype User = User(enabled: bool, passwordHash: string, role: string)

  datatype Session = Session(
    userId: int,
    accessHash: string,
    refreshHash: string,
    accessExpires: int,
    refreshExpires: int,
    revoked: bool,
    family: string,
    parent: Option<int>)

  datatype Tables = Tables(
    users: map<int, User>,
    nextUser: int,
    grants: set<(int, string)>,
    sessions: map<int, Session>,
    nextSession: int)

  /** The argument of an INSERT into auth_sessions. */
  datatype NewSession = NewSession(
    userId: int,
    accessHash: string,
    refreshHash: string,
    accessExpires: int,
    refreshExpires: int,
    family: string,
    parent: Option<int>)

  // ----- auth_sessions -----

  predicate HashTaken(sessions: map<int, Session>, access: string, refresh: string) {
    exists id <- sessions :: sessions[id].accessHash == access || sessions[id].refreshHash == refresh
  }

  datatype CreateResult =
    | Created(tables: Tables, id: int)
    | Duplicate
    | Rejected

  /** The row that is stored: an empty family is replaced by one derived from the access hash. */
  function StoredFamily(input: NewSession): string {
    if input.family == ""
    then "legacy-single-" + input.accessHash[..Min(24, |input.accessHash|)]
    else input.family
  }

  predicate WellFormed(input: NewSession) {
    && input.userId > 0
    && input.accessHash != ""
    && input.refreshHash != ""
    && input.accessExpires > 0
    && input.refreshExpires > input.accessExpires
  }

  /** AuthSessionRepository::create: argument check, UNIQUE constraints, then the foreign key. */
  function Create(t: Tables, input: NewSession): CreateResult {
    if !WellFormed(input) then Rejected
    else if HashTaken(t.sessions, input.accessHash, input.refreshHash) then Duplicate
    else if input.userId !in t.users then Rejected
    else
      var row := Session(input.userId, input.accessHash, input.refreshHash, input.accessExpires,
                         input.refreshExpires, false, StoredFamily(input), input.parent);
      Created(t.(sessions := t.sessions[t.nextSession := row], nextSession := t.nextSession + 1),
              t.nextSession)
  }

  /**
   A row is stored exactly for an existing user, with hashes that are not empty and that no row
   holds, and expiries in order; what is stored is live and keeps the values given.
   */
  lemma CreateIff(t: Tables, input: NewSession)
    ensures Create(t, input).Duplicate? <==>
              input.userId > 0 && input.accessHash != "" && input.refreshHash != ""
              && 0 < input.accessExpires < input.refreshExpires
              && exists id <- t.sessions ::
                   t.sessions[id].accessHash == input.accessHash || t.sessions[id].refreshHash == input.refreshHash
    ensures Create(t, input).Created? <==>
              input.userId > 0 && input.accessHash != "" && input.refreshHash != ""
              && 0 < input.accessExpires < input.refreshExpires && input.userId in t.users
              && forall id <- t.sessions ::
                   t.sessions[id].accessHash != input.accessHash && t.sessions[id].refreshHash != input.refreshHash
    ensures var r := Create(t, input);
            r.Created? ==>
              && r.id == t.nextSession && r.id in r.tables.sessions
              && r.tables == t.(sessions := t.sessions[r.id := r.tables.sessions[r.id]], nextSession := r.id + 1)
              && var s := r.tables.sessions[r.id];
              && s.userId == input.userId && s.parent == input.parent && !s.revoked
              && s.accessHash == input.accessHash && s.refreshHash == input.refreshHash
              && s.accessExpires == input.accessExpires && s.refreshExpires == input.refreshExpires
              && (input.family != "" ==> s.family == input.family)
              && (input.family == "" ==>
                    exists prefix :: s.family == "legacy-single-" + prefix && prefix <= input.accessHash
                                     && (|prefix| == 24 || (|prefix| < 24 && prefix == input.accessHash)))
  {
    var prefix := input.accessHash[..Min(24, |input.accessHash|)];
    assert prefix <= input.accessHash && (|prefix| < 24 ==> prefix == input.accessHash);
    assert input.family == "" ==> StoredFamily(input) == "legacy-single-" + prefix;
  }

  function Unrevoked(sessions: map<int, Session>): set<int> {
    set id | id in sessions && !sessions[id].revoked
  }

  // The rows each revoking call selects; a non-positive id or an empty family selects none.

  function LiveOfUser(sessions: map<int, Session>, user: int): set<int> {
    if user <= 0 then {} else set id | id in sessions && sessions[id].userId == user && !sessions[id].revoked
  }

  function LiveOfUserExcept(sessions: map<int, Session>, user: int, excluded: int): set<int> {
    if excluded <= 0 then {} else LiveOfUser(sessions, user) - {excluded}
  }

  function LiveOfFamily(sessions: map<int, Session>, family: string): set<int> {
    if family == "" then {} else set id | id in sessions && sessions[id].family == family && !sessions[id].revoked
  }

  function LiveById(sessions: map<int, Session>, id: int): set<int> {
    if id > 0 && id in sessions && !sessions[id].revoked then {id} else {}
  }

  /** UPDATE auth_sessions SET revoked = 1 on the rows an UPDATE selected. */
  function WithRevoked(sessions: map<int, Session>, ids: set<int>): map<int, Session> {
    map id | id in sessions :: if id in ids then sessions[id].(revoked := true) else sessions[id]
  }

  function Revoke(t: Tables, ids: set<int>): Tables {
    t.(sessions := WithRevoked(t.sessions, ids))
  }

  /**
   An UPDATE that selects only unrevoked rows reports exactly the drop in unrevoked rows, and
   changes no other column of any row.
   */
  lemma RevokeCountsDrop(sessions: map<int, Session>, ids: set<int>)
    requires ids <= Unrevoked(sessions)
    ensures var after := WithRevoked(sessions, ids);
            && after.Keys == sessions.Keys
            && |ids| == |Unrevoked(sessions)| - |Unrevoked(after)|
            && (forall id <- sessions :: after[id] == sessions[id].(revoked := sessions[id].revoked || id in ids))
  {
    var after := WithRevoked(sessions, ids);
    assert Unrevoked(sessions) == Unrevoked(after) + ids;
    assert Unrevoked(after) !! ids;
  }

  // ----- users and user_roles -----

  const BASE_ROLE := "user"
  const SUPER_ADMIN := "super_admin"
  const LEGACY_ADMIN := "admin"

  /** The built-in rows of the roles table. */
  const ROLES: set<string> := {"user", "auditor", "support", "security_admin", "super_admin"}

  /** The built-in rows of role_permissions. */
  function PermissionsOf(role: string): set<string> {
    if role == "auditor" then {"audit.read"}
    else if role == "support" then {"users.read", "users.enable"}
    else if role == "security_admin" then
      {"users.read", "users.enable", "users.disable", "sessions.read", "sessions.revoke", "audit.read", "metrics.read"}
    else if role == SUPER_ADMIN then
      {"users.read", "users.enable", "users.disable", "sessions.read", "sessions.revoke", "audit.read",
       "metrics.read", "roles.manage"}
    else {}
  }

  predicate HasPermission(t: Tables, user: int, permission: string) {
    && user > 0 && permission != ""
    && exists role <- ROLES :: (user, role) in t.grants && permission in PermissionsOf(role)
  }

  predicate HasRole(t: Tables, user: int, role: string) {
    user > 0 && role != "" && role in ROLES && (user, role) in t.grants
  }

  /** The users counted by count_enabled_users_with_role. */
  function EnabledWithRole(t: Tables, role: string): set<int> {
    set u | u in t.users && t.users[u].enabled && role in ROLES && (u, role) in t.grants
  }

  function SetEnabled(t: Tables, user: int, enabled: bool): Tables {
    if user in t.users then t.(users := t.users[user := t.users[user].(enabled := enabled)]) else t
  }

  function SetPasswordHash(t: Tables, user: int, hash: string): Tables {
    if user in t.users then t.(users := t.users[user := t.users[user].(passwordHash := hash)]) else t
  }

  function SetLegacyRole(t: Tables, user: int, role: string): Tables {
    if user in t.users then t.(users := t.users[user := t.users[user].(role := role)]) else t
  }

  /** INSERT INTO users followed by the assign_default_user_role trigger. */
  function InsertUser(t: Tables, hash: string): Tables {
    t.(users := t.users[t.nextUser := User(true, hash, "user")],
       grants := t.grants + {(t.nextUser, BASE_ROLE)},
       nextUser := t.nextUser + 1)
  }

  // ----- transactions -----

  class Database {
    var tables: Tables

    constructor (initial: Tables)
      ensures tables == initial
    {
      tables := initial;
    }
  }

  /**
   DatabaseTransaction: begun on construction, finished once by commit, rollback or destruction.
   `snapshot` is what ROLLBACK restores.
   */
  class Transaction {
    var database: Database?
    var active: bool
    var snapshot: Tables

    ghost predicate Open(db: Database)
      reads this
    {
      active && database == db
    }

    constructor Begin(db: Database)
      ensures Open(db) && snapshot == db.tables
    {
      database, active, snapshot := db, true, db.tables;
    }

    /** Move construction: the new object takes over, the old one becomes inert. */
    constructor Move(other: Transaction)
      modifies other
      ensures database == old(other.database) && active == old(other.active) && snapshot == old(other.snapshot)
      ensures other.database == null && !other.active
    {
      database, active, snapshot := other.database, other.active, other.snapshot;
      new;
      other.database, other.active := null, false;
    }

    method Commit() returns (ok: bool)
      modifies this
      ensures ok == old(active && database != null)
      ensures database == old(database) && active == (old(active) && !ok)
      ensures snapshot == old(snapshot)
    {
      ok := active && database != null;
      if ok { active := false; }
    }

    method Rollback() returns (ok: bool)
      modifies this, database
      ensures ok == old(active && database != null)
      ensures database == old(database) && active == (old(active) && !ok)
      ensures ok ==> database.tables == old(snapshot)
      ensures !ok && database != null ==> database.tables == old(database.tables)
    {
      ok := active && database != null;
      if ok {
        database.tables := snapshot;
        active := false;
      }
    }

    /** The destructor: an unfinished transaction rolls back, a finished one changes nothing. */
    method Destroy()
      modifies this, database
      ensures database == old(database) && !(active && database != null)
      ensures database != null ==>
        database.tables == if old(active) then old(snapshot) else old(database.tables)
    {
      if active && database != null {
        database.tables := snapshot;
        active := false;
      }
    }

    /** Move assignment: the transaction held so far rolls back before the other is taken over. */
    method Assign(other: Transaction)
      modifies this, other, database
      ensures other == this ==> database == old(database) && active == old(active) && snapshot == old(snapshot)
      ensures other == this && database != null ==> database.tables == old(database.tables)
      ensures other != this ==>
        && database == old(other.database) && active == old(other.active) && snapshot == old(other.snapshot)
        && other.database == null && !other.active
        && (var previous := old(database);
            previous != null ==>
              previous.tables == if old(active) then old(snapshot) else old(previous.tables))
    {
      if other != this {
        Destroy();
        database, active, snapshot := other.database, other.active, other.snapshot;
        other.database, other.active := null, false;
      }
    }
  }
}
