/**
 The services that run the token-family protocol, statement by statement on the database, each
 proved equal to the corresponding operation of TokenFamilies.

 A repository method is one statement and says what it returns and which rows it touches. A service
 method opens a transaction where the program does, and finishes it on every path, so that what it
 leaves in the tables is all of the operation or none of it.
 */
module AuthService {
  import opened Common
  import opened Schema
  import opened TokenFamilies

  datatype CreateReply = Inserted(id: int) | DuplicateToken | InvalidSession

  class SessionRepository {
    const db: Database

    constructor (db: Database)
      ensures this.db == db
    {
      this.db := db;
    }

    method CreateSession(input: NewSession) returns (reply: CreateReply)
      modifies db
      ensures match Create(old(db.tables), input)
              case Created(t, id) => reply == Inserted(id) && db.tables == t
              case Duplicate => reply == DuplicateToken && db.tables == old(db.tables)
              case Rejected => reply == InvalidSession && db.tables == old(db.tables)
      ensures reply.Inserted? <==>
        && input.userId > 0 && input.userId in old(db.tables).users
        && input.accessHash != "" && input.refreshHash != "" && 0 < input.accessExpires < input.refreshExpires
        && forall id <- old(db.tables).sessions ::
             var s := old(db.tables).sessions[id];
             s.accessHash != input.accessHash && s.refreshHash != input.refreshHash
    {
      CreateIff(db.tables, input);
      if input.userId <= 0 || input.accessHash == "" || input.refreshHash == "" ||
         input.accessExpires <= 0 || input.refreshExpires <= input.accessExpires {
        return InvalidSession;
      }
      if HashTaken(db.tables.sessions, input.accessHash, input.refreshHash) { return DuplicateToken; }
      if input.userId !in db.tables.users { return InvalidSession; }
      var family := input.family;
      if family == "" {
        family := "legacy-single-" + input.accessHash[..Min(24, |input.accessHash|)];
      }
      var id := db.tables.nextSession;
      var row := Session(input.userId, input.accessHash, input.refreshHash, input.accessExpires,
                         input.refreshExpires, false, family, input.parent);
      db.tables := db.tables.(sessions := db.tables.sessions[id := row], nextSession := id + 1);
      return Inserted(id);
    }

    method FindByRefreshTokenHash(hash: string) returns (found: Option<int>)
      requires HashesUnique(db.tables.sessions)
      ensures found == FindByRefresh(db.tables.sessions, hash)
    {
      if hash == "" { return None; }
      if id :| id in db.tables.sessions && db.tables.sessions[id].refreshHash == hash {
        return Some(id);
      }
      return None;
    }

    method FindByAccessTokenHash(hash: string) returns (found: Option<int>)
      requires HashesUnique(db.tables.sessions)
      ensures found == FindByAccess(db.tables.sessions, hash)
    {
      if hash == "" { return None; }
      if id :| id in db.tables.sessions && db.tables.sessions[id].accessHash == hash {
        return Some(id);
      }
      return None;
    }

    /** The UPDATE every revoking call runs, with sqlite3_changes as its result. */
    method UpdateRevoked(ids: set<int>) returns (changes: int)
      requires ids <= Unrevoked(db.tables.sessions)
      modifies db
      ensures db.tables == Revoke(old(db.tables), ids)
      ensures changes == |Unrevoked(old(db.tables).sessions)| - |Unrevoked(db.tables.sessions)| == |ids|
    {
      RevokeCountsDrop(db.tables.sessions, ids);
      changes := |ids|;
      db.tables := Revoke(db.tables, ids);
    }

    method RevokeById(id: int) returns (changed: bool)
      modifies db
      ensures db.tables == Revoke(old(db.tables), LiveById(old(db.tables).sessions, id))
      ensures changed <==> LiveById(old(db.tables).sessions, id) != {}
    {
      var changes := UpdateRevoked(LiveById(db.tables.sessions, id));
      changed := changes > 0;
    }

    method RevokeByIdForUser(id: int, user: int) returns (changed: bool)
      modifies db
      ensures db.tables == Revoke(old(db.tables),
                                  LiveById(old(db.tables).sessions, id) * LiveOfUser(old(db.tables).sessions, user))
      ensures changed <==> |Unrevoked(db.tables.sessions)| < |Unrevoked(old(db.tables).sessions)|
    {
      var changes := UpdateRevoked(LiveById(db.tables.sessions, id) * LiveOfUser(db.tables.sessions, user));
      changed := changes > 0;
    }

    method RevokeFamily(family: string) returns (changes: int)
      modifies db
      ensures db.tables == Revoke(old(db.tables), LiveOfFamily(old(db.tables).sessions, family))
      ensures changes == |Unrevoked(old(db.tables).sessions)| - |Unrevoked(db.tables.sessions)|
    {
      changes := UpdateRevoked(LiveOfFamily(db.tables.sessions, family));
    }

    method RevokeAllForUser(user: int) returns (changes: int)
      modifies db
      ensures db.tables == Revoke(old(db.tables), LiveOfUser(old(db.tables).sessions, user))
      ensures changes == |Unrevoked(old(db.tables).sessions)| - |Unrevoked(db.tables.sessions)|
    {
      changes := UpdateRevoked(LiveOfUser(db.tables.sessions, user));
    }

    method RevokeAllExceptForUser(user: int, excluded: int) returns (changes: int)
      modifies db
      ensures db.tables == Revoke(old(db.tables), LiveOfUserExcept(old(db.tables).sessions, user, excluded))
      ensures changes == |Unrevoked(old(db.tables).sessions)| - |Unrevoked(db.tables.sessions)|
    {
      changes := UpdateRevoked(LiveOfUserExcept(db.tables.sessions, user, excluded));
    }
  }

  datatype IssueReply = TokensIssued(id: int, draw: Draw) | TokenCreationFailed | SessionRejected

  datatype LogoutResult = LogoutResult(user: Option<int>, revoked: bool)

  datatype LogoutAllResult = LoggedOut(user: int, revoked: int) | NotAuthenticated(reason: AuthOutcome)

  class AuthService {
    const db: Database
    const sessions: SessionRepository
    const life: Lifetimes

    ghost predicate Valid()
      reads db
    {
      sessions.db == db && Inv(db.tables)
    }

    constructor (db: Database, life: Lifetimes)
      requires Inv(db.tables)
      ensures this.db == db && this.life == life && Valid()
    {
      this.db := db;
      this.life := life;
      this.sessions := new SessionRepository(db);
    }

    /** issue_tokens: up to three attempts, a duplicate hash leading to the next one. */
    method IssueTokens(user: int, now: int, family: string, parent: Option<int>, draws: Draws)
      returns (reply: IssueReply)
      requires sessions.db == db
      modifies db
      ensures match Issue(old(db.tables), life, user, now, family, parent, draws)
              case Issued(t, id, draw) => reply == TokensIssued(id, draw) && db.tables == t
              case AllDuplicate => reply == TokenCreationFailed && db.tables == old(db.tables)
              case NotAccepted => reply == SessionRejected && db.tables == old(db.tables)
    {
      for attempt := 0 to 3
        invariant db.tables == old(db.tables)
        invariant Issue(db.tables, life, user, now, family, parent, draws) ==
                  Issue(db.tables, life, user, now, family, parent, draws[attempt..])
      {
        var draw := draws[attempt];
        var created := sessions.CreateSession(
          NewSession(user, draw.accessHash, draw.refreshHash, now + life.access, now + life.refresh, family, parent));
        match created {
          case Inserted(id) => return TokensIssued(id, draw);
          case InvalidSession => return SessionRejected;
          case DuplicateToken => assert draws[attempt..][1..] == draws[attempt + 1..];
        }
      }
      return TokenCreationFailed;
    }

    /** login's second half, after the credentials were accepted. */
    method StartSession(user: int, now: int, family: string, draws: Draws) returns (reply: IssueReply)
      requires Valid() && FamilyFresh(db.tables, family)
      modifies db
      ensures Valid()
      ensures db.tables == StartFamily(old(db.tables), life, user, now, family, draws)
      ensures reply.TokensIssued? <==> SomeDrawFits(old(db.tables), life, user, now, draws)
      ensures reply.TokensIssued? ==>
        && reply.id in db.tables.sessions && reply.id !in old(db.tables).sessions
        && Members(db.tables, family) == {reply.id}
        && !db.tables.sessions[reply.id].revoked && db.tables.sessions[reply.id].parent == None
    {
      IssuedIff(db.tables, life, user, now, family, None, draws);
      hide SomeDrawFits;
      StartFamilyKeepsInv(db.tables, life, user, now, family, draws);
      IssueAddsOneRow(db.tables, life, user, now, family, None, draws);
      NextIsFree(db.tables);
      ghost var before := db.tables;
      reply := IssueTokens(user, now, family, None, draws);
      if reply.TokensIssued? {
        forall id <- before.sessions ensures db.tables.sessions[id].family != family {}
        assert db.tables.sessions[reply.id].family == family;
      }
    }

    method RefreshTokens(hash: string, now: int, drawnFamily: string, draws: Draws) returns (outcome: RefreshOutcome)
      requires Valid()
      modifies db
      ensures Valid()
      ensures (db.tables, outcome) == Refresh(old(db.tables), life, hash, now, drawnFamily, draws)
    {
      RefreshKeepsInv(db.tables, life, hash, now, drawnFamily, draws);
      outcome := RefreshInTransaction(hash, now, drawnFamily, draws);
    }

    /** refresh itself; only the UNIQUE constraints on the hashes are taken for granted. */
    method RefreshInTransaction(hash: string, now: int, drawnFamily: string, draws: Draws)
      returns (outcome: RefreshOutcome)
      requires sessions.db == db && HashesUnique(db.tables.sessions)
      modifies db
      ensures (db.tables, outcome) == Refresh(old(db.tables), life, hash, now, drawnFamily, draws)
    {
      var tx := new Transaction.Begin(db);
      var found := sessions.FindByRefreshTokenHash(hash);
      if found.None? {
        tx.Destroy();
        return UnknownToken;
      }
      var id := found.value;
      var session := db.tables.sessions[id];
      if session.revoked {
        if session.family == "" {
          var changes := sessions.RevokeAllForUser(session.userId);
        } else {
          var changes := sessions.RevokeFamily(session.family);
        }
        var committed := tx.Commit();
        return ReusedAtLookup;
      }
      if session.refreshExpires <= now {
        var revoked := sessions.RevokeById(id);
        var committed := tx.Commit();
        return Expired;
      }
      if session.userId <= 0 || session.userId !in db.tables.users {
        var revoked := sessions.RevokeById(id);
        var committed := tx.Commit();
        return OwnerMissing;
      }
      if !db.tables.users[session.userId].enabled {
        var revoked := sessions.RevokeById(id);
        var committed := tx.Commit();
        return OwnerDisabled;
      }
      var revoked := sessions.RevokeById(id);
      if !revoked {
        var changes := sessions.RevokeFamily(session.family);
        var committed := tx.Commit();
        return ReusedAtRevoke;
      }
      var family := if session.family == "" then drawnFamily else session.family;
      var reply := IssueTokens(session.userId, now, family, Some(id), draws);
      match reply {
        case TokensIssued(newId, draw) =>
          var committed := tx.Commit();
          return Refreshed(newId, draw);
        case TokenCreationFailed =>
          tx.Destroy();
          return CreationFailed;
        case SessionRejected =>
          tx.Destroy();
          return RequestRejected;
      }
    }

    method AuthenticateAccessToken(hash: string, now: int) returns (outcome: AuthOutcome)
      requires Valid()
      ensures outcome == Authenticate(db.tables, hash, now)
      ensures outcome.Authenticated? ==>
        && outcome.session in db.tables.sessions && !db.tables.sessions[outcome.session].revoked
        && db.tables.sessions[outcome.session].userId == outcome.user
        && db.tables.sessions[outcome.session].accessHash == hash
        && db.tables.sessions[outcome.session].accessExpires > now
        && outcome.user in db.tables.users && db.tables.users[outcome.user].enabled
    {
      var found := sessions.FindByAccessTokenHash(hash);
      if found.None? || db.tables.sessions[found.value].revoked { return InvalidToken; }
      var session := db.tables.sessions[found.value];
      if session.accessExpires <= now { return TokenExpired; }
      if session.userId <= 0 || session.userId !in db.tables.users { return InvalidToken; }
      if !db.tables.users[session.userId].enabled { return AccountDisabled; }
      return Authenticated(session.userId, found.value);
    }

    method LogoutAccessToken(hash: string) returns (result: LogoutResult)
      requires Valid()
      modifies db
      ensures Valid()
      ensures var found := FindByAccess(old(db.tables).sessions, hash);
              if found.None? || old(db.tables).sessions[found.value].revoked
              then result == LogoutResult(None, false) && db.tables == old(db.tables)
              else && result == LogoutResult(Some(old(db.tables).sessions[found.value].userId), true)
                   && db.tables == old(db.tables).(sessions := db.tables.sessions)
                   && OnlyFlips(old(db.tables).sessions, db.tables.sessions, {found.value})
    {
      var found := sessions.FindByAccessTokenHash(hash);
      if found.None? || db.tables.sessions[found.value].revoked { return LogoutResult(None, false); }
      var id := found.value;
      assert RowOk(db.tables, id);
      RevokeKeepsInv(db.tables, {id});
      var user := db.tables.sessions[id].userId;
      var revoked := sessions.RevokeById(id);
      return LogoutResult(Some(user), revoked);
    }

    method LogoutAllAccessToken(hash: string, now: int) returns (result: LogoutAllResult)
      requires Valid()
      modifies db
      ensures Valid()
      ensures result.NotAuthenticated? ==>
                db.tables == old(db.tables) && !Authenticate(old(db.tables), hash, now).Authenticated?
      ensures result.LoggedOut? ==>
        && (exists id :: Authenticate(old(db.tables), hash, now) == Authenticated(result.user, id))
        && LiveOfUser(db.tables.sessions, result.user) == {}
        && db.tables == Revoke(old(db.tables), LiveOfUser(old(db.tables).sessions, result.user))
        && result.revoked == |Unrevoked(old(db.tables).sessions)| - |Unrevoked(db.tables.sessions)| > 0
    {
      var outcome := AuthenticateAccessToken(hash, now);
      match outcome {
        case Authenticated(user, id) =>
          RevokeKeepsInv(db.tables, LiveOfUser(db.tables.sessions, user));
          assert id in LiveOfUser(db.tables.sessions, user);
          RevokeCountsDrop(db.tables.sessions, LiveOfUser(db.tables.sessions, user));
          var changes := sessions.RevokeAllForUser(user);
          return LoggedOut(user, changes);
        case _ => return NotAuthenticated(outcome);
      }
    }
  }

  datatype RevokeSessionResult =
    | SessionRevoked(user: int, changed: bool)
    | SessionNotFound
    | Unauthenticated(reason: AuthOutcome)

  datatype PasswordResult =
    | PasswordChanged(user: int, revoked: int)
    | WrongCurrentPassword
    | WeakNewPassword
    | SamePassword
    | UpdateFailed
    | NotLoggedIn(reason: AuthOutcome)

  const MIN_PASSWORD_BYTES := 8
  const MAX_PASSWORD_BYTES := 128

  class AccountSecurityService {
    const auth: AuthService

    constructor (auth: AuthService)
      ensures this.auth == auth
    {
      this.auth := auth;
    }

    method RevokeSession(hash: string, now: int, id: int) returns (result: RevokeSessionResult)
      requires auth.Valid()
      modifies auth.db
      ensures auth.Valid()
      ensures var t := old(auth.db.tables);
              match result
              case Unauthenticated(_) => auth.db.tables == t && !Authenticate(t, hash, now).Authenticated?
              case SessionNotFound =>
                auth.db.tables == t && exists own <- t.sessions ::
                  && Authenticate(t, hash, now) == Authenticated(t.sessions[own].userId, own)
                  && (id <= 0 || id !in t.sessions || t.sessions[id].userId != t.sessions[own].userId)
              case SessionRevoked(user, changed) =>
                && id in t.sessions && t.sessions[id].userId == user
                && changed == !t.sessions[id].revoked
                && auth.db.tables == Revoke(t, {id})
    {
      var outcome := auth.AuthenticateAccessToken(hash, now);
      if !outcome.Authenticated? { return Unauthenticated(outcome); }
      var user := outcome.user;
      ghost var t := auth.db.tables;
      if id <= 0 || id !in auth.db.tables.sessions || auth.db.tables.sessions[id].userId != user {
        assert Authenticate(t, hash, now) == Authenticated(t.sessions[outcome.session].userId, outcome.session);
        return SessionNotFound;
      }
      RevokeKeepsInv(t, {id});
      var changed := false;
      if !auth.db.tables.sessions[id].revoked {
        assert LiveById(t.sessions, id) * LiveOfUser(t.sessions, user) == {id} by { assert RowOk(t, id); }
        RevokeCountsDrop(t.sessions, {id});
        changed := auth.sessions.RevokeByIdForUser(id, user);
      } else {
        assert WithRevoked(t.sessions, {id}) == t.sessions;
      }
      return SessionRevoked(user, changed);
    }

    /**
     The password checks are foreign code: `currentMatches` and `sameAsCurrent` are their answers,
     `newHash` is the hash of the new password and `newBytes` its length.
     */
    method ChangePassword(hash: string, now: int, currentMatches: bool, newBytes: nat, sameAsCurrent: bool,
                          newHash: string)
      returns (result: PasswordResult)
      requires auth.Valid()
      modifies auth.db
      ensures auth.Valid()
      ensures var caller := Authenticate(old(auth.db.tables), hash, now);
              var known, fits := caller.Authenticated? && currentMatches, 8 <= newBytes <= 128;
              && (result.NotLoggedIn? <==> !caller.Authenticated?)
              && (result.NotLoggedIn? ==> result.reason == caller)
              && (result == WrongCurrentPassword <==> caller.Authenticated? && !currentMatches)
              && (result == WeakNewPassword <==> known && !fits)
              && (result == SamePassword <==> known && fits && sameAsCurrent)
              && (result == UpdateFailed <==> known && fits && !sameAsCurrent && newHash == "")
              && (result.PasswordChanged? <==> known && fits && !sameAsCurrent && newHash != "")
      ensures !result.PasswordChanged? ==> auth.db.tables == old(auth.db.tables)
      ensures result.PasswordChanged? ==>
        exists own :: Authenticate(old(auth.db.tables), hash, now) == Authenticated(result.user, own)
                      && auth.db.tables == TokenFamilies.ChangePassword(old(auth.db.tables), result.user, own, newHash)
                      && LiveOfUser(auth.db.tables.sessions, result.user) == {own}
                      && result.user in auth.db.tables.users
                      && auth.db.tables.users[result.user].passwordHash == newHash
                      && result.revoked ==
                           |Unrevoked(old(auth.db.tables).sessions)| - |Unrevoked(auth.db.tables.sessions)|
    {
      var outcome := auth.AuthenticateAccessToken(hash, now);
      if !outcome.Authenticated? { return NotLoggedIn(outcome); }
      var user, own := outcome.user, outcome.session;
      if !currentMatches { return WrongCurrentPassword; }
      if newBytes < MIN_PASSWORD_BYTES || newBytes > MAX_PASSWORD_BYTES { return WeakNewPassword; }
      if sameAsCurrent { return SamePassword; }
      assert RowOk(auth.db.tables, own);
      ApplyKeepsInv(auth.db.tables, auth.life, SetPassword(user, own, newHash));
      var tx := new Transaction.Begin(auth.db);
      if newHash == "" {
        tx.Destroy();
        return UpdateFailed;
      }
      auth.db.tables := SetPasswordHash(auth.db.tables, user, newHash);
      var revoked := auth.sessions.RevokeAllExceptForUser(user, own);
      var committed := tx.Commit();
      return PasswordChanged(user, revoked);
    }
  }
}
