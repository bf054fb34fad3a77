/**
 Refresh-token families. A login starts a family, a refresh revokes the presented session and inserts
 its child in the same family inside one immediate transaction, and presenting a revoked refresh token
 again revokes the whole family. Token hashes and family ids are strings drawn by the environment.
 */
module TokenFamilies {
  import opened Common
  import opened Schema
  import Administration

  /** One attempt at drawing a token pair, given by the hashes that are stored. */
  datatype Draw = Draw(accessHash: string, refreshHash: string)

  /** issue_tokens gives up after three attempts. */
  type Draws = s: seq<Draw> | |s| == 3 witness [Draw("", ""), Draw("", ""), Draw("", "")]

  datatype Lifetimes = Lifetimes(access: int, refresh: int)

  // ----- issuing tokens -----

  datatype IssueResult =
    | Issued(tables: Tables, id: int, draw: Draw)
    | AllDuplicate
    | NotAccepted

  function RowFor(life: Lifetimes, user: int, now: int, family: string, parent: Option<int>, draw: Draw): NewSession {
    NewSession(user, draw.accessHash, draw.refreshHash, now + life.access, now + life.refresh, family, parent)
  }

  /** The first draw that the table accepts, as long as earlier ones only collided. */
  function Issue(t: Tables, life: Lifetimes, user: int, now: int, family: string, parent: Option<int>,
                 draws: seq<Draw>): IssueResult
    decreases |draws|
  {
    if draws == [] then AllDuplicate
    else match Create(t, RowFor(life, user, now, family, parent, draws[0]))
      case Created(t', id) => Issued(t', id, draws[0])
      case Rejected => NotAccepted
      case Duplicate => Issue(t, life, user, now, family, parent, draws[1..])
  }

  /** A successful issue adds exactly one row, for one of the draws, under the next id. */
  lemma {:induction false} IssueAddsOneRow(t: Tables, life: Lifetimes, user: int, now: int, family: string,
                                           parent: Option<int>, draws: seq<Draw>)
    ensures var r := Issue(t, life, user, now, family, parent, draws);
            r.Issued? ==>
              && r.draw in draws
              && r.id == t.nextSession
              && Create(t, RowFor(life, user, now, family, parent, r.draw)) == Created(r.tables, r.id)
    decreases |draws|
  {
    if draws != [] && Create(t, RowFor(life, user, now, family, parent, draws[0])).Duplicate? {
      IssueAddsOneRow(t, life, user, now, family, parent, draws[1..]);
    }
  }

  /** Some row holds one of the two hashes of the draw. */
  predicate Held(t: Tables, draw: Draw) { exists id <- t.sessions :: Holds(t.sessions[id], draw) }

  predicate Holds(s: Session, draw: Draw) { s.accessHash == draw.accessHash || s.refreshHash == draw.refreshHash }

  predicate Blank(draw: Draw) { draw.accessHash == "" || draw.refreshHash == "" }

  /** Both tokens expire after time zero, the refresh token after the access token. */
  predicate ExpiriesInOrder(life: Lifetimes, now: int) { 0 < now + life.access < now + life.refresh }

  /** No row holds a hash of the draw at i, and the draws before it only collide. */
  predicate FitsAt(t: Tables, draws: seq<Draw>, i: nat)
    requires i < |draws|
  {
    && !Held(t, draws[i])
    && (forall j :: 0 <= j <= i ==> !Blank(draws[j]))
    && (forall j :: 0 <= j < i ==> Held(t, draws[j]))
  }

  predicate SomeDrawFits(t: Tables, life: Lifetimes, user: int, now: int, draws: seq<Draw>) {
    && user > 0 && user in t.users && ExpiriesInOrder(life, now)
    && exists i: nat :: i < |draws| && FitsAt(t, draws, i)
  }

  // What one INSERT answers, in terms of the rows.
  lemma CreateAnswers(t: Tables, life: Lifetimes, user: int, now: int, family: string, parent: Option<int>, draw: Draw)
    ensures var r := Create(t, RowFor(life, user, now, family, parent, draw));
            var accepted := user > 0 && !Blank(draw) && ExpiriesInOrder(life, now);
            && (r.Duplicate? <==> accepted && Held(t, draw))
            && (r.Created? <==> accepted && !Held(t, draw) && user in t.users)
  {
    CreateIff(t, RowFor(life, user, now, family, parent, draw));
  }

  lemma FitsLater(t: Tables, draws: seq<Draw>, i: nat)
    requires i + 1 < |draws| && Held(t, draws[0]) && !Blank(draws[0])
    ensures FitsAt(t, draws, i + 1) <==> FitsAt(t, draws[1..], i)
  {
    hide Held, Blank;
    var rest := draws[1..];
    assert forall j :: 0 <= j < |rest| ==> draws[j + 1] == rest[j];
    if FitsAt(t, rest, i) {
      forall j | 0 < j <= i + 1 ensures draws[j] == rest[j - 1] { }
    }
  }

  /**
   When tokens are issued, told from the rows and the draws beforehand: for the first draw that no
   row holds, and otherwise not at all.
   */
  lemma {:induction false} IssuedIff(t: Tables, life: Lifetimes, user: int, now: int, family: string,
                                     parent: Option<int>, draws: seq<Draw>)
    ensures Issue(t, life, user, now, family, parent, draws).Issued? <==> SomeDrawFits(t, life, user, now, draws)
    ensures forall i: nat :: i < |draws| && FitsAt(t, draws, i) && SomeDrawFits(t, life, user, now, draws) ==>
              Issue(t, life, user, now, family, parent, draws).draw == draws[i]
    ensures Issue(t, life, user, now, family, parent, draws).AllDuplicate? <==>
              draws == [] || (user > 0 && ExpiriesInOrder(life, now)
                              && forall j :: 0 <= j < |draws| ==> Held(t, draws[j]) && !Blank(draws[j]))
    decreases |draws|
  {
    hide Held, Blank, ExpiriesInOrder, Create;
    if draws != [] {
      CreateAnswers(t, life, user, now, family, parent, draws[0]);
      if Create(t, RowFor(life, user, now, family, parent, draws[0])).Duplicate? {
        IssuedIff(t, life, user, now, family, parent, draws[1..]);
        forall i: nat | i + 1 < |draws| ensures FitsAt(t, draws, i + 1) <==> FitsAt(t, draws[1..], i) {
          FitsLater(t, draws, i);
        }
        assert forall j :: 0 < j < |draws| ==> draws[j] == draws[1..][j - 1];
        if i: nat :| i < |draws| && FitsAt(t, draws, i) { assert FitsAt(t, draws[1..], i - 1); }
      } else {
        assert FitsAt(t, draws, 0) <==> !Held(t, draws[0]) && !Blank(draws[0]);
        assert !Held(t, draws[0]) || Blank(draws[0]) ==> forall i: nat :: 0 < i < |draws| ==> !FitsAt(t, draws, i);
      }
    }
  }

  // ----- the operations -----

  /** SELECT ... WHERE refresh_token_hash = ?1 LIMIT 1. */
  ghost function FindByRefresh(sessions: map<int, Session>, hash: string): Option<int> {
    if hash != "" && exists id <- sessions :: sessions[id].refreshHash == hash
    then var id :| id in sessions && sessions[id].refreshHash == hash; Some(id)
    else None
  }

  ghost function FindByAccess(sessions: map<int, Session>, hash: string): Option<int> {
    if hash != "" && exists id <- sessions :: sessions[id].accessHash == hash
    then var id :| id in sessions && sessions[id].accessHash == hash; Some(id)
    else None
  }

  datatype RefreshOutcome =
    | UnknownToken
    | ReusedAtLookup
    | ReusedAtRevoke
    | Expired
    | OwnerMissing
    | OwnerDisabled
    | CreationFailed
    | RequestRejected
    | Refreshed(id: int, draw: Draw)

  /** AuthService::refresh, branch by branch; `family` is what generate_token_family_id would draw. */
  ghost function Refresh(t: Tables, life: Lifetimes, hash: string, now: int, family: string, draws: Draws)
    : (Tables, RefreshOutcome)
  {
    match FindByRefresh(t.sessions, hash)
    case None => (t, UnknownToken)
    case Some(id) =>
      var s := t.sessions[id];
      if s.revoked then
        if s.family == "" then (Revoke(t, LiveOfUser(t.sessions, s.userId)), ReusedAtLookup)
        else (Revoke(t, LiveOfFamily(t.sessions, s.family)), ReusedAtLookup)
      else if s.refreshExpires <= now then (Revoke(t, LiveById(t.sessions, id)), Expired)
      else if s.userId <= 0 || s.userId !in t.users then (Revoke(t, LiveById(t.sessions, id)), OwnerMissing)
      else if !t.users[s.userId].enabled then (Revoke(t, LiveById(t.sessions, id)), OwnerDisabled)
      else
        var t1 := Revoke(t, LiveById(t.sessions, id));
        if LiveById(t.sessions, id) == {} then (Revoke(t1, LiveOfFamily(t1.sessions, s.family)), ReusedAtRevoke)
        else
          match Issue(t1, life, s.userId, now, if s.family == "" then family else s.family, Some(id), draws)
          case Issued(t2, newId, draw) => (t2, Refreshed(newId, draw))
          case AllDuplicate => (t, CreationFailed)
          case NotAccepted => (t, RequestRejected)
  }

  datatype AuthOutcome =
    | InvalidToken
    | TokenExpired
    | AccountDisabled
    | Authenticated(user: int, session: int)

  /** AuthService::authenticate_access_token. */
  ghost function Authenticate(t: Tables, hash: string, now: int): AuthOutcome {
    match FindByAccess(t.sessions, hash)
    case None => InvalidToken
    case Some(id) =>
      var s := t.sessions[id];
      if s.revoked then InvalidToken
      else if s.accessExpires <= now then TokenExpired
      else if s.userId <= 0 || s.userId !in t.users then InvalidToken
      else if !t.users[s.userId].enabled then AccountDisabled
      else Authenticated(s.userId, id)
  }

  /** login's second half: a new family with one root session; a failed insert changes nothing. */
  function StartFamily(t: Tables, life: Lifetimes, user: int, now: int, family: string, draws: Draws): Tables {
    match Issue(t, life, user, now, family, None, draws)
    case Issued(t', _, _) => t'
    case _ => t
  }

  function ChangePassword(t: Tables, user: int, session: int, hash: string): Tables {
    if user <= 0 || user !in t.users || hash == "" then t
    else Revoke(SetPasswordHash(t, user, hash), LiveOfUserExcept(t.sessions, user, session))
  }

  /** One atomic effect on the tables. A login here is its two halves with nothing in between. */
  datatype Op =
    | Login(user: int, now: int, family: string, draws: Draws)
    | RefreshWith(hash: string, now: int, family: string, draws: Draws)
    | RevokeOne(id: int)
    | RevokeOwn(id: int, user: int)
    | RevokeEverywhere(user: int)
    | SetPassword(user: int, session: int, hash: string)
    | Administer(op: Administration.Op)

  ghost function Apply(t: Tables, life: Lifetimes, op: Op): Tables {
    match op
    case Login(user, now, family, draws) =>
      if user in t.users && t.users[user].enabled then StartFamily(t, life, user, now, family, draws) else t
    case RefreshWith(hash, now, family, draws) => Refresh(t, life, hash, now, family, draws).0
    case RevokeOne(id) => Revoke(t, LiveById(t.sessions, id))
    case RevokeOwn(id, user) => Revoke(t, LiveById(t.sessions, id) * LiveOfUser(t.sessions, user))
    case RevokeEverywhere(user) => Revoke(t, LiveOfUser(t.sessions, user))
    case SetPassword(user, session, hash) => ChangePassword(t, user, session, hash)
    case Administer(a) => Administration.Apply(t, a).0
  }

  // ----- the invariant -----

  ghost predicate RowOk(t: Tables, id: int) {
    id in t.sessions &&
    var s := t.sessions[id];
    && 0 < id < t.nextSession
    && s.family != "" && s.accessHash != "" && s.refreshHash != ""
    && s.userId > 0 && s.userId in t.users
    && (s.parent.Some? ==>
          var p := s.parent.value;
          && p in t.sessions && p < id
          && t.sessions[p].family == s.family
          && t.sessions[p].userId == s.userId
          && t.sessions[p].revoked)
  }

  ghost predicate HashesUnique(sessions: map<int, Session>) {
    forall a <- sessions, b <- sessions ::
      a != b ==> sessions[a].accessHash != sessions[b].accessHash && sessions[a].refreshHash != sessions[b].refreshHash
  }

  ghost predicate OneChild(sessions: map<int, Session>) {
    forall a <- sessions, b <- sessions ::
      a != b && sessions[a].parent.Some? ==> sessions[a].parent != sessions[b].parent
  }

  ghost predicate OneRoot(sessions: map<int, Session>) {
    forall a <- sessions, b <- sessions ::
      a != b && sessions[a].parent.None? && sessions[b].parent.None? ==> sessions[a].family != sessions[b].family
  }

  ghost predicate Inv(t: Tables) {
    && t.nextSession > 0
    && (forall id {:trigger RowOk(t, id)} :: id in t.sessions ==> RowOk(t, id))
    && HashesUnique(t.sessions)
    && OneChild(t.sessions)
    && OneRoot(t.sessions)
  }

  ghost predicate FamilyFresh(t: Tables, family: string) {
    family != "" && forall id <- t.sessions :: t.sessions[id].family != family
  }

  /** The random family id drawn for a login has not been used before. */
  ghost predicate FreshDraw(t: Tables, op: Op) {
    op.Login? ==> FamilyFresh(t, op.family)
  }

  lemma NextIsFree(t: Tables)
    requires Inv(t)
    ensures t.nextSession !in t.sessions
  {
    forall id <- t.sessions ensures id != t.nextSession { assert RowOk(t, id); }
  }

  lemma RevokeKeepsInv(t: Tables, ids: set<int>)
    requires Inv(t)
    ensures Inv(Revoke(t, ids))
  {
    forall id <- t.sessions ensures RowOk(Revoke(t, ids), id) { assert RowOk(t, id); }
  }

  /** An unrevoked session has no child yet: it is the tip of its family. */
  lemma UnrevokedHasNoChild(t: Tables, id: int, child: int)
    requires Inv(t) && id in t.sessions && !t.sessions[id].revoked && child in t.sessions
    ensures t.sessions[child].parent != Some(id)
  {
    assert RowOk(t, child);
  }

  lemma CreateKeepsInv(t: Tables, input: NewSession)
    requires Inv(t)
    requires input.family != ""
    requires input.parent.None? ==> FamilyFresh(t, input.family)
    requires input.parent.Some? ==>
               var p := input.parent.value;
               && p in t.sessions && t.sessions[p].revoked
               && t.sessions[p].family == input.family && t.sessions[p].userId == input.userId
               && forall id <- t.sessions :: t.sessions[id].parent != Some(p)
    ensures var r := Create(t, input); r.Created? ==> Inv(r.tables)
  {
    var r := Create(t, input);
    if r.Created? {
      NextIsFree(t);
      forall id <- r.tables.sessions ensures RowOk(r.tables, id) {
        if id in t.sessions { assert RowOk(t, id); }
        if input.parent.Some? { assert RowOk(t, input.parent.value); }
      }
    }
  }

  lemma FindsTheRow(t: Tables, id: int)
    requires Inv(t) && id in t.sessions
    ensures FindByRefresh(t.sessions, t.sessions[id].refreshHash) == Some(id)
    ensures FindByAccess(t.sessions, t.sessions[id].accessHash) == Some(id)
  {
    assert RowOk(t, id);
    var r := FindByRefresh(t.sessions, t.sessions[id].refreshHash);
    var a := FindByAccess(t.sessions, t.sessions[id].accessHash);
    assert r.Some? && a.Some?;
    assert r.value in t.sessions && a.value in t.sessions;
  }

  lemma RefreshKeepsInv(t: Tables, life: Lifetimes, hash: string, now: int, family: string, draws: Draws)
    requires Inv(t)
    ensures Inv(Refresh(t, life, hash, now, family, draws).0)
  {
    var found := FindByRefresh(t.sessions, hash);
    if found.Some? {
      var id := found.value;
      var s := t.sessions[id];
      assert RowOk(t, id);
      RevokeKeepsInv(t, LiveOfFamily(t.sessions, s.family));
      RevokeKeepsInv(t, LiveById(t.sessions, id));
      if !s.revoked && s.refreshExpires > now && t.users[s.userId].enabled {
        var t1 := Revoke(t, LiveById(t.sessions, id));
        IssueAddsOneRow(t1, life, s.userId, now, s.family, Some(id), draws);
        var r := Issue(t1, life, s.userId, now, s.family, Some(id), draws);
        if r.Issued? {
          forall c <- t1.sessions ensures t1.sessions[c].parent != Some(id) { UnrevokedHasNoChild(t, id, c); }
          CreateKeepsInv(t1, RowFor(life, s.userId, now, s.family, Some(id), r.draw));
        }
      }
    }
  }

  lemma StartFamilyKeepsInv(t: Tables, life: Lifetimes, user: int, now: int, family: string, draws: Draws)
    requires Inv(t) && FamilyFresh(t, family)
    ensures Inv(StartFamily(t, life, user, now, family, draws))
  {
    IssueAddsOneRow(t, life, user, now, family, None, draws);
    var r := Issue(t, life, user, now, family, None, draws);
    if r.Issued? { CreateKeepsInv(t, RowFor(life, user, now, family, None, r.draw)); }
  }

  lemma UsersGrowKeepsInv(t: Tables, t': Tables)
    requires Inv(t) && t'.sessions == t.sessions && t'.nextSession == t.nextSession && t.users.Keys <= t'.users.Keys
    ensures Inv(t')
  {
    forall id <- t'.sessions ensures RowOk(t', id) { assert RowOk(t, id); }
  }

  lemma ApplyKeepsInv(t: Tables, life: Lifetimes, op: Op)
    requires Inv(t) && FreshDraw(t, op)
    ensures Inv(Apply(t, life, op))
  {
    match op
    case Login(user, now, family, draws) => StartFamilyKeepsInv(t, life, user, now, family, draws);
    case RefreshWith(hash, now, family, draws) => RefreshKeepsInv(t, life, hash, now, family, draws);
    case RevokeOne(id) => RevokeKeepsInv(t, LiveById(t.sessions, id));
    case RevokeOwn(id, user) => RevokeKeepsInv(t, LiveById(t.sessions, id) * LiveOfUser(t.sessions, user));
    case RevokeEverywhere(user) => RevokeKeepsInv(t, LiveOfUser(t.sessions, user));
    case SetPassword(user, session, hash) =>
      UsersGrowKeepsInv(t, SetPasswordHash(t, user, hash));
      RevokeKeepsInv(SetPasswordHash(t, user, hash), LiveOfUserExcept(t.sessions, user, session));
    case Administer(a) =>
      Administration.StepOnSessions(t, a);
      var t' := Administration.Apply(t, a).0;
      var mid := t'.(sessions := t.sessions);
      UsersGrowKeepsInv(t, mid);
      if t'.sessions != t.sessions {
        var u :| u in t.users && t'.sessions == WithRevoked(t.sessions, LiveOfUser(t.sessions, u));
        RevokeKeepsInv(mid, LiveOfUser(t.sessions, u));
        assert t' == Revoke(mid, LiveOfUser(t.sessions, u));
      }
  }

  // ----- families are chains -----

  ghost function Members(t: Tables, family: string): set<int> {
    set id | id in t.sessions && t.sessions[id].family == family
  }

  /** `chain` lists `ids` from the root to the tip, each parented by the one before it. */
  ghost predicate IsChain(t: Tables, ids: set<int>, chain: seq<int>) {
    && (forall i :: 0 <= i < |chain| ==> chain[i] in t.sessions)
    && (forall id :: id in ids <==> id in chain)
    && (forall i, j :: 0 <= i < j < |chain| ==> chain[i] < chain[j])
    && (|chain| > 0 ==> t.sessions[chain[0]].parent == None)
    && (forall i, j :: 0 <= i && j == i + 1 < |chain| ==> t.sessions[chain[j]].parent == Some(chain[i]))
    && (forall i :: 0 <= i < |chain| - 1 ==> t.sessions[chain[i]].revoked)
  }

  lemma {:induction false} MaxOf(ids: set<int>) returns (m: int)
    requires exists id :: id in ids
    ensures m in ids && forall id <- ids :: id <= m
  {
    m :| m in ids;
    var rest := ids - {m};
    assert ids == rest + {m};
    if exists id :: id in rest {
      var n := MaxOf(rest);
      if n > m { m := n; }
    }
  }

  ghost predicate ParentIn(t: Tables, ids: set<int>, id: int) {
    id in t.sessions && (t.sessions[id].parent.Some? ==> t.sessions[id].parent.value in ids)
  }

  ghost predicate ParentClosed(t: Tables, ids: set<int>) {
    forall id {:trigger ParentIn(t, ids, id)} :: id in ids ==> ParentIn(t, ids, id)
  }

  lemma RestIsClosed(t: Tables, ids: set<int>, tip: int)
    requires Inv(t) && ParentClosed(t, ids) && forall id <- ids :: id <= tip
    ensures ParentClosed(t, ids - {tip})
  {
    forall id | id in ids - {tip} ensures ParentIn(t, ids - {tip}, id) {
      assert ParentIn(t, ids, id) && RowOk(t, id);
    }
  }

  /** Any part of a family that contains the parents of its members is one linear chain. */
  lemma {:induction false} ClosedPartIsChain(t: Tables, family: string, ids: set<int>) returns (chain: seq<int>)
    requires Inv(t) && ids <= Members(t, family)
    requires ParentClosed(t, ids)
    ensures IsChain(t, ids, chain)
    decreases ids
  {
    if forall id :: id !in ids { return []; }
    var tip := MaxOf(ids);
    var rest := ids - {tip};
    RestIsClosed(t, ids, tip);
    assert ParentIn(t, ids, tip) && RowOk(t, tip);
    var shorter := ClosedPartIsChain(t, family, rest);
    TipParent(t, family, rest, shorter, tip);
    TipExtendsChain(t, rest, shorter, tip);
    assert ids == rest + {tip};
    return shorter + [tip];
  }

  lemma TipExtendsChain(t: Tables, rest: set<int>, shorter: seq<int>, tip: int)
    requires IsChain(t, rest, shorter) && tip in t.sessions
    requires forall id <- rest :: id < tip
    requires if shorter == [] then t.sessions[tip].parent == None else
               var last := shorter[|shorter| - 1];
               last in t.sessions && t.sessions[tip].parent == Some(last) && t.sessions[last].revoked
    ensures IsChain(t, rest + {tip}, shorter + [tip])
  {
    var chain := shorter + [tip];
    forall id ensures id in rest + {tip} <==> id in chain {
      assert id in chain <==> id in shorter || id == tip;
    }
    forall i | 0 <= i < |shorter| ensures chain[i] < tip {
      assert shorter[i] in shorter;
    }
  }

  /** A new tip's parent is the last element of the chain so far, and that one is revoked. */
  lemma TipParent(t: Tables, family: string, rest: set<int>, shorter: seq<int>, tip: int)
    requires Inv(t) && tip in t.sessions && t.sessions[tip].family == family && tip !in rest
    requires rest <= Members(t, family) && IsChain(t, rest, shorter)
    requires t.sessions[tip].parent.Some? ==> t.sessions[tip].parent.value in rest
    ensures shorter == [] ==> t.sessions[tip].parent == None
    ensures shorter != [] ==>
      var last := shorter[|shorter| - 1];
      last in t.sessions && t.sessions[tip].parent == Some(last) && t.sessions[last].revoked
  {
    assert RowOk(t, tip);
    if shorter != [] {
      var root, last := shorter[0], |shorter| - 1;
      assert root in shorter;
      assert root in rest && t.sessions[shorter[0]].parent == None;
      var p := t.sessions[tip].parent.value;
      var k :| 0 <= k < |shorter| && shorter[k] == p;
      forall i | 0 <= i < last ensures shorter[i] != p {
        var next := shorter[i + 1];
        assert next in shorter;
      }
      assert k == last;
    }
  }

  /**
   Every token family is one linear parent chain with increasing ids, and only its tip may be
   unrevoked.
   */
  lemma FamilyIsChain(t: Tables, family: string) returns (chain: seq<int>)
    requires Inv(t)
    ensures IsChain(t, Members(t, family), chain)
    ensures forall id <- Members(t, family) :: !t.sessions[id].revoked ==> id == chain[|chain| - 1]
  {
    forall id | id in Members(t, family) ensures ParentIn(t, Members(t, family), id) {
      assert RowOk(t, id);
    }
    chain := ClosedPartIsChain(t, family, Members(t, family));
  }

  // ----- rows only gain the revoked mark -----

  ghost predicate Grows(a: Tables, b: Tables) {
    && a.nextSession <= b.nextSession
    && forall id <- a.sessions ::
      id in b.sessions && b.sessions[id] == a.sessions[id].(revoked := b.sessions[id].revoked)
      && (a.sessions[id].revoked ==> b.sessions[id].revoked)
  }

  lemma CreateGrows(t: Tables, input: NewSession)
    requires Inv(t)
    ensures var r := Create(t, input); r.Created? ==> Grows(t, r.tables)
  {
    NextIsFree(t);
  }

  lemma RefreshGrows(t: Tables, life: Lifetimes, hash: string, now: int, family: string, draws: Draws)
    requires Inv(t)
    ensures Grows(t, Refresh(t, life, hash, now, family, draws).0)
  {
    DeadBranches(t, life, hash, now, family, draws);
    var found := FindByRefresh(t.sessions, hash);
    if found.Some? {
      var id, s := found.value, t.sessions[found.value];
      var t1 := Revoke(t, {id});
      RevokeKeepsInv(t, {id});
      IssueAddsOneRow(t1, life, s.userId, now, s.family, Some(id), draws);
      var r := Issue(t1, life, s.userId, now, s.family, Some(id), draws);
      if r.Issued? { CreateGrows(t1, RowFor(life, s.userId, now, s.family, Some(id), r.draw)); }
    }
  }

  lemma AdministerGrows(t: Tables, op: Administration.Op)
    ensures Grows(t, Administration.Apply(t, op).0)
  {
    Administration.StepOnSessions(t, op);
  }

  lemma ApplyGrows(t: Tables, life: Lifetimes, op: Op)
    requires Inv(t)
    ensures Grows(t, Apply(t, life, op))
  {
    match op
    case Login(user, now, family, draws) => InsertGrows(t, life, user, now, family, draws);
    case RefreshWith(hash, now, family, draws) => RefreshGrows(t, life, hash, now, family, draws);
    case Administer(a) => AdministerGrows(t, a);
    case _ =>
  }

  lemma InsertGrows(t: Tables, life: Lifetimes, user: int, now: int, family: string, draws: Draws)
    requires Inv(t)
    ensures Grows(t, StartFamily(t, life, user, now, family, draws))
  {
    IssueAddsOneRow(t, life, user, now, family, None, draws);
    var r := Issue(t, life, user, now, family, None, draws);
    if r.Issued? { CreateGrows(t, RowFor(life, user, now, family, None, r.draw)); }
  }

  // ----- interleaved runs -----

  /** What a login has read of the user whose password it verified. */
  datatype Attempt = Attempt(user: int, hash: string)

  /** `pending` holds, per thread, the login that has looked up its user but not yet issued tokens. */
  datatype World = World(tables: Tables, pending: map<int, Attempt>)

  datatype Event =
    | LookUp(thread: int, user: int)
    | Rehash(thread: int, hash: string)
    | Insert(thread: int, now: int, family: string, draws: Draws)
    | Call(op: Op)

  ghost predicate Enabled(w: World, e: Event) {
    match e
    case LookUp(thread, user) => thread !in w.pending && user in w.tables.users && w.tables.users[user].enabled
    case Rehash(thread, hash) => thread in w.pending && hash != ""
    case Insert(thread, _, family, _) => thread in w.pending && FamilyFresh(w.tables, family)
    case Call(op) => FreshDraw(w.tables, op)
  }

  ghost function Step(w: World, life: Lifetimes, e: Event): World {
    match e
    case LookUp(thread, user) =>
      if user !in w.tables.users then w
      else w.(pending := w.pending[thread := Attempt(user, w.tables.users[user].passwordHash)])
    case Rehash(thread, hash) =>
      if thread !in w.pending then w
      else w.(tables := SetPasswordHash(w.tables, w.pending[thread].user, hash))
    case Insert(thread, now, family, draws) =>
      if thread !in w.pending then w
      else World(StartFamily(w.tables, life, w.pending[thread].user, now, family, draws), w.pending - {thread})
    case Call(op) => w.(tables := Apply(w.tables, life, op))
  }

  ghost predicate IsRun(life: Lifetimes, ws: seq<World>, es: seq<Event>) {
    && |ws| == |es| + 1
    && Inv(ws[0].tables)
    && forall i :: 0 <= i < |es| ==> Enabled(ws[i], es[i]) && ws[i + 1] == Step(ws[i], life, es[i])
  }

  lemma StepKeeps(w: World, life: Lifetimes, e: Event)
    requires Inv(w.tables) && Enabled(w, e)
    ensures Inv(Step(w, life, e).tables) && Grows(w.tables, Step(w, life, e).tables)
  {
    match e
    case LookUp(_, _) =>
    case Rehash(thread, hash) => UsersGrowKeepsInv(w.tables, Step(w, life, e).tables);
    case Insert(thread, now, family, draws) =>
      StartFamilyKeepsInv(w.tables, life, w.pending[thread].user, now, family, draws);
      InsertGrows(w.tables, life, w.pending[thread].user, now, family, draws);
    case Call(op) =>
      ApplyKeepsInv(w.tables, life, op);
      ApplyGrows(w.tables, life, op);
  }

  /** The invariant holds in every reachable state of every interleaving. */
  lemma {:induction false} RunKeepsInv(life: Lifetimes, ws: seq<World>, es: seq<Event>, i: nat)
    requires IsRun(life, ws, es) && i < |ws|
    ensures Inv(ws[i].tables)
  {
    if i > 0 {
      RunKeepsInv(life, ws, es, i - 1);
      StepKeeps(ws[i - 1], life, es[i - 1]);
    }
  }

  lemma {:induction false} RunGrows(life: Lifetimes, ws: seq<World>, es: seq<Event>, i: nat, j: nat)
    requires IsRun(life, ws, es) && i <= j < |ws|
    ensures Grows(ws[i].tables, ws[j].tables)
    decreases j
  {
    if i < j {
      RunGrows(life, ws, es, i, j - 1);
      RunKeepsInv(life, ws, es, j - 1);
      StepKeeps(ws[j - 1], life, es[j - 1]);
    }
  }

  // ----- each refresh token is exchanged at most once -----

  ghost predicate IsRefresh(e: Event, hash: string) {
    e.Call? && e.op.RefreshWith? && e.op.hash == hash
  }

  ghost function RefreshResult(w: World, life: Lifetimes, e: Event): RefreshOutcome
    requires e.Call? && e.op.RefreshWith?
  {
    Refresh(w.tables, life, e.op.hash, e.op.now, e.op.family, e.op.draws).1
  }

  /** A refresh token that has been exchanged is reported as reused at every later attempt. */
  lemma ExchangedOnce(life: Lifetimes, ws: seq<World>, es: seq<Event>, hash: string, i: nat, j: nat)
    requires IsRun(life, ws, es) && i < j < |es|
    requires IsRefresh(es[i], hash) && IsRefresh(es[j], hash)
    requires RefreshResult(ws[i], life, es[i]).Refreshed?
    ensures RefreshResult(ws[j], life, es[j]) == ReusedAtLookup
  {
    RunKeepsInv(life, ws, es, i);
    RunKeepsInv(life, ws, es, j);
    var t, e := ws[i].tables, es[i].op;
    var id := FindByRefresh(t.sessions, hash).value;
    RefreshFrame(t, life, hash, e.now, e.family, e.draws);
    RunGrows(life, ws, es, i, i + 1);
    RunGrows(life, ws, es, i + 1, j);
    assert ws[j].tables.sessions[id].revoked;
    FindsTheRow(ws[j].tables, id);
  }

  // ----- reuse kills the family for good -----

  ghost predicate FamilyDead(t: Tables, family: string) {
    && family != ""
    && (exists id :: id in Members(t, family))
    && forall id <- Members(t, family) :: t.sessions[id].revoked
  }

  /** Refreshing a revoked token leaves its whole family revoked. */
  lemma ReuseLeavesFamilyDead(t: Tables, life: Lifetimes, id: int, now: int, family: string, draws: Draws)
    requires Inv(t) && id in t.sessions && t.sessions[id].revoked
    ensures var r := Refresh(t, life, t.sessions[id].refreshHash, now, family, draws);
            r.1 == ReusedAtLookup && FamilyDead(r.0, t.sessions[id].family)
  {
    FindsTheRow(t, id);
    assert RowOk(t, id);
    var t' := Refresh(t, life, t.sessions[id].refreshHash, now, family, draws).0;
    assert id in Members(t', t.sessions[id].family);
  }

  lemma IssueElsewhereKeepsDead(t: Tables, input: NewSession, dead: string)
    requires Inv(t) && FamilyDead(t, dead) && input.family != "" && input.family != dead
    ensures var r := Create(t, input); r.Created? ==> FamilyDead(r.tables, dead)
  {
    var r := Create(t, input);
    if r.Created? {
      NextIsFree(t);
      assert Members(r.tables, dead) == Members(t, dead);
    }
  }

  lemma RevokeKeepsDead(t: Tables, ids: set<int>, dead: string)
    requires FamilyDead(t, dead)
    ensures FamilyDead(Revoke(t, ids), dead)
  {
    assert Members(Revoke(t, ids), dead) == Members(t, dead);
  }

  lemma RefreshKeepsDead(t: Tables, life: Lifetimes, hash: string, now: int, family: string, draws: Draws, dead: string)
    requires Inv(t) && FamilyDead(t, dead)
    ensures FamilyDead(Refresh(t, life, hash, now, family, draws).0, dead)
  {
    DeadBranches(t, life, hash, now, family, draws);
    var found := FindByRefresh(t.sessions, hash);
    if found.Some? {
      var id, s := found.value, t.sessions[found.value];
      RevokeKeepsDead(t, LiveOfFamily(t.sessions, s.family), dead);
      RevokeKeepsDead(t, {id}, dead);
      if !s.revoked {
        assert id !in Members(t, dead);
        RotationKeepsDead(t, life, id, now, draws, dead);
      }
    }
  }

  lemma RotationKeepsDead(t: Tables, life: Lifetimes, id: int, now: int, draws: Draws, dead: string)
    requires Inv(t) && FamilyDead(t, dead) && id in t.sessions && t.sessions[id].family != dead
    ensures var r := Issue(Revoke(t, {id}), life, t.sessions[id].userId, now, t.sessions[id].family, Some(id), draws);
            r.Issued? ==> FamilyDead(r.tables, dead)
  {
    var t1, s := Revoke(t, {id}), t.sessions[id];
    assert RowOk(t, id);
    RevokeKeepsInv(t, {id});
    RevokeKeepsDead(t, {id}, dead);
    IssueAddsOneRow(t1, life, s.userId, now, s.family, Some(id), draws);
    var r := Issue(t1, life, s.userId, now, s.family, Some(id), draws);
    if r.Issued? { IssueElsewhereKeepsDead(t1, RowFor(life, s.userId, now, s.family, Some(id), r.draw), dead); }
  }

  lemma StartFamilyKeepsDead(t: Tables, life: Lifetimes, user: int, now: int, family: string, draws: Draws,
                             dead: string)
    requires Inv(t) && FamilyDead(t, dead) && FamilyFresh(t, family)
    ensures FamilyDead(StartFamily(t, life, user, now, family, draws), dead)
  {
    var member :| member in Members(t, dead);
    assert family != dead;
    IssueAddsOneRow(t, life, user, now, family, None, draws);
    var r := Issue(t, life, user, now, family, None, draws);
    if r.Issued? { IssueElsewhereKeepsDead(t, RowFor(life, user, now, family, None, r.draw), dead); }
  }

  lemma StepKeepsDead(w: World, life: Lifetimes, e: Event, dead: string)
    requires Inv(w.tables) && Enabled(w, e) && FamilyDead(w.tables, dead)
    ensures FamilyDead(Step(w, life, e).tables, dead)
  {
    var t := w.tables;
    match e
    case LookUp(_, _) =>
    case Rehash(_, _) => assert Members(Step(w, life, e).tables, dead) == Members(t, dead);
    case Insert(thread, now, family, draws) =>
      StartFamilyKeepsDead(t, life, w.pending[thread].user, now, family, draws, dead);
    case Call(op) =>
      match op
      case Login(user, now, family, draws) => StartFamilyKeepsDead(t, life, user, now, family, draws, dead);
      case RefreshWith(hash, now, family, draws) => RefreshKeepsDead(t, life, hash, now, family, draws, dead);
      case Administer(a) =>
        Administration.StepOnSessions(t, a);
        var t' := Administration.Apply(t, a).0;
        assert Members(t', dead) == Members(t, dead);
      case SetPassword(user, session, hash) =>
        RevokeKeepsDead(SetPasswordHash(t, user, hash), LiveOfUserExcept(t.sessions, user, session), dead) by {
          assert Members(SetPasswordHash(t, user, hash), dead) == Members(t, dead);
        }
      case RevokeOne(id) => RevokeKeepsDead(t, LiveById(t.sessions, id), dead);
      case RevokeOwn(id, user) => RevokeKeepsDead(t, LiveById(t.sessions, id) * LiveOfUser(t.sessions, user), dead);
      case RevokeEverywhere(user) => RevokeKeepsDead(t, LiveOfUser(t.sessions, user), dead);
  }

  lemma {:induction false} DeadForever(life: Lifetimes, ws: seq<World>, es: seq<Event>, dead: string, i: nat, j: nat)
    requires IsRun(life, ws, es) && i <= j < |ws| && FamilyDead(ws[i].tables, dead)
    ensures FamilyDead(ws[j].tables, dead)
    decreases j
  {
    if i < j {
      DeadForever(life, ws, es, dead, i, j - 1);
      RunKeepsInv(life, ws, es, j - 1);
      StepKeepsDead(ws[j - 1], life, es[j - 1], dead);
    }
  }

  /**
   Once refresh has reported reuse of some session's token, in every later state the whole family
   is revoked, none of its access tokens authenticates, and each of its refresh tokens is again
   reported as reused without changing anything.
   */
  lemma ReuseKillsFamily(life: Lifetimes, ws: seq<World>, es: seq<Event>, id: int, i: nat, j: nat)
    requires IsRun(life, ws, es) && i < j < |ws|
    requires id in ws[i].tables.sessions && IsRefresh(es[i], ws[i].tables.sessions[id].refreshHash)
    requires RefreshResult(ws[i], life, es[i]) in {ReusedAtLookup, ReusedAtRevoke}
    ensures var t, family := ws[j].tables, ws[i].tables.sessions[id].family;
            forall m <- Members(t, family) ::
              && t.sessions[m].revoked
              && (forall now :: Authenticate(t, t.sessions[m].accessHash, now) == InvalidToken)
              && (forall now, drawn, draws ::
                    Refresh(t, life, t.sessions[m].refreshHash, now, drawn, draws) == (t, ReusedAtLookup))
  {
    var t, family := ws[j].tables, ws[i].tables.sessions[id].family;
    var e := es[i].op;
    RunKeepsInv(life, ws, es, i);
    RunKeepsInv(life, ws, es, j);
    FindsTheRow(ws[i].tables, id);
    assert RowOk(ws[i].tables, id);
    assert ws[i].tables.sessions[id].revoked;
    ReuseLeavesFamilyDead(ws[i].tables, life, id, e.now, e.family, e.draws);
    DeadForever(life, ws, es, family, i + 1, j);
    forall m <- Members(t, family)
      ensures t.sessions[m].revoked
      ensures forall now :: Authenticate(t, t.sessions[m].accessHash, now) == InvalidToken
      ensures forall now, drawn, draws ::
                Refresh(t, life, t.sessions[m].refreshHash, now, drawn, draws) == (t, ReusedAtLookup)
    {
      forall now, drawn, draws
        ensures Authenticate(t, t.sessions[m].accessHash, now) == InvalidToken
        ensures Refresh(t, life, t.sessions[m].refreshHash, now, drawn, draws) == (t, ReusedAtLookup)
      {
        DeadFamilyIsInert(t, life, family, m, now, drawn, draws);
      }
    }
  }

  lemma DeadFamilyIsInert(t: Tables, life: Lifetimes, family: string, m: int, now: int, drawn: string, draws: Draws)
    requires Inv(t) && FamilyDead(t, family) && m in Members(t, family)
    ensures Authenticate(t, t.sessions[m].accessHash, now) == InvalidToken
    ensures Refresh(t, life, t.sessions[m].refreshHash, now, drawn, draws) == (t, ReusedAtLookup)
  {
    FindsTheRow(t, m);
    assert RowOk(t, m);
    forall x <- t.sessions | t.sessions[x].family == family ensures t.sessions[x].revoked {
      assert x in Members(t, family);
    }
    assert LiveOfFamily(t.sessions, family) == {};
    assert WithRevoked(t.sessions, {}) == t.sessions;
  }

  // ----- refresh: dead branches and exact frame -----

  /** Refresh without the empty-family fallback and without the second reuse branch. */
  ghost function RefreshReachable(t: Tables, life: Lifetimes, hash: string, now: int, draws: Draws)
    : (Tables, RefreshOutcome)
  {
    match FindByRefresh(t.sessions, hash)
    case None => (t, UnknownToken)
    case Some(id) =>
      var s := t.sessions[id];
      var flipped := Revoke(t, {id});
      if s.revoked then (Revoke(t, LiveOfFamily(t.sessions, s.family)), ReusedAtLookup)
      else if s.refreshExpires <= now then (flipped, Expired)
      else if s.userId !in t.users then (flipped, OwnerMissing)
      else if !t.users[s.userId].enabled then (flipped, OwnerDisabled)
      else match Issue(flipped, life, s.userId, now, s.family, Some(id), draws)
        case Issued(t2, newId, draw) => (t2, Refreshed(newId, draw))
        case AllDuplicate => (t, CreationFailed)
        case NotAccepted => (t, RequestRejected)
  }

  /**
   Family ids are never empty and the presented session is still unrevoked when it is revoked, so
   the whole-user fallback and the second reuse branch never run; nor is an owner ever missing.
   */
  lemma DeadBranches(t: Tables, life: Lifetimes, hash: string, now: int, family: string, draws: Draws)
    requires Inv(t)
    ensures Refresh(t, life, hash, now, family, draws) == RefreshReachable(t, life, hash, now, draws)
    ensures Refresh(t, life, hash, now, family, draws).1 !in {ReusedAtRevoke, OwnerMissing}
  {
    var found := FindByRefresh(t.sessions, hash);
    if found.Some? { assert RowOk(t, found.value); }
  }

  /** The rows of `b` are those of `a` with exactly `flipped` newly revoked. */
  ghost predicate OnlyFlips(a: map<int, Session>, b: map<int, Session>, flipped: set<int>) {
    && a.Keys == b.Keys && flipped <= Unrevoked(a)
    && forall id <- a :: b[id] == if id in flipped then a[id].(revoked := true) else a[id]
  }

  /**
   Refresh is all-or-nothing. Success flips only the presented session and adds one unrevoked
   child of it with the same user and family; expiry and a disabled owner flip only that session;
   reuse flips exactly the unrevoked rest of its family; every other outcome changes nothing.
   */
  lemma RefreshFrame(t: Tables, life: Lifetimes, hash: string, now: int, family: string, draws: Draws)
    requires Inv(t)
    ensures var (t', outcome) := Refresh(t, life, hash, now, family, draws);
            var found := FindByRefresh(t.sessions, hash);
            && (outcome == UnknownToken <==> found == None)
            && (outcome in {UnknownToken, CreationFailed, RequestRejected} ==> t' == t)
            && (found.Some? ==>
                  var id, s := found.value, t.sessions[found.value];
                  && (outcome == ReusedAtLookup <==> s.revoked)
                  && (outcome == ReusedAtLookup ==>
                        t' == t.(sessions := t'.sessions) &&
                        OnlyFlips(t.sessions, t'.sessions, Members(t, s.family) * Unrevoked(t.sessions)))
                  && (outcome in {Expired, OwnerDisabled} ==>
                        t' == t.(sessions := t'.sessions) && OnlyFlips(t.sessions, t'.sessions, {id}))
                  && (outcome == Expired <==> !s.revoked && s.refreshExpires <= now)
                  && s.userId in t.users
                  && (outcome == OwnerDisabled <==> !s.revoked && s.refreshExpires > now && !t.users[s.userId].enabled)
                  && (outcome.Refreshed? ==>
                        && outcome.id == t.nextSession && outcome.draw in draws
                        && !s.revoked && s.refreshExpires > now && t.users[s.userId].enabled
                        && !HashTaken(t.sessions, outcome.draw.accessHash, outcome.draw.refreshHash)
                        && t' == t.(sessions := t'.sessions, nextSession := t.nextSession + 1)
                        && OnlyFlips(t.sessions, t'.sessions - {outcome.id}, {id})
                        && outcome.id in t'.sessions
                        && t'.sessions[outcome.id] ==
                             Session(s.userId, outcome.draw.accessHash, outcome.draw.refreshHash, now + life.access,
                                     now + life.refresh, false, s.family, Some(id))))
  {
    var (t', outcome) := Refresh(t, life, hash, now, family, draws);
    DeadBranches(t, life, hash, now, family, draws);
    var found := FindByRefresh(t.sessions, hash);
    if found.Some? {
      var id, s := found.value, t.sessions[found.value];
      assert RowOk(t, id);
      NextIsFree(t);
      var t1 := Revoke(t, {id});
      IssueAddsOneRow(t1, life, s.userId, now, s.family, Some(id), draws);
      if outcome.Refreshed? {
        var draw := outcome.draw;
        forall x <- t.sessions
          ensures t.sessions[x].accessHash != draw.accessHash && t.sessions[x].refreshHash != draw.refreshHash
        {
          assert x in t1.sessions;
        }
      }
    }
  }

  // ----- refresh and login: when they succeed -----

  lemma HeldAfterRevoke(t: Tables, ids: set<int>, draw: Draw)
    ensures Held(Revoke(t, ids), draw) <==> Held(t, draw)
  {
    if id :| id in t.sessions && Holds(t.sessions[id], draw) {
      assert id in Revoke(t, ids).sessions;
    }
  }

  lemma FitsAfterRevoke(t: Tables, ids: set<int>, draws: seq<Draw>)
    ensures forall i: nat :: i < |draws| ==> (FitsAt(Revoke(t, ids), draws, i) <==> FitsAt(t, draws, i))
    ensures forall j :: 0 <= j < |draws| ==> (Held(Revoke(t, ids), draws[j]) <==> Held(t, draws[j]))
  {
    forall j | 0 <= j < |draws| ensures Held(Revoke(t, ids), draws[j]) <==> Held(t, draws[j]) {
      HeldAfterRevoke(t, ids, draws[j]);
    }
    hide Held, Blank, Revoke;
  }

  /** A session that can still be exchanged: live, unexpired, of an enabled user. */
  predicate Exchangeable(t: Tables, id: int, now: int) {
    && id in t.sessions && !t.sessions[id].revoked && t.sessions[id].refreshExpires > now
    && t.sessions[id].userId in t.users && t.users[t.sessions[id].userId].enabled
  }

  /**
   What refresh answers to the token of a session, told from the rows and the draws. It succeeds
   exactly if the session can be exchanged and a draw can be stored, for the first such draw.
   */
  lemma RefreshSucceedsIff(t: Tables, life: Lifetimes, id: int, now: int, family: string, draws: Draws)
    requires Inv(t) && id in t.sessions
    ensures var outcome := Refresh(t, life, t.sessions[id].refreshHash, now, family, draws).1;
            && (outcome.Refreshed? <==>
                  Exchangeable(t, id, now) && ExpiriesInOrder(life, now)
                  && exists i: nat :: i < |draws| && FitsAt(t, draws, i))
            && (forall i: nat :: i < |draws| && FitsAt(t, draws, i) && outcome.Refreshed? ==>
                  outcome == Refreshed(t.nextSession, draws[i]))
            && (outcome == CreationFailed <==>
                  Exchangeable(t, id, now) && ExpiriesInOrder(life, now)
                  && forall j :: 0 <= j < |draws| ==> Held(t, draws[j]) && !Blank(draws[j]))
            && (Exchangeable(t, id, now) ==> outcome.Refreshed? || outcome in {CreationFailed, RequestRejected})
  {
    FindsTheRow(t, id);
    DeadBranches(t, life, t.sessions[id].refreshHash, now, family, draws);
    assert RowOk(t, id);
    var s, t1 := t.sessions[id], Revoke(t, {id});
    FitsAfterRevoke(t, {id}, draws);
    IssuedIff(t1, life, s.userId, now, s.family, Some(id), draws);
    IssueAddsOneRow(t1, life, s.userId, now, s.family, Some(id), draws);
    hide Inv, FitsAt, Held, Blank, ExpiriesInOrder, Issue, FindByRefresh;
  }

  /** In plain words: with a first draw of new, non-empty hashes a live session is always exchanged. */
  lemma NewDrawRefreshes(t: Tables, life: Lifetimes, id: int, now: int, family: string, draws: Draws)
    requires Inv(t) && id in t.sessions && !t.sessions[id].revoked && t.sessions[id].refreshExpires > now
    requires t.sessions[id].userId in t.users && t.users[t.sessions[id].userId].enabled
    requires 0 < now + life.access < now + life.refresh
    requires draws[0].accessHash != "" && draws[0].refreshHash != ""
    requires forall x <- t.sessions ::
               t.sessions[x].accessHash != draws[0].accessHash && t.sessions[x].refreshHash != draws[0].refreshHash
    ensures Refresh(t, life, t.sessions[id].refreshHash, now, family, draws).1 == Refreshed(t.nextSession, draws[0])
  {
    RefreshSucceedsIff(t, life, id, now, family, draws);
    assert FitsAt(t, draws, 0);
  }

  /** And a login's insert gives any user a live session with the hashes of that draw. */
  lemma NewDrawLogsIn(t: Tables, life: Lifetimes, user: int, now: int, family: string, draws: Draws)
    requires user > 0 && user in t.users && family != "" && 0 < now + life.access < now + life.refresh
    requires draws[0].accessHash != "" && draws[0].refreshHash != ""
    requires forall x <- t.sessions ::
               t.sessions[x].accessHash != draws[0].accessHash && t.sessions[x].refreshHash != draws[0].refreshHash
    ensures StartFamily(t, life, user, now, family, draws) ==
              t.(sessions := t.sessions[t.nextSession :=
                               Session(user, draws[0].accessHash, draws[0].refreshHash, now + life.access,
                                       now + life.refresh, false, family, None)],
                 nextSession := t.nextSession + 1)
  {
  }

  /** Expiries out of order, an unknown user or an empty hash in the first draw: nothing is stored. */
  lemma LoginRejected(t: Tables, life: Lifetimes, user: int, now: int, family: string, draws: Draws)
    requires !(0 < now + life.access < now + life.refresh) || user <= 0 || user !in t.users
             || draws[0].accessHash == "" || draws[0].refreshHash == ""
    ensures StartFamily(t, life, user, now, family, draws) == t
  {
    IssuedIff(t, life, user, now, family, None, draws);
    hide Held, Issue;
  }

  /** The same draws and lifetimes make a refresh fail, and a failed refresh changes nothing. */
  lemma RefreshRejected(t: Tables, life: Lifetimes, id: int, now: int, family: string, draws: Draws)
    requires Inv(t) && Exchangeable(t, id, now)
    requires !(0 < now + life.access < now + life.refresh)
             || draws[0].accessHash == "" || draws[0].refreshHash == ""
    ensures Refresh(t, life, t.sessions[id].refreshHash, now, family, draws) == (t, RequestRejected)
  {
    RefreshSucceedsIff(t, life, id, now, family, draws);
    RefreshFrame(t, life, t.sessions[id].refreshHash, now, family, draws);
    assert Blank(draws[0]) || !ExpiriesInOrder(life, now);
    hide Held, Refresh, Inv;
  }

  /** Three draws that all collide leave the tables as they were. */
  lemma ThreeDuplicatesChangeNothing(t: Tables, life: Lifetimes, id: int, now: int, family: string, draws: Draws)
    requires Inv(t) && Exchangeable(t, id, now) && ExpiriesInOrder(life, now)
    requires forall d <- draws :: Held(t, d) && !Blank(d)
    ensures Refresh(t, life, t.sessions[id].refreshHash, now, family, draws) == (t, CreationFailed)
  {
    RefreshSucceedsIff(t, life, id, now, family, draws);
    RefreshFrame(t, life, t.sessions[id].refreshHash, now, family, draws);
    assert forall j :: 0 <= j < |draws| ==> draws[j] in draws;
    hide Held, Blank, Refresh, Inv;
  }

  // ----- who an access token authenticates -----

  /** The live session an access token belongs to; hashes are unique, so there is at most one. */
  predicate Presents(t: Tables, hash: string, id: int) {
    id in t.sessions && t.sessions[id].accessHash == hash && !t.sessions[id].revoked
  }

  /**
   An access token authenticates exactly the user of its live session, while that has not expired
   and the user is enabled; otherwise the answer says what is wrong.
   */
  lemma AuthenticatedIff(t: Tables, hash: string, now: int)
    requires Inv(t)
    ensures var outcome := Authenticate(t, hash, now);
            && (forall user, id :: outcome == Authenticated(user, id) <==>
                  Presents(t, hash, id) && t.sessions[id].accessExpires > now
                  && t.sessions[id].userId == user && user in t.users && t.users[user].enabled)
            && (outcome == TokenExpired <==>
                  exists id :: Presents(t, hash, id) && t.sessions[id].accessExpires <= now)
            && (outcome == AccountDisabled <==>
                  exists id :: Presents(t, hash, id) && t.sessions[id].accessExpires > now
                               && t.sessions[id].userId in t.users && !t.users[t.sessions[id].userId].enabled)
            && (outcome == InvalidToken <==> forall id :: !Presents(t, hash, id))
  {
    forall id | Presents(t, hash, id) ensures FindByAccess(t.sessions, hash) == Some(id) && RowOk(t, id) {
      FindsTheRow(t, id);
    }
    var found := FindByAccess(t.sessions, hash);
    if found.Some? {
      var id := found.value;
      assert RowOk(t, id);
      assert !t.sessions[id].revoked ==> Presents(t, hash, id);
    }
    hide Inv, HashesUnique;
  }

  // ----- operations that run one at a time -----

  ghost predicate DisabledClean(t: Tables) {
    forall id <- t.sessions :: !t.sessions[id].revoked ==>
      t.sessions[id].userId in t.users && t.users[t.sessions[id].userId].enabled
  }

  /** With a login's halves back to back, no operation leaves a disabled user an unrevoked session. */
  lemma SerialKeepsDisabledClean(t: Tables, life: Lifetimes, op: Op)
    requires Inv(t) && FreshDraw(t, op) && DisabledClean(t)
    ensures DisabledClean(Apply(t, life, op))
  {
    match op
    case Login(user, now, family, draws) => IssueAddsOneRow(t, life, user, now, family, None, draws);
    case RefreshWith(hash, now, family, draws) => RefreshKeepsUsers(t, life, hash, now, family, draws);
    case Administer(a) => AdministerKeepsDisabledClean(t, a);
    case _ =>
  }

  lemma RefreshKeepsUsers(t: Tables, life: Lifetimes, hash: string, now: int, family: string, draws: Draws)
    requires Inv(t) && DisabledClean(t)
    ensures DisabledClean(Refresh(t, life, hash, now, family, draws).0)
  {
    RefreshFrame(t, life, hash, now, family, draws);
    DeadBranches(t, life, hash, now, family, draws);
    var (t', outcome) := Refresh(t, life, hash, now, family, draws);
    if outcome.Refreshed? {
      forall id <- t'.sessions | id != outcome.id ensures id in t.sessions {
        assert id in t'.sessions - {outcome.id};
      }
    }
  }

  lemma AdministerKeepsDisabledClean(t: Tables, op: Administration.Op)
    requires Inv(t) && DisabledClean(t)
    ensures DisabledClean(Administration.Apply(t, op).0)
  {
    forall id <- t.sessions ensures RowOk(t, id) {}
  }

  ghost predicate IsSerialRun(life: Lifetimes, ts: seq<Tables>, ops: seq<Op>) {
    && |ts| == |ops| + 1
    && forall i :: 0 <= i < |ops| ==> FreshDraw(ts[i], ops[i]) && ts[i + 1] == Apply(ts[i], life, ops[i])
  }

  /** All three invariants together, over any serialised run of services and command line. */
  lemma {:induction false} SerialRunKeepsAll(life: Lifetimes, ts: seq<Tables>, ops: seq<Op>, i: nat)
    requires IsSerialRun(life, ts, ops) && i < |ts|
    requires Inv(ts[0]) && DisabledClean(ts[0]) && Administration.Inv(ts[0])
    ensures Inv(ts[i]) && DisabledClean(ts[i]) && Administration.Inv(ts[i])
  {
    if i > 0 {
      SerialRunKeepsAll(life, ts, ops, i - 1);
      ApplyKeepsInv(ts[i - 1], life, ops[i - 1]);
      SerialKeepsDisabledClean(ts[i - 1], life, ops[i - 1]);
      KeepsAdministration(ts[i - 1], life, ops[i - 1]);
    }
  }

  lemma KeepsAdministration(t: Tables, life: Lifetimes, op: Op)
    requires Inv(t) && Administration.Inv(t)
    ensures Administration.Inv(Apply(t, life, op))
  {
    match op
    case Administer(a) => Administration.StepKeepsInv(t, a);
    case RefreshWith(hash, now, family, draws) =>
      RefreshFrame(t, life, hash, now, family, draws);
      DeadBranches(t, life, hash, now, family, draws);
      SameUsersKeepAdministration(t, Apply(t, life, op));
    case Login(user, now, family, draws) =>
      IssueAddsOneRow(t, life, user, now, family, None, draws);
      SameUsersKeepAdministration(t, Apply(t, life, op));
    case _ => SameUsersKeepAdministration(t, Apply(t, life, op));
  }

  /** Administration does not look at sessions or passwords. */
  lemma SameUsersKeepAdministration(t: Tables, t': Tables)
    requires Administration.Inv(t)
    requires t'.grants == t.grants && t'.nextUser == t.nextUser && t'.users.Keys == t.users.Keys
    requires forall u <- t.users :: t'.users[u].enabled == t.users[u].enabled && t'.users[u].role == t.users[u].role
    ensures Administration.Inv(t')
  {
    var u :| u in t.users && t.users[u].enabled && (u, SUPER_ADMIN) in t.grants;
    assert t'.users[u].enabled && (u, SUPER_ADMIN) in t'.grants;
  }

  /** A password change leaves the user at most the current session. */
  lemma PasswordChangeLeavesCurrent(t: Tables, user: int, session: int, hash: string, id: int)
    requires user > 0 && user in t.users && session > 0 && hash != ""
    ensures var t' := ChangePassword(t, user, session, hash);
            id in t'.sessions && t'.sessions[id].userId == user && !t'.sessions[id].revoked ==> id == session
  {
  }

  /**
   A login's insert keeps the disabled-user rule exactly when the user looked up earlier is still
   enabled at that moment, or no draw can be stored.
   */
  lemma InsertKeepsDisabledCleanIff(w: World, life: Lifetimes, thread: int, now: int, family: string, draws: Draws)
    requires Inv(w.tables) && DisabledClean(w.tables) && thread in w.pending && FamilyFresh(w.tables, family)
    ensures var user := w.pending[thread].user;
            DisabledClean(Step(w, life, Insert(thread, now, family, draws)).tables) <==>
              (SomeDrawFits(w.tables, life, user, now, draws) ==> w.tables.users[user].enabled)
  {
    var t, user := w.tables, w.pending[thread].user;
    IssuedIff(t, life, user, now, family, None, draws);
    hide SomeDrawFits;
    IssueAddsOneRow(t, life, user, now, family, None, draws);
    var r := Issue(t, life, user, now, family, None, draws);
    if r.Issued? {
      assert !r.tables.sessions[r.id].revoked && r.tables.sessions[r.id].userId == user;
      NextIsFree(t);
    }
  }

  /** The user has no live session besides the one given, as a password change leaves it. */
  predicate OnlySession(t: Tables, user: int, session: int) {
    forall id <- t.sessions :: t.sessions[id].userId == user && !t.sessions[id].revoked ==> id == session
  }

  /** The user has a live session that was not there before. */
  ghost predicate GainsSession(t: Tables, t': Tables, user: int) {
    exists id :: id in t'.sessions && id !in t.sessions && t'.sessions[id].userId == user && !t'.sessions[id].revoked
  }

  /**
   Whether a login's attempt verified a password other than the one in force; `password` is what a
   stored hash stands for.
   */
  predicate OnOldPassword(w: World, thread: int, password: string -> string)
    requires thread in w.pending
  {
    && w.pending[thread].user in w.tables.users
    && password(w.tables.users[w.pending[thread].user].passwordHash) != password(w.pending[thread].hash)
  }

  /**
   A login's insert gives its user a live session on a password no longer in force exactly when the
   password has changed since the lookup and one of its draws can be stored: nothing else stands in
   its way. What a password change achieved is then undone, whatever session it had kept.
   */
  lemma InsertKeepsPasswordChangeIff(w: World, life: Lifetimes, thread: int, now: int, family: string, draws: Draws,
                                     session: int, password: string -> string)
    requires Inv(w.tables) && thread in w.pending && FamilyFresh(w.tables, family)
    ensures var user, t' := w.pending[thread].user, Step(w, life, Insert(thread, now, family, draws)).tables;
            var fits := SomeDrawFits(w.tables, life, user, now, draws);
            && (GainsSession(w.tables, t', user) && user in t'.users
                && password(t'.users[user].passwordHash) != password(w.pending[thread].hash)
                <==> fits && OnOldPassword(w, thread, password))
            && (session in w.tables.sessions && OnlySession(w.tables, user, session) ==>
                  (OnlySession(t', user, session) <==> !fits))
  {
    var t, user := w.tables, w.pending[thread].user;
    IssuedIff(t, life, user, now, family, None, draws);
    hide SomeDrawFits;
    IssueAddsOneRow(t, life, user, now, family, None, draws);
    var r := Issue(t, life, user, now, family, None, draws);
    if r.Issued? {
      assert !r.tables.sessions[r.id].revoked && r.tables.sessions[r.id].userId == user;
      NextIsFree(t);
    }
  }

  // ----- a password change and the logins that overlap it -----

  /** A step by which nobody sets the user's password anew, and a rehash is of the password it verified. */
  predicate Quiet(w: World, e: Event, user: int, password: string -> string) {
    match e
    case Call(op) => !(op.SetPassword? && op.user == user)
    case Rehash(thread, hash) => thread in w.pending && password(hash) == password(w.pending[thread].hash)
    case _ => true
  }

  ghost predicate IsQuietRun(life: Lifetimes, ws: seq<World>, es: seq<Event>, user: int, password: string -> string) {
    IsRun(life, ws, es) && forall i :: 0 <= i < |es| ==> Quiet(ws[i], es[i], user, password)
  }

  /** Every login of the user that is under way verified the password in force. */
  predicate AttemptsCurrent(w: World, user: int, password: string -> string) {
    forall thread <- w.pending :: w.pending[thread].user == user ==> !OnOldPassword(w, thread, password)
  }

  predicate HasPassword(t: Tables, user: int, password: string -> string, current: string) {
    user in t.users && user < t.nextUser && password(t.users[user].passwordHash) == current
  }

  lemma CallKeepsPassword(t: Tables, life: Lifetimes, op: Op, user: int, password: string -> string, current: string)
    requires Inv(t) && HasPassword(t, user, password, current) && !(op.SetPassword? && op.user == user)
    ensures HasPassword(Apply(t, life, op), user, password, current)
  {
    match op
    case Login(other, now, family, draws) => IssueAddsOneRow(t, life, other, now, family, None, draws);
    case RefreshWith(hash, now, family, draws) =>
      RefreshFrame(t, life, hash, now, family, draws);
      DeadBranches(t, life, hash, now, family, draws);
    case _ =>
  }

  lemma QuietStepKeepsPassword(w: World, life: Lifetimes, e: Event, user: int, password: string -> string,
                               current: string)
    requires Inv(w.tables) && Enabled(w, e) && Quiet(w, e, user, password)
    requires HasPassword(w.tables, user, password, current) && AttemptsCurrent(w, user, password)
    ensures HasPassword(Step(w, life, e).tables, user, password, current)
    ensures AttemptsCurrent(Step(w, life, e), user, password)
  {
    match e
    case Call(op) => CallKeepsPassword(w.tables, life, op, user, password, current);
    case Insert(thread, now, family, draws) =>
      IssueAddsOneRow(w.tables, life, w.pending[thread].user, now, family, None, draws);
    case _ =>
  }

  /**
   When every login of the user under way has verified the password in force, that password stays
   in force and no session is ever added on another, until somebody sets a new one.
   */
  lemma {:induction false} CurrentAttemptsStay(life: Lifetimes, ws: seq<World>, es: seq<Event>, user: int,
                                               password: string -> string, current: string, i: nat)
    requires IsQuietRun(life, ws, es, user, password) && i < |ws|
    requires HasPassword(ws[0].tables, user, password, current) && AttemptsCurrent(ws[0], user, password)
    ensures HasPassword(ws[i].tables, user, password, current) && AttemptsCurrent(ws[i], user, password)
  {
    hide Step, Enabled, Inv, Quiet, HasPassword, AttemptsCurrent;
    if i > 0 {
      CurrentAttemptsStay(life, ws, es, user, password, current, i - 1);
      RunKeepsInv(life, ws, es, i - 1);
      QuietStepKeepsPassword(ws[i - 1], life, es[i - 1], user, password, current);
    }
  }

  ghost predicate PasswordSticks(life: Lifetimes, w: World, user: int, password: string -> string) {
    forall ws: seq<World>, es: seq<Event> :: IsQuietRun(life, ws, es, user, password) && ws[0] == w ==>
      user in ws[|es|].tables.users && user in w.tables.users
      && password(ws[|es|].tables.users[user].passwordHash) == password(w.tables.users[user].passwordHash)
  }

  /**
   The rehash of a login writes a new hash of the password it verified, whatever is stored by then.
   So the password in force, a changed one for instance, stays in force in every run in which
   nobody sets another if and only if no login under way has verified a different one. `upgrade`
   is the hasher; every password has some hash.
   */
  lemma PasswordSticksIff(life: Lifetimes, w: World, user: int, password: string -> string, upgrade: string -> string)
    requires Inv(w.tables) && user in w.tables.users && user < w.tables.nextUser
    requires forall h :: upgrade(h) != "" && password(upgrade(h)) == password(h)
    ensures PasswordSticks(life, w, user, password) <==> AttemptsCurrent(w, user, password)
  {
    if AttemptsCurrent(w, user, password) {
      var current := password(w.tables.users[user].passwordHash);
      forall ws: seq<World>, es: seq<Event> | IsQuietRun(life, ws, es, user, password) && ws[0] == w
        ensures HasPassword(ws[|es|].tables, user, password, current)
      {
        CurrentAttemptsStay(life, ws, es, user, password, current, |es|);
      }
    } else {
      var thread :| thread in w.pending && w.pending[thread].user == user && OnOldPassword(w, thread, password);
      LateRehash(life, w, thread, upgrade(w.pending[thread].hash), password);
    }
  }

  lemma LateRehash(life: Lifetimes, w: World, thread: int, hash: string, password: string -> string)
    requires Inv(w.tables) && thread in w.pending && OnOldPassword(w, thread, password)
    requires hash != "" && password(hash) == password(w.pending[thread].hash)
    ensures !PasswordSticks(life, w, w.pending[thread].user, password)
  {
    var e := Rehash(thread, hash);
    var ws, es := [w, Step(w, life, e)], [e];
    assert Enabled(ws[0], es[0]) && Quiet(ws[0], es[0], w.pending[thread].user, password);
    assert IsQuietRun(life, ws, es, w.pending[thread].user, password);
  }

  /** Exactly what one rehash does: it replaces the user's password if and only if it verified another. */
  lemma RehashKeepsPasswordIff(w: World, life: Lifetimes, thread: int, hash: string, password: string -> string)
    requires Enabled(w, Rehash(thread, hash)) && w.pending[thread].user in w.tables.users
    requires password(hash) == password(w.pending[thread].hash)
    ensures var user, t := w.pending[thread].user, Step(w, life, Rehash(thread, hash)).tables;
            && user in t.users
            && (password(t.users[user].passwordHash) == password(w.tables.users[user].passwordHash) <==>
                  !OnOldPassword(w, thread, password))
            && t.sessions == w.tables.sessions
            && (forall u <- w.tables.users :: u in t.users && (u != user ==> t.users[u] == w.tables.users[u]))
  {
  }

  const ALICE := 1
  const MALLORY := 2

  /** Two users; user 1 is the super administrator. */
  function TwoUsers(): Tables {
    Tables(map[ALICE := User(true, "h1", "admin"), MALLORY := User(true, "h2", "user")], 3,
           {(ALICE, "user"), (ALICE, "super_admin"), (MALLORY, "user")}, map[], 1)
  }

  /**
   Interleaved, the rule fails: user 2 passes the login lookup, user 1 disables the account, and
   the login's insert then gives the disabled user an unrevoked session.
   */
  lemma InterleavedLoginDefeatsDisable()
    ensures var life := Lifetimes(60, 600);
            var draws: Draws := [Draw("a", "r"), Draw("b", "s"), Draw("c", "t")];
            var w0 := World(TwoUsers(), map[]);
            var w1 := Step(w0, life, LookUp(7, MALLORY));
            var w2 := Step(w1, life, Call(Administer(Administration.ServiceSetEnabled(ALICE, MALLORY, false))));
            var w3 := Step(w2, life, Insert(7, 1000, "f", draws));
            && IsRun(life, [w0, w1, w2, w3],
                     [LookUp(7, MALLORY), Call(Administer(Administration.ServiceSetEnabled(ALICE, MALLORY, false))),
                      Insert(7, 1000, "f", draws)])
            && Administration.Inv(w0.tables) && DisabledClean(w0.tables)
            && !w3.tables.users[MALLORY].enabled
            && 1 in w3.tables.sessions && w3.tables.sessions[1].userId == MALLORY && !w3.tables.sessions[1].revoked
  {
    var life := Lifetimes(60, 600);
    var draws: Draws := [Draw("a", "r"), Draw("b", "s"), Draw("c", "t")];
    var w0 := World(TwoUsers(), map[]);
    var t := w0.tables;
    assert t.users[ALICE].enabled && (ALICE, SUPER_ADMIN) in t.grants;
    var w1 := Step(w0, life, LookUp(7, MALLORY));
    assert !HasRole(t, MALLORY, SUPER_ADMIN);
    var op := Administration.ServiceSetEnabled(ALICE, MALLORY, false);
    var w2 := Step(w1, life, Call(Administer(op)));
    assert w2.tables == Administration.DisabledTables(t, MALLORY);
    assert w2.tables.sessions == map[];
    var row := RowFor(life, MALLORY, 1000, "f", None, draws[0]);
    assert Create(w2.tables, row).Created?;
    var w3 := Step(w2, life, Insert(7, 1000, "f", draws));
    var ws, es := [w0, w1, w2, w3], [LookUp(7, MALLORY), Call(Administer(op)), Insert(7, 1000, "f", draws)];
    assert Enabled(ws[0], es[0]) && Enabled(ws[1], es[1]) && Enabled(ws[2], es[2]);
    assert ws[1] == Step(ws[0], life, es[0]) && ws[2] == Step(ws[1], life, es[1]) && ws[3] == Step(ws[2], life, es[2]);
  }

  /** The second user has one session. */
  function OneSession(): Tables {
    TwoUsers().(sessions := map[1 := Session(MALLORY, "x", "y", 960, 1500, false, "e", None)], nextSession := 2)
  }

  lemma OneSessionInv()
    ensures Inv(OneSession())
  {
    assert RowOk(OneSession(), 1);
  }

  /**
   The same interleaving around a password change: the login looked up the old password, the
   change revokes every other session, and the insert then adds a live one.
   */
  lemma InterleavedLoginOutlivesPasswordChange()
    ensures var life := Lifetimes(60, 600);
            var draws: Draws := [Draw("a", "r"), Draw("b", "s"), Draw("c", "t")];
            var es := [LookUp(7, MALLORY), Call(SetPassword(MALLORY, 1, "new")), Insert(7, 1000, "f", draws)];
            var w0 := World(OneSession(), map[]);
            var w1 := Step(w0, life, es[0]);
            var w2 := Step(w1, life, es[1]);
            var w3 := Step(w2, life, es[2]);
            && IsRun(life, [w0, w1, w2, w3], es)
            && w2.tables.users[MALLORY].passwordHash == "new" && OnlySession(w2.tables, MALLORY, 1)
            && w3.tables.users[MALLORY].passwordHash == "new"
            && 2 in w3.tables.sessions && w3.tables.sessions[2].userId == MALLORY && !w3.tables.sessions[2].revoked
  {
    var life := Lifetimes(60, 600);
    var draws: Draws := [Draw("a", "r"), Draw("b", "s"), Draw("c", "t")];
    var es := [LookUp(7, MALLORY), Call(SetPassword(MALLORY, 1, "new")), Insert(7, 1000, "f", draws)];
    var w0 := World(OneSession(), map[]);
    OneSessionInv();
    hide Inv;
    var w1 := Step(w0, life, es[0]);
    var w2 := Step(w1, life, es[1]);
    assert w2.tables.sessions == w0.tables.sessions;
    assert Create(w2.tables, RowFor(life, MALLORY, 1000, "f", None, draws[0])).Created?;
    var w3 := Step(w2, life, es[2]);
    var ws := [w0, w1, w2, w3];
    assert Enabled(ws[0], es[0]) && Enabled(ws[1], es[1]) && Enabled(ws[2], es[2]);
    assert ws[1] == Step(ws[0], life, es[0]) && ws[2] == Step(ws[1], life, es[1]) && ws[3] == Step(ws[2], life, es[2]);
  }

  /** A rehash that comes after a password change puts a hash of the old password back. */
  lemma LateRehashUndoesPasswordChange()
    ensures var life := Lifetimes(60, 600);
            var w0 := World(TwoUsers(), map[]);
            var es := [LookUp(7, MALLORY), Call(SetPassword(MALLORY, 1, "new")), Rehash(7, "h2 upgraded")];
            var w1 := Step(w0, life, es[0]);
            var w2 := Step(w1, life, es[1]);
            var w3 := Step(w2, life, es[2]);
            && IsRun(life, [w0, w1, w2, w3], es)
            && w2.tables.users[MALLORY].passwordHash == "new"
            && w2.pending[7] == Attempt(MALLORY, "h2")
            && w3.tables.users[MALLORY].passwordHash == "h2 upgraded"
  {
    var life := Lifetimes(60, 600);
    var es := [LookUp(7, MALLORY), Call(SetPassword(MALLORY, 1, "new")), Rehash(7, "h2 upgraded")];
    var w0 := World(TwoUsers(), map[]);
    var w1 := Step(w0, life, es[0]);
    var w2 := Step(w1, life, es[1]);
    var w3 := Step(w2, life, es[2]);
    var ws := [w0, w1, w2, w3];
    assert Enabled(ws[0], es[0]) && Enabled(ws[1], es[1]) && Enabled(ws[2], es[2]);
    assert ws[1] == Step(ws[0], life, es[0]) && ws[2] == Step(ws[1], life, es[1]) && ws[3] == Step(ws[2], life, es[2]);
  }
}
