/**
 Refresh-token sessions, login state and password change as transactions over shared rows,
 and what every interleaving of them keeps.
 */
module Sessions {
  import opened Optional

  type UserId = nat
  type Hash = nat

  const MAX_FAILURES := 5
  const LOCK_SECONDS := 15 * 60

  /** A signed refresh token.  Older tokens carry no session; `jti` is unique where present. */
  datatype Jwt = Jwt(serial: nat, user: UserId, session: Option<nat>, jti: Option<nat>, expires: int) {
    /** The session family the token belongs to. */
    function Family(): Option<nat> {
      if session.Some? then session else jti
    }
  }

  /** What the token column holds: a digest, or in rows of old releases the token itself. */
  datatype Stored = Hashed(token: Jwt) | Plain(token: Jwt)

  /** `verified` records the password hash that the login behind the row was checked against. */
  datatype Row = Row(user: UserId, stored: Stored, expiresAt: int, verified: Hash)

  datatype User = User(hash: Hash, failCount: nat, lockedUntil: Option<int>)

  /** `issued` is every token ever signed; numbers from `next` on have never been used. */
  datatype Db = Db(users: map<UserId, User>, rows: map<nat, Row>, issued: set<Jwt>, next: nat)

  /** A request at its transaction.  `snap` is the user row read before the password was hashed,
      `matches` the result of comparing the password with that row's hash. */
  datatype Op =
    | Login(user: UserId, snap: User, matches: bool, before: int, now: int, expires: int)
    | Refresh(token: Jwt, now: int, expires: int)
    | LogoutBrowser(token: Jwt, now: int)
    | Logout(user: UserId)
    | ChangePassword(user: UserId, snap: User, matches: bool)

  datatype Outcome = LoggedIn(user: UserId) | LoginFailed(user: UserId) | Locked | Refreshed(token: Jwt)
                   | LoggedOut | PasswordChanged(user: UserId) | InvalidToken | InvalidPassword | NotFound

  predicate IsLocked(u: User, now: int) {
    u.lockedUntil.Some? && u.lockedUntil.value > now
  }

  // ---- the transactions as functions ----

  /** `generateTokensForSession`: a fresh token for the session, stored under the session's id. */
  function Issue(db: Db, user: UserId, session: nat, expires: int, verified: Hash): Db {
    var token := Jwt(db.next, user, Some(session), Some(db.next), expires);
    Db(db.users, db.rows[session := Row(user, Hashed(token), expires, verified)], db.issued + {token}, db.next + 1)
  }

  function LoginStep(db: Db, u: UserId, snap: User, matches: bool, before: int, now: int, expires: int): (Db, Outcome) {
    if IsLocked(snap, before) then (db, Locked)
    else if u !in db.users then (db, NotFound)
    else
      var current := db.users[u];
      if current.hash != snap.hash then (db, InvalidPassword)
      else if IsLocked(current, now) then (db, Locked)
      else if !matches then
        var count := current.failCount + 1;
        var lock := if count >= MAX_FAILURES then Some(now + LOCK_SECONDS) else current.lockedUntil;
        (db.(users := db.users[u := User(current.hash, count, lock)]), LoginFailed(u))
      else
        var cleared := db.(users := db.users[u := User(current.hash, 0, None)], next := db.next + 1);
        (Issue(cleared, u, db.next, expires, current.hash), LoggedIn(u))
  }

  /** The rows that `Consume` of this column value deletes. */
  function Consumable(rows: map<nat, Row>, stored: Stored, user: UserId, now: int): set<nat> {
    set id | id in rows && rows[id].stored == stored && rows[id].user == user && rows[id].expiresAt > now
  }

  predicate Validates(db: Db, token: Jwt, now: int) {
    token in db.issued && token.user != 0 && token.expires > now && token.Family().Some?
  }

  /** The row a refresh consumes: the digest is tried first, then the plain token. */
  function RefreshHit(db: Db, token: Jwt, now: int): set<nat> {
    var hashed := Consumable(db.rows, Hashed(token), token.user, now);
    if |hashed| == 1 then hashed else hashed + Consumable(db.rows, Plain(token), token.user, now)
  }

  ghost function RefreshStep(db: Db, token: Jwt, now: int, expires: int): (Db, Outcome) {
    if !Validates(db, token, now) then (db, InvalidToken)
    else if token.user !in db.users then (db, NotFound)
    else
      var hit := RefreshHit(db, token, now);
      if hit == {} then (db, InvalidToken)
      else
        var id :| id in hit;
        var rest := db.(rows := db.rows - hit);
        if token.Family().value in rest.rows then (db, InvalidToken)
        else (Issue(rest, token.user, token.Family().value, expires, db.rows[id].verified), Refreshed(token))
  }

  /** The rows `DeleteSession` deletes. */
  function SessionRows(rows: map<nat, Row>, user: UserId, session: nat, token: Jwt): set<nat> {
    set id | id in rows && rows[id].user == user
             && (id == session || rows[id].stored == Hashed(token) || rows[id].stored == Plain(token))
  }

  function LogoutBrowserStep(db: Db, token: Jwt, now: int): (Db, Outcome) {
    if !Validates(db, token, now) then (db, InvalidToken)
    else if token.user !in db.users then (db, NotFound)
    else
      var hit := SessionRows(db.rows, token.user, token.Family().value, token);
      if hit == {} then (db, InvalidToken) else (db.(rows := db.rows - hit), LoggedOut)
  }

  function UserRows(rows: map<nat, Row>, user: UserId): set<nat> {
    set id | id in rows && rows[id].user == user
  }

  function LogoutStep(db: Db, user: UserId): (Db, Outcome) {
    if user !in db.users then (db, NotFound)
    else (db.(rows := db.rows - UserRows(db.rows, user)), LoggedOut)
  }

  function ChangePasswordStep(db: Db, user: UserId, snap: User, matches: bool): (Db, Outcome) {
    if !matches then (db, InvalidPassword)
    else if user !in db.users then (db, NotFound)
    else if db.users[user].hash != snap.hash then (db, InvalidPassword)
    else
      (db.(users := db.users[user := db.users[user].(hash := db.next)],
           rows := db.rows - UserRows(db.rows, user), next := db.next + 1), PasswordChanged(user))
  }

  ghost function Apply(db: Db, op: Op): (Db, Outcome) {
    match op
    case Login(u, snap, matches, before, now, expires) => LoginStep(db, u, snap, matches, before, now, expires)
    case Refresh(token, now, expires) => RefreshStep(db, token, now, expires)
    case LogoutBrowser(token, now) => LogoutBrowserStep(db, token, now)
    case Logout(user) => LogoutStep(db, user)
    case ChangePassword(user, snap, matches) => ChangePasswordStep(db, user, snap, matches)
  }

  /** The state after a run: any sequence of transactions, which is any interleaving of requests.
      A transaction that the database aborts is one that is not in the sequence. */
  ghost function Run(db: Db, ops: seq<Op>): Db
    decreases |ops|
  {
    if ops == [] then db else Run(Apply(db, ops[0]).0, ops[1..])
  }

  ghost function Outcomes(db: Db, ops: seq<Op>): (outcomes: seq<Outcome>)
    ensures |outcomes| == |ops|
    decreases |ops|
  {
    if ops == [] then [] else [Apply(db, ops[0]).1] + Outcomes(Apply(db, ops[0]).0, ops[1..])
  }

  // ---- the invariant ----

  predicate Below(x: Option<nat>, n: nat) { x.Some? ==> x.value < n }

  ghost predicate RowOk(db: Db, id: nat)
    requires id in db.rows
  {
    var r := db.rows[id];
    var t := r.stored.token;
    && id < db.next && t in db.issued && t.user == r.user
    && r.user in db.users && r.verified == db.users[r.user].hash
    && (t.session.Some? ==> t.session.value == id)
    // while the row of a token without a session lives, the token has no descendants
    && (t.session.None? && t.jti.Some? ==>
          && (forall t' :: t' in db.issued && t'.Family() == t.jti ==> t' == t)
          && (t.jti.value in db.rows ==> t.jti.value == id))
  }

  /** A token is held by at most one row. */
  ghost predicate OneRowPerToken(db: Db) {
    forall i, j :: i in db.rows && j in db.rows && db.rows[i].stored.token == db.rows[j].stored.token ==> i == j
  }

  ghost predicate TokensOk(db: Db) {
    && (forall t :: t in db.issued ==> t.serial < db.next && Below(t.session, db.next) && Below(t.jti, db.next))
    && (forall t, t' :: t in db.issued && t' in db.issued && t.Family().Some? && t.Family() == t'.Family() ==> t.user == t'.user)
  }

  ghost predicate Inv(db: Db) {
    && (forall id {:trigger RowOk(db, id)} :: id in db.rows ==> RowOk(db, id))
    && OneRowPerToken(db) && TokensOk(db)
    && (forall u :: u in db.users ==> db.users[u].hash < db.next)
  }

  lemma RowsBelowNext(db: Db)
    requires Inv(db)
    ensures forall id :: id in db.rows ==> id < db.next
  {
    forall id | id in db.rows ensures id < db.next {
      assert RowOk(db, id);
    }
  }

  lemma IssueKeepsInv(db: Db, user: UserId, session: nat, expires: int, verified: Hash)
    requires Inv(db) && session !in db.rows && session < db.next
    requires user in db.users && verified == db.users[user].hash
    requires forall t :: t in db.issued && t.Family() == Some(session) ==> t.user == user
    requires forall id :: id in db.rows ==> db.rows[id].stored.token.Family() != Some(session)
    ensures Inv(Issue(db, user, session, expires, verified))
  {
    var token := Jwt(db.next, user, Some(session), Some(db.next), expires);
    var db' := Issue(db, user, session, expires, verified);
    forall id | id in db.rows ensures db.rows[id].stored.token != token {
      assert RowOk(db, id);
    }
    forall id | id in db'.rows ensures RowOk(db', id) {
      if id != session { assert RowOk(db, id); }
    }
  }

  lemma FewerRowsKeepInv(db: Db, gone: set<nat>)
    requires Inv(db)
    ensures Inv(db.(rows := db.rows - gone))
  {
    var db' := db.(rows := db.rows - gone);
    forall id | id in db'.rows ensures RowOk(db', id) {
      assert RowOk(db, id);
    }
  }

  /** Changing one user keeps the invariant while the hash stays or the user has no rows. */
  lemma UserChangeKeepsInv(db: Db, u: UserId, user: User, next: nat)
    requires Inv(db) && u in db.users && db.next <= next && user.hash < next
    requires user.hash == db.users[u].hash || UserRows(db.rows, u) == {}
    ensures Inv(db.(users := db.users[u := user], next := next))
  {
    var db' := db.(users := db.users[u := user], next := next);
    forall id | id in db'.rows ensures RowOk(db', id) {
      assert RowOk(db, id);
      assert db.rows[id].user == u ==> id in UserRows(db.rows, u);
    }
  }

  lemma NewSessionKeepsInv(db: Db, u: UserId, expires: int)
    requires Inv(db) && u in db.users
    ensures var cleared := db.(users := db.users[u := User(db.users[u].hash, 0, None)], next := db.next + 1);
            Inv(Issue(cleared, u, db.next, expires, db.users[u].hash))
  {
    var cleared := db.(users := db.users[u := User(db.users[u].hash, 0, None)], next := db.next + 1);
    UserChangeKeepsInv(db, u, User(db.users[u].hash, 0, None), db.next + 1);
    forall id | id in db.rows ensures id < db.next && db.rows[id].stored.token.Family() != Some(db.next) {
      assert RowOk(db, id);
    }
    IssueKeepsInv(cleared, u, db.next, expires, db.users[u].hash);
  }

  lemma LoginKeepsInv(db: Db, u: UserId, snap: User, matches: bool, before: int, now: int, expires: int)
    requires Inv(db)
    ensures Inv(LoginStep(db, u, snap, matches, before, now, expires).0)
  {
    var (db', outcome) := LoginStep(db, u, snap, matches, before, now, expires);
    if outcome.LoginFailed? {
      UserChangeKeepsInv(db, u, db'.users[u], db.next);
    } else if outcome.LoggedIn? {
      NewSessionKeepsInv(db, u, expires);
    }
  }

  /** The digest row or else the plain row: there is at most one, and it holds the token. */
  lemma HitIsOneRow(db: Db, token: Jwt, now: int, id: nat)
    requires Inv(db) && id in RefreshHit(db, token, now)
    ensures id in db.rows && db.rows[id].stored.token == token && RefreshHit(db, token, now) == {id}
  {
  }

  lemma RefreshKeepsInv(db: Db, token: Jwt, now: int, expires: int)
    requires Inv(db)
    ensures Inv(RefreshStep(db, token, now, expires).0)
    ensures RefreshStep(db, token, now, expires).1 == Refreshed(token) ==> token in db.issued && RefreshHit(db, token, now) != {}
  {
    if RefreshStep(db, token, now, expires).1.Refreshed? {
      var hit := RefreshHit(db, token, now);
      var id :| id in hit;
      HitIsOneRow(db, token, now, id);
      var f := token.Family().value;
      FewerRowsKeepInv(db, hit);
      forall j | j in db.rows && j != id ensures db.rows[j].stored.token.Family() != Some(f) {
        assert RowOk(db, j) && RowOk(db, id);
      }
      assert RowOk(db, id);
      IssueKeepsInv(db.(rows := db.rows - hit), token.user, f, expires, db.rows[id].verified);
    }
  }

  /** Exactly the tokens that validate and are held by an unexpired row can be exchanged: the
      family's row id is free once that row is consumed. */
  lemma RefreshSucceeds(db: Db, token: Jwt, now: int, expires: int)
    requires Inv(db)
    ensures RefreshStep(db, token, now, expires).1 == Refreshed(token) <==>
              && Validates(db, token, now) && token.user in db.users
              && exists id :: id in db.rows && db.rows[id].stored.token == token && db.rows[id].expiresAt > now
  {
    if id :| id in db.rows && db.rows[id].stored.token == token && db.rows[id].expiresAt > now {
      assert RowOk(db, id);
      assert id in Consumable(db.rows, db.rows[id].stored, token.user, now);
      assert Consumable(db.rows, db.rows[id].stored, token.user, now) == {id};
    }
  }

  lemma ApplyKeepsInv(db: Db, op: Op)
    requires Inv(db)
    ensures Inv(Apply(db, op).0)
  {
    match op
    case Login(u, snap, matches, before, now, expires) =>
      LoginKeepsInv(db, u, snap, matches, before, now, expires);
    case Refresh(token, now, expires) =>
      RefreshKeepsInv(db, token, now, expires);
    case LogoutBrowser(token, now) =>
      if token.Family().Some? {
        FewerRowsKeepInv(db, SessionRows(db.rows, token.user, token.Family().value, token));
      }
    case Logout(user) =>
      FewerRowsKeepInv(db, UserRows(db.rows, user));
    case ChangePassword(user, snap, matches) =>
      if user in db.users {
        FewerRowsKeepInv(db, UserRows(db.rows, user));
        UserChangeKeepsInv(db.(rows := db.rows - UserRows(db.rows, user)), user, db.users[user].(hash := db.next), db.next + 1);
      }
  }

  lemma {:induction false} RunKeepsInv(db: Db, ops: seq<Op>)
    requires Inv(db)
    ensures Inv(Run(db, ops))
    decreases |ops|
  {
    if ops != [] {
      ApplyKeepsInv(db, ops[0]);
      RunKeepsInv(Apply(db, ops[0]).0, ops[1..]);
    }
  }

  /** A session family has at most one live row, whose id is the session its token claims. */
  lemma OneRowPerFamily(db: Db, i: nat, j: nat)
    requires Inv(db) && i in db.rows && j in db.rows
    requires var f := db.rows[i].stored.token.Family(); f.Some? && f == db.rows[j].stored.token.Family()
    ensures i == j
    ensures db.rows[i].stored.token.session.Some? ==> db.rows[i].stored.token.session.value == i
  {
    assert RowOk(db, i) && RowOk(db, j);
  }

  // ---- revocation is final ----

  /** The family has been used and has no live row. */
  ghost predicate Revoked(db: Db, family: nat) {
    && family < db.next
    && forall id :: id in db.rows ==> db.rows[id].stored.token.Family() != Some(family)
  }

  lemma StaysRevoked(db: Db, op: Op, family: nat)
    requires Inv(db) && Revoked(db, family)
    ensures Revoked(Apply(db, op).0, family)
  {
    if op.Refresh? {
      RefreshKeepsInv(db, op.token, op.now, op.expires);
      if Apply(db, op).1.Refreshed? {
        var id :| id in RefreshHit(db, op.token, op.now);
        HitIsOneRow(db, op.token, op.now, id);
      }
    }
  }

  lemma {:induction false} RunStaysRevoked(db: Db, ops: seq<Op>, family: nat)
    requires Inv(db) && Revoked(db, family)
    ensures Revoked(Run(db, ops), family)
    decreases |ops|
  {
    if ops != [] {
      ApplyKeepsInv(db, ops[0]);
      StaysRevoked(db, ops[0], family);
      RunStaysRevoked(Apply(db, ops[0]).0, ops[1..], family);
    }
  }

  /** Logging a browser out with any token of a family that still validates leaves no live row of
      the family, then or after any later transactions, also when nothing was there to delete. */
  lemma LogoutIsFinal(db: Db, token: Jwt, now: int, later: seq<Op>)
    requires Inv(db) && Validates(db, token, now) && token.user in db.users
    ensures Revoked(LogoutBrowserStep(db, token, now).0, token.Family().value)
    ensures Revoked(Run(LogoutBrowserStep(db, token, now).0, later), token.Family().value)
  {
    var db' := LogoutBrowserStep(db, token, now).0;
    var f := token.Family().value;
    forall id | id in db'.rows ensures db'.rows[id].stored.token.Family() != Some(f) {
      assert RowOk(db, id);
      assert id !in SessionRows(db.rows, token.user, f, token);
    }
    assert db' == Apply(db, LogoutBrowser(token, now)).0;
    ApplyKeepsInv(db, LogoutBrowser(token, now));
    RunStaysRevoked(db', later, f);
  }

  /** Logging out with a token that was ever issued leaves its family without a live row exactly if
      the token still validates and its user exists, or the family had no live row to begin with. */
  lemma LogoutRevokesIff(db: Db, token: Jwt, now: int)
    requires Inv(db) && token in db.issued && token.Family().Some?
    ensures Revoked(LogoutBrowserStep(db, token, now).0, token.Family().value) <==>
              (Validates(db, token, now) && token.user in db.users) || Revoked(db, token.Family().value)
  {
    if Validates(db, token, now) && token.user in db.users {
      LogoutIsFinal(db, token, now, []);
    }
  }

  /** A login, a refresh, and then a logout with the first token after it has expired: the family's
      second token keeps its live row. */
  lemma ExpiredTokenRevokesNothing()
    ensures var start := Db(map[1 := User(0, 0, None)], map[], {}, 1);
            var first := Jwt(2, 1, Some(1), Some(2), 10);
            var db := Run(start, [Login(1, User(0, 0, None), true, 0, 0, 10), Refresh(first, 5, 100)]);
            && Inv(start) && first in db.issued
            && LogoutBrowserStep(db, first, 50) == (db, InvalidToken)
            && 1 in db.rows && db.rows[1].stored.token.Family() == first.Family() && db.rows[1].expiresAt == 100
            && Validates(db, db.rows[1].stored.token, 50)
  {
    var start := Db(map[1 := User(0, 0, None)], map[], {}, 1);
    var first := Jwt(2, 1, Some(1), Some(2), 10);
    var login, refresh := Login(1, User(0, 0, None), true, 0, 0, 10), Refresh(first, 5, 100);
    var db1 := Apply(start, login).0;
    ApplyKeepsInv(start, login);
    assert db1.rows == map[1 := Row(1, Hashed(first), 10, 0)] && db1.issued == {first} && db1.next == 3;
    RefreshSucceeds(db1, first, 5, 100);
    var db := Apply(db1, refresh).0;
    RefreshedRow(db1, first, 5, 100);
    assert [login, refresh][1..] == [refresh] && [refresh][1..] == [];
    assert Run(start, [login, refresh]) == Run(db1, [refresh]) == Run(db, []) == db;
  }

  /** After a refresh the family's row holds the new token. */
  lemma RefreshedRow(db: Db, token: Jwt, now: int, expires: int)
    requires Inv(db) && RefreshStep(db, token, now, expires).1 == Refreshed(token)
    ensures var db' := RefreshStep(db, token, now, expires).0; var f := token.Family().value;
            var successor := Jwt(db.next, token.user, Some(f), Some(db.next), expires);
            && token in db'.issued && successor in db'.issued
            && f in db'.rows && db'.rows[f].stored == Hashed(successor) && db'.rows[f].expiresAt == expires
  {
  }

  // ---- password change ----

  /** The user's password hash was set at or after number `from`. */
  ghost predicate SetSince(db: Db, u: UserId, from: nat) {
    u in db.users && from <= db.users[u].hash
  }

  lemma {:induction false} HashesOnlyGrow(db: Db, ops: seq<Op>, u: UserId, from: nat)
    requires Inv(db) && SetSince(db, u, from)
    ensures Inv(Run(db, ops)) && SetSince(Run(db, ops), u, from)
    decreases |ops|
  {
    if ops != [] {
      ApplyKeepsInv(db, ops[0]);
      HashesOnlyGrow(Apply(db, ops[0]).0, ops[1..], u, from);
    }
  }

  /** After a password change commits, every live row of the user, then and after any later
      transactions, descends from a login checked against a hash set at or after the change. */
  lemma PasswordChangeIsFinal(db: Db, u: UserId, snap: User, later: seq<Op>)
    requires Inv(db) && ChangePasswordStep(db, u, snap, true).1 == PasswordChanged(u)
    ensures var db' := Run(ChangePasswordStep(db, u, snap, true).0, later);
            forall id :: id in db'.rows && db'.rows[id].user == u ==> db.next <= db'.rows[id].verified
  {
    var changed := ChangePasswordStep(db, u, snap, true).0;
    assert changed == Apply(db, ChangePassword(u, snap, true)).0;
    ApplyKeepsInv(db, ChangePassword(u, snap, true));
    HashesOnlyGrow(changed, later, u, db.next);
    var db' := Run(changed, later);
    forall id | id in db'.rows && db'.rows[id].user == u ensures db.next <= db'.rows[id].verified {
      assert RowOk(db', id);
    }
  }

  /** A login verified before the change opens no session after it, whatever came in between. */
  lemma OldVerificationIsRefused(db: Db, u: UserId, snap: User, later: seq<Op>, login: Op)
    requires Inv(db) && ChangePasswordStep(db, u, snap, true).1 == PasswordChanged(u)
    requires login.Login? && login.user == u && login.snap.hash < db.next
    ensures var db' := Run(ChangePasswordStep(db, u, snap, true).0, later);
            Apply(db', login).0 == db' && !Apply(db', login).1.LoggedIn?
  {
    var changed := ChangePasswordStep(db, u, snap, true).0;
    assert changed == Apply(db, ChangePassword(u, snap, true)).0;
    ApplyKeepsInv(db, ChangePassword(u, snap, true));
    HashesOnlyGrow(changed, later, u, db.next);
  }

  // ---- single use ----

  /** The token was signed and no row holds it. */
  ghost predicate Spent(db: Db, token: Jwt) {
    token in db.issued && forall id :: id in db.rows ==> db.rows[id].stored.token != token
  }

  lemma RefreshSpends(db: Db, token: Jwt, now: int, expires: int)
    requires Inv(db) && RefreshStep(db, token, now, expires).1 == Refreshed(token)
    ensures !Spent(db, token) && Spent(RefreshStep(db, token, now, expires).0, token)
  {
    var id :| id in RefreshHit(db, token, now);
    HitIsOneRow(db, token, now, id);
  }

  lemma StaysSpent(db: Db, op: Op, token: Jwt)
    requires Inv(db) && Spent(db, token)
    ensures Spent(Apply(db, op).0, token) && Apply(db, op).1 != Refreshed(token)
  {
    if Apply(db, op).1 == Refreshed(token) {
      RefreshSpends(db, token, op.now, op.expires);
    }
  }

  lemma {:induction false} SpentIsRefused(db: Db, ops: seq<Op>, token: Jwt)
    requires Inv(db) && Spent(db, token)
    ensures Refreshed(token) !in Outcomes(db, ops)
    decreases |ops|
  {
    if ops != [] {
      ApplyKeepsInv(db, ops[0]);
      StaysSpent(db, ops[0], token);
      SpentIsRefused(Apply(db, ops[0]).0, ops[1..], token);
    }
  }

  /** Over any run each refresh token is exchanged at most once. */
  lemma {:induction false} SingleUse(db: Db, ops: seq<Op>, i: nat, j: nat, token: Jwt)
    requires Inv(db) && i < j < |ops|
    requires Outcomes(db, ops)[i] == Refreshed(token)
    ensures Outcomes(db, ops)[j] != Refreshed(token)
    decreases |ops|
  {
    var next := Apply(db, ops[0]).0;
    ApplyKeepsInv(db, ops[0]);
    if i == 0 {
      RefreshSpends(db, token, ops[0].now, ops[0].expires);
      SpentIsRefused(next, ops[1..], token);
      assert Outcomes(db, ops)[j] == Outcomes(next, ops[1..])[j - 1];
    } else {
      SingleUse(next, ops[1..], i - 1, j - 1, token);
    }
  }

  // ---- failed logins ----

  /** `count` failures, then the failures and successes of the user among the outcomes. */
  function Tally(count: nat, outcomes: seq<Outcome>, u: UserId): nat
    decreases |outcomes|
  {
    if outcomes == [] then count
    else if outcomes[0] == LoggedIn(u) then Tally(0, outcomes[1..], u)
    else if outcomes[0] == LoginFailed(u) then Tally(count + 1, outcomes[1..], u)
    else Tally(count, outcomes[1..], u)
  }

  /** No failure is lost: the stored count is the number of committed failures since the last
      committed success, although every request starts from a snapshot. */
  lemma {:induction false} FailCountIsExact(db: Db, ops: seq<Op>, u: UserId)
    requires u in db.users
    ensures u in Run(db, ops).users
    ensures Run(db, ops).users[u].failCount == Tally(db.users[u].failCount, Outcomes(db, ops), u)
    decreases |ops|
  {
    if ops != [] {
      var next := Apply(db, ops[0]).0;
      FailCountIsExact(next, ops[1..], u);
      assert Outcomes(db, ops)[1..] == Outcomes(next, ops[1..]);
    }
  }

  /** A failure that brings the count to the limit locks the user for a quarter of an hour, and
      until then no attempt by any request succeeds or is even counted. */
  lemma {:induction false} LockHolds(db: Db, ops: seq<Op>, u: UserId, until: int)
    requires u in db.users && db.users[u].lockedUntil == Some(until)
    requires forall i :: 0 <= i < |ops| && ops[i].Login? ==> ops[i].now < until
    ensures LoggedIn(u) !in Outcomes(db, ops) && LoginFailed(u) !in Outcomes(db, ops)
    ensures u in Run(db, ops).users && Run(db, ops).users[u].lockedUntil == Some(until)
    decreases |ops|
  {
    if ops != [] {
      LockHolds(Apply(db, ops[0]).0, ops[1..], u, until);
    }
  }

  /** Once a failure brings the count to the limit, no attempt of the next quarter of an hour, right or
      wrong, succeeds or is counted, whatever else happens in between. */
  lemma LimitLocks(db: Db, login: Op, later: seq<Op>)
    requires login.Login? && Apply(db, login).1 == LoginFailed(login.user)
    requires db.users[login.user].failCount + 1 >= MAX_FAILURES
    requires forall i :: 0 <= i < |later| && later[i].Login? ==> later[i].now < login.now + LOCK_SECONDS
    ensures var outcomes := Outcomes(Apply(db, login).0, later);
            LoggedIn(login.user) !in outcomes && LoginFailed(login.user) !in outcomes
  {
    LockHolds(Apply(db, login).0, later, login.user, login.now + LOCK_SECONDS);
  }

  /** The wrong guesses about a user that were checked against the password hash and counted. */
  function Guesses(outcomes: seq<Outcome>, u: UserId): nat {
    if outcomes == [] then 0 else (if outcomes[0] == LoginFailed(u) then 1 else 0) + Guesses(outcomes[1..], u)
  }

  lemma {:induction false} NoGuesses(outcomes: seq<Outcome>, u: UserId)
    requires LoginFailed(u) !in outcomes
    ensures Guesses(outcomes, u) == 0
  {
    if outcomes != [] {
      NoGuesses(outcomes[1..], u);
    }
  }

  /** Whoever does not know the password gets at most five wrong guesses in any quarter of an hour,
      and fewer after earlier failures, in every interleaving of any number of requests. */
  lemma {:induction false} GuessesAreBounded(db: Db, ops: seq<Op>, u: UserId, from: int)
    requires u in db.users && LoggedIn(u) !in Outcomes(db, ops)
    requires forall i :: 0 <= i < |ops| && ops[i].Login? ==> from <= ops[i].now < from + LOCK_SECONDS
    ensures Guesses(Outcomes(db, ops), u)
            <= if db.users[u].failCount < MAX_FAILURES then MAX_FAILURES - db.users[u].failCount else 1
    decreases |ops|
  {
    if ops != [] {
      var next := Apply(db, ops[0]).0;
      assert Outcomes(db, ops)[1..] == Outcomes(next, ops[1..]);
      assert Outcomes(db, ops)[0] == Apply(db, ops[0]).1;
      if Apply(db, ops[0]).1 == LoginFailed(u) && db.users[u].failCount + 1 >= MAX_FAILURES {
        LimitLocks(db, ops[0], ops[1..]);
        NoGuesses(Outcomes(next, ops[1..]), u);
      } else {
        assert Apply(db, ops[0]).1 != LoginFailed(u) ==> next.users[u].failCount == db.users[u].failCount;
        GuessesAreBounded(next, ops[1..], u, from);
      }
    }
  }

  // ---- what each transaction answers and changes, apart from how it is computed ----

  /** Every outcome of a run is that of its operation in the state the run had reached. */
  lemma {:induction false} OutcomeAt(db: Db, ops: seq<Op>, i: nat)
    requires i < |ops|
    ensures Outcomes(db, ops)[i] == Apply(Run(db, ops[..i]), ops[i]).1
    decreases |ops|
  {
    if i > 0 {
      OutcomeAt(Apply(db, ops[0]).0, ops[1..], i - 1);
      assert ops[..i][1..] == ops[1..][..i - 1] && ops[..i][0] == ops[0];
    }
  }

  /** The user row read for the login is still current as far as the password goes, and no lock stands
      in the way, neither then nor now. */
  predicate MayTry(db: Db, login: Op)
    requires login.Login?
  {
    && login.user in db.users && db.users[login.user].hash == login.snap.hash
    && (login.snap.lockedUntil.Some? ==> login.snap.lockedUntil.value <= login.before)
    && (db.users[login.user].lockedUntil.Some? ==> db.users[login.user].lockedUntil.value <= login.now)
  }

  /** Exactly the right password lets in, and exactly a wrong one is counted, of those who may try;
      everyone else is refused without a trace. */
  lemma LoginAnswers(db: Db, login: Op)
    requires login.Login?
    ensures Apply(db, login).1 == LoggedIn(login.user) <==> login.matches && MayTry(db, login)
    ensures Apply(db, login).1 == LoginFailed(login.user) <==> !login.matches && MayTry(db, login)
    ensures !MayTry(db, login) ==> Apply(db, login).0 == db && Apply(db, login).1 in {Locked, NotFound, InvalidPassword}
  {
  }

  lemma LoginAnswersInRuns(db: Db, ops: seq<Op>, i: nat, u: UserId)
    requires i < |ops|
    ensures Outcomes(db, ops)[i] == LoggedIn(u) <==>
              ops[i].Login? && ops[i].user == u && ops[i].matches && MayTry(Run(db, ops[..i]), ops[i])
    ensures Outcomes(db, ops)[i] == LoginFailed(u) <==>
              ops[i].Login? && ops[i].user == u && !ops[i].matches && MayTry(Run(db, ops[..i]), ops[i])
  {
    OutcomeAt(db, ops, i);
    if ops[i].Login? {
      LoginAnswers(Run(db, ops[..i]), ops[i]);
    }
  }

  ghost predicate SameOtherUsers(db: Db, db': Db, u: UserId) {
    db'.users.Keys == db.users.Keys && forall v :: v in db.users && v != u ==> db'.users[v] == db.users[v]
  }

  /** Of the old rows exactly those with `gone(id)` are missing; the others are as they were. */
  ghost predicate OnlyGone(db: Db, db': Db, gone: nat -> bool) {
    && (forall id :: id in db.rows && !gone(id) ==> id in db'.rows && db'.rows[id] == db.rows[id])
    && (forall id :: id in db'.rows ==> id in db.rows && !gone(id))
  }

  /** A wrong password costs one count, at the fifth a lock, and touches nobody's rows. */
  lemma FailureChanges(db: Db, login: Op)
    requires login.Login? && Apply(db, login).1 == LoginFailed(login.user)
    ensures var db', u := Apply(db, login).0, login.user;
            && db'.rows == db.rows && db'.issued == db.issued && SameOtherUsers(db, db', u)
            && db'.users[u].hash == db.users[u].hash && db'.users[u].failCount == db.users[u].failCount + 1
            && db'.users[u].lockedUntil
               == (if db.users[u].failCount >= 4 then Some(login.now + 900) else db.users[u].lockedUntil)
  {
  }

  /** A success clears count and lock and adds one row, with an id and a token never used before, that
      expires when asked and remembers the hash that was checked. */
  lemma SuccessChanges(db: Db, login: Op)
    requires Inv(db) && login.Login? && Apply(db, login).1 == LoggedIn(login.user)
    ensures var db', u := Apply(db, login).0, login.user;
            && SameOtherUsers(db, db', u) && db'.users[u] == User(login.snap.hash, 0, None)
            && exists id, token :: id !in db.rows && token !in db.issued
                 && (forall t :: t in db.issued ==> t.Family() != Some(id))
                 && token.user == u && token.Family() == Some(id) && token.expires == login.expires
                 && db'.issued == db.issued + {token}
                 && db'.rows == db.rows[id := Row(u, Hashed(token), login.expires, login.snap.hash)]
  {
    RowsBelowNext(db);
    var token := Jwt(db.next + 1, login.user, Some(db.next), Some(db.next + 1), login.expires);
    assert token !in db.issued;
    assert Apply(db, login).0.rows == db.rows[db.next := Row(login.user, Hashed(token), login.expires, login.snap.hash)];
  }

  /** Exactly a token that was issued to someone, has not expired, has a family, and is held by an
      unexpired row can be exchanged. */
  lemma RefreshAnswers(db: Db, token: Jwt, now: int, expires: int)
    requires Inv(db)
    ensures Apply(db, Refresh(token, now, expires)).1 == Refreshed(token) <==>
              && token in db.issued && token.user != 0 && now < token.expires && (token.session.Some? || token.jti.Some?)
              && token.user in db.users
              && exists id :: id in db.rows && db.rows[id].stored.token == token && now < db.rows[id].expiresAt
    ensures Apply(db, Refresh(token, now, expires)).1 != Refreshed(token) ==> Apply(db, Refresh(token, now, expires)).0 == db
  {
    RefreshSucceeds(db, token, now, expires);
  }

  /** The row that held the token gives way to one of the same user and family with a token never used
      before; what was checked at the login behind it stays on record, and all other rows stay. */
  lemma RefreshChanges(db: Db, token: Jwt, now: int, expires: int)
    requires Inv(db) && Apply(db, Refresh(token, now, expires)).1 == Refreshed(token)
    ensures token.Family().Some?
    ensures var db', f := Apply(db, Refresh(token, now, expires)).0, token.Family().value;
            && db'.users == db.users
            && exists id, next :: id in db.rows && db.rows[id].stored.token == token && next !in db.issued
                 && next.user == token.user && next.Family() == Some(f) && next.expires == expires
                 && db'.issued == db.issued + {next}
                 && db'.rows == (db.rows - {id})[f := Row(token.user, Hashed(next), expires, db.rows[id].verified)]
                 && (f in db.rows ==> f == id)
  {
    var id :| id in RefreshHit(db, token, now);
    HitIsOneRow(db, token, now, id);
    var f := token.Family().value;
    var next := Jwt(db.next, token.user, Some(f), Some(db.next), expires);
    assert next !in db.issued;
    assert RowOk(db, id);
    assert Apply(db, Refresh(token, now, expires)).0.rows
        == (db.rows - {id})[f := Row(token.user, Hashed(next), expires, db.rows[id].verified)];
  }

  /** Row `id` belongs to the user and family of the token, or holds the token. */
  predicate RevokedBy(db: Db, token: Jwt, id: nat) {
    && id in db.rows && db.rows[id].user == token.user
    && (Some(id) == token.Family() || db.rows[id].stored.token == token)
  }

  /** A browser logout takes exactly the rows of the token's family and the one that holds the token;
      every other session of the user, and of anyone else, stays. */
  lemma LogoutBrowserChanges(db: Db, token: Jwt, now: int)
    ensures var (db', outcome) := Apply(db, LogoutBrowser(token, now));
            && (outcome == LoggedOut <==>
                  && token in db.issued && token.user != 0 && now < token.expires && (token.session.Some? || token.jti.Some?)
                  && token.user in db.users && exists id :: RevokedBy(db, token, id))
            && (outcome != LoggedOut ==> db' == db)
            && db'.users == db.users && db'.issued == db.issued
            && (outcome == LoggedOut ==> OnlyGone(db, db', (id: nat) => RevokedBy(db, token, id)))
  {
    if Validates(db, token, now) && token.user in db.users {
      var hit := SessionRows(db.rows, token.user, token.Family().value, token);
      forall id ensures id in hit <==> RevokedBy(db, token, id) {
      }
      if id :| RevokedBy(db, token, id) {
        assert id in hit;
      }
    }
  }

  /** Logging out everywhere takes exactly the user's rows. */
  lemma LogoutChanges(db: Db, u: UserId)
    ensures var (db', outcome) := Apply(db, Logout(u));
            && (outcome == LoggedOut <==> u in db.users) && (outcome != LoggedOut ==> db' == db)
            && db'.users == db.users && db'.issued == db.issued
            && (outcome == LoggedOut ==> OnlyGone(db, db', id => id in db.rows && db.rows[id].user == u))
  {
  }

  /** A password is changed exactly if the old one was right and is still the user's; then the hash is
      one never used before, all of the user's rows are gone, and nothing else has changed. */
  lemma ChangePasswordChanges(db: Db, change: Op)
    requires Inv(db) && change.ChangePassword?
    ensures var (db', outcome) := Apply(db, change); var u := change.user;
            && (outcome == PasswordChanged(u) <==> change.matches && u in db.users && db.users[u].hash == change.snap.hash)
            && (outcome != PasswordChanged(u) ==> db' == db)
            && (outcome == PasswordChanged(u) ==>
                  && SameOtherUsers(db, db', u) && db'.issued == db.issued
                  && db'.users[u] == db.users[u].(hash := db'.users[u].hash)
                  && (forall v :: v in db.users ==> db.users[v].hash != db'.users[u].hash)
                  && OnlyGone(db, db', id => id in db.rows && db.rows[id].user == u))
  {
  }

  /** Nobody gets a session without the password: a user without rows has none after any run in which
      no request came with the right password. */
  lemma {:induction false} NoSessionWithoutPassword(db: Db, ops: seq<Op>, u: UserId)
    requires Inv(db) && forall id :: id in db.rows ==> db.rows[id].user != u
    requires forall i :: 0 <= i < |ops| && ops[i].Login? && ops[i].user == u ==> !ops[i].matches
    ensures forall id :: id in Run(db, ops).rows ==> Run(db, ops).rows[id].user != u
    decreases |ops|
  {
    if ops != [] {
      NewRowsComeFrom(db, ops[0]);
      ApplyKeepsInv(db, ops[0]);
      NoSessionWithoutPassword(Apply(db, ops[0]).0, ops[1..], u);
    }
  }

  /** A row that was not there comes from a login with the right password, or replaces the row that held
      the token that was exchanged for it. */
  lemma NewRowsComeFrom(db: Db, op: Op)
    requires Inv(db)
    ensures var db' := Apply(db, op).0;
            forall id :: id in db'.rows && (id in db.rows ==> db'.rows[id] != db.rows[id]) ==>
              || (op.Login? && op.matches && MayTry(db, op) && op.user == db'.rows[id].user && id !in db.rows)
              || (op.Refresh? && Some(id) == op.token.Family() && op.token.user == db'.rows[id].user
                  && exists before :: before in db.rows && db.rows[before].stored.token == op.token
                       && db.rows[before].user == db'.rows[id].user && before !in db'.rows - {id})
  {
    if op.Login? {
      LoginAnswers(db, op);
      if Apply(db, op).1 == LoggedIn(op.user) {
        SuccessChanges(db, op);
      } else if Apply(db, op).1 == LoginFailed(op.user) {
        FailureChanges(db, op);
      }
    } else if op.Refresh? {
      RefreshAnswers(db, op.token, op.now, op.expires);
      if Apply(db, op).1 == Refreshed(op.token) {
        var id :| id in RefreshHit(db, op.token, op.now);
        HitIsOneRow(db, op.token, op.now, id);
        assert RowOk(db, id);
      }
    }
  }

  // ---- the service ----

  /** The user and refresh-token tables.  Each public method is one request's transaction; it
      commits the whole of its step or, on an error, leaves the tables as they were. */
  class AuthStore {
    var users: map<UserId, User>
    var rows: map<nat, Row>
    var issued: set<Jwt>
    var next: nat

    ghost function State(): Db
      reads this
    {
      Db(users, rows, issued, next)
    }

    constructor (db: Db)
      ensures State() == db
    {
      users, rows, issued, next := db.users, db.rows, db.issued, db.next;
    }

    /** `RecordFailedLogin`: writes the two login columns and no others. */
    method RecordFailedLogin(u: UserId, failCount: nat, lockedUntil: Option<int>)
      requires u in users
      modifies `users
      ensures users == old(users)[u := User(old(users)[u].hash, failCount, lockedUntil)]
    {
      users := users[u := users[u].(failCount := failCount, lockedUntil := lockedUntil)];
    }

    /** `RecordSuccessfulLogin`. */
    method RecordSuccessfulLogin(u: UserId)
      requires u in users
      modifies `users
      ensures users == old(users)[u := User(old(users)[u].hash, 0, None)]
    {
      users := users[u := users[u].(failCount := 0, lockedUntil := None)];
    }

    /** A session id never used before. */
    method NewSession() returns (session: nat)
      requires forall id :: id in rows ==> id < next
      modifies `next
      ensures session == old(next) && next == session + 1 && session !in rows
    {
      session, next := next, next + 1;
    }

    /** `Consume`: deletes the matching unexpired row; `consumed` says that exactly one went. */
    method Consume(stored: Stored, user: UserId, now: int) returns (consumed: bool, verified: Hash)
      modifies `rows
      ensures var hit := Consumable(old(rows), stored, user, now);
              && rows == old(rows) - hit && (consumed <==> |hit| == 1)
              && (consumed ==> exists id :: hit == {id} && verified == old(rows)[id].verified)
    {
      var hit := Consumable(rows, stored, user, now);
      consumed, verified := |hit| == 1, 0;
      if consumed {
        var id :| id in hit;
        assert |hit - {id}| == 0;
        assert hit == {id};
        verified := rows[id].verified;
      }
      rows := rows - hit;
    }

    /** `DeleteSession`: the session's row and the row of the presented token. */
    method DeleteSession(user: UserId, session: nat, token: Jwt) returns (deleted: bool)
      modifies `rows
      ensures var hit := SessionRows(old(rows), user, session, token);
              rows == old(rows) - hit && (deleted <==> hit != {})
    {
      var hit := SessionRows(rows, user, session, token);
      rows := rows - hit;
      deleted := hit != {};
    }

    method DeleteByUserID(user: UserId)
      modifies `rows
      ensures rows == old(rows) - UserRows(old(rows), user)
    {
      rows := rows - UserRows(rows, user);
    }

    /** Signs a token and inserts its row; the primary key refuses a second row of a session. */
    method GenerateTokensForSession(user: UserId, session: nat, expires: int, verified: Hash) returns (created: bool)
      modifies `rows, `issued, `next
      ensures created <==> session !in old(rows)
      ensures created ==> State() == Issue(old(State()), user, session, expires, verified)
      ensures !created ==> rows == old(rows)
    {
      var token := Jwt(next, user, Some(session), Some(next), expires);
      issued, next := issued + {token}, next + 1;
      created := session !in rows;
      if created {
        rows := rows[session := Row(user, Hashed(token), expires, verified)];
      }
    }

    /** The transaction half of `Login`. */
    method Login(u: UserId, snap: User, matches: bool, before: int, now: int, expires: int) returns (outcome: Outcome)
      requires Inv(State())
      modifies this
      ensures Inv(State())
      ensures (State(), outcome) == LoginStep(old(State()), u, snap, matches, before, now, expires)
    {
      LoginKeepsInv(State(), u, snap, matches, before, now, expires);
      RowsBelowNext(State());
      if IsLocked(snap, before) {
        return Locked;
      }
      if u !in users {
        return NotFound;
      }
      var current := users[u];
      if current.hash != snap.hash {
        return InvalidPassword;
      }
      if IsLocked(current, now) {
        return Locked;
      }
      if !matches {
        var failCount, lockedUntil := current.failCount + 1, current.lockedUntil;
        if failCount >= MAX_FAILURES {
          lockedUntil := Some(now + LOCK_SECONDS);
        }
        RecordFailedLogin(u, failCount, lockedUntil);
        return LoginFailed(u);
      }
      RecordSuccessfulLogin(u);
      var session := NewSession();
      var created := GenerateTokensForSession(u, session, expires, current.hash);
      outcome := LoggedIn(u);
    }

    /** `RefreshToken`.  The insert of the successor row cannot fail: see `RefreshSucceeds`. */
    method RefreshToken(token: Jwt, now: int, expires: int) returns (outcome: Outcome)
      requires Inv(State())
      modifies this
      ensures Inv(State())
      ensures (State(), outcome) == RefreshStep(old(State()), token, now, expires)
    {
      RefreshKeepsInv(State(), token, now, expires);
      RefreshSucceeds(State(), token, now, expires);
      if !Validates(Db(users, rows, issued, next), token, now) {
        return InvalidToken;
      }
      if token.user !in users {
        return NotFound;
      }
      var before := rows;
      var consumed, verified := Consume(Hashed(token), token.user, now);
      if !consumed {
        NoTwoRows(old(State()), Hashed(token), now);
        assert rows == old(rows);
        consumed, verified := Consume(Plain(token), token.user, now);
      }
      if !consumed {
        NoTwoRows(old(State()), Plain(token), now);
        assert RefreshHit(old(State()), token, now) == {};
        rows := before;
        return InvalidToken;
      }
      assert rows == old(rows) - RefreshHit(old(State()), token, now);
      var created := GenerateTokensForSession(token.user, token.Family().value, expires, verified);
      outcome := Refreshed(token);
    }

    /** `LogoutBrowserSession`. */
    method LogoutBrowserSession(token: Jwt, now: int) returns (outcome: Outcome)
      requires Inv(State())
      modifies `rows
      ensures Inv(State())
      ensures (State(), outcome) == LogoutBrowserStep(old(State()), token, now)
    {
      ApplyKeepsInv(State(), Op.LogoutBrowser(token, now));
      if !Validates(Db(users, rows, issued, next), token, now) {
        return InvalidToken;
      }
      if token.user !in users {
        return NotFound;
      }
      var deleted := DeleteSession(token.user, token.Family().value, token);
      if !deleted {
        assert rows == old(rows);
        return InvalidToken;
      }
      outcome := LoggedOut;
    }

    method Logout(user: UserId) returns (outcome: Outcome)
      requires Inv(State())
      modifies `rows
      ensures Inv(State())
      ensures (State(), outcome) == LogoutStep(old(State()), user)
    {
      ApplyKeepsInv(State(), Op.Logout(user));
      if user !in users {
        return NotFound;
      }
      DeleteByUserID(user);
      outcome := LoggedOut;
    }

    /** The transaction half of `ChangePassword`; the new hash has never been used before. */
    method ChangePassword(user: UserId, snap: User, matches: bool) returns (outcome: Outcome)
      requires Inv(State())
      modifies this
      ensures Inv(State())
      ensures (State(), outcome) == ChangePasswordStep(old(State()), user, snap, matches)
    {
      ApplyKeepsInv(State(), Op.ChangePassword(user, snap, matches));
      if !matches {
        return InvalidPassword;
      }
      if user !in users {
        return NotFound;
      }
      if users[user].hash != snap.hash {
        return InvalidPassword;
      }
      users := users[user := users[user].(hash := next)];
      next := next + 1;
      DeleteByUserID(user);
      outcome := PasswordChanged(user);
    }
  }

  /** A column value is stored in at most one row, so a delete that did not remove exactly one
      row removed none. */
  lemma NoTwoRows(db: Db, stored: Stored, now: int)
    requires Inv(db)
    ensures var hit := Consumable(db.rows, stored, stored.token.user, now); |hit| == 1 || hit == {}
  {
    var hit := Consumable(db.rows, stored, stored.token.user, now);
    if hit != {} {
      var id :| id in hit;
      assert hit == {id};
    }
  }
}
