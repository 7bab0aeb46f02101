/**
 * Sessions and refresh tokens (`service/auth.go`, `store/session.go`): sign-up, sign-in, token
 * rotation and sign-out over the user and session tables. A run is a sequence of whole service
 * calls, each with a fresh random token. See section 6 of RFC 6749 on refresh tokens.
 */
module Sessions {
  import opened Text
  import opened Users
  import opened Wrappers

  /** A Go string: its length counts bytes. */
  type GoString = seq<byte>

  datatype Session = Session(id: nat, user: Uid, expiresAt: int, revoked: bool)

  /** The tables, with sessions keyed by their UNIQUE refresh token, and the database clock. */
  datatype Store = Store(users: map<Uid, User>, sessions: map<string, Session>, now: int)

  const THIRTY_DAYS: int := 30 * 24 * 60 * 60

  datatype Error =
    | PasswordRequired | WeakPassword | EmailAlreadyTaken
    | InvalidCredentials | UserBanned | UserNotFound

  /** What the random sources and the database draw for a new session. */
  datatype Draw = Draw(token: string, id: nat)

  // ----- specification ----------------------------------------------------------------------

  /** The rows that `GetSessionByRefreshToken` selects. */
  predicate Live(db: Store, token: string) {
    token in db.sessions && !db.sessions[token].revoked && db.sessions[token].expiresAt > db.now
  }

  function Revoked(sessions: map<string, Session>, id: nat): map<string, Session> {
    map t | t in sessions :: if sessions[t].id == id then sessions[t].(revoked := true) else sessions[t]
  }

  function WithSession(db: Store, user: Uid, draw: Draw): Store {
    db.(sessions := db.sessions[draw.token := Session(draw.id, user, db.now + THIRTY_DAYS, false)])
  }

  function Rotated(db: Store, token: string, draw: Draw): (Store, Result<string, Error>) {
    if !Live(db, token) then (db, Err(InvalidCredentials))
    else
      var session := db.sessions[token];
      var revoked := db.(sessions := Revoked(db.sessions, session.id));
      if session.user !in db.users then (revoked, Err(UserNotFound))
      else if db.users[session.user].banned then (revoked, Err(UserBanned))
      else (WithSession(revoked, session.user, draw), Ok(draw.token))
  }

  function SignedOut(db: Store, token: string): Store {
    if Live(db, token) then db.(sessions := Revoked(db.sessions, db.sessions[token].id)) else db
  }

  // ----- the service ------------------------------------------------------------------------

  class AuthService {
    var users: map<Uid, User>
    var sessions: map<string, Session>
    var now: int

    ghost function Db(): Store
      reads this
    {
      Store(users, sessions, now)
    }

    method GetSessionByRefreshToken(token: string) returns (session: Option<Session>)
      ensures session == if Live(Db(), token) then Some(sessions[token]) else None
    {
      if token in sessions && !sessions[token].revoked && sessions[token].expiresAt > now {
        session := Some(sessions[token]);
      } else {
        session := None;
      }
    }

    method RevokeSession(id: nat)
      modifies this`sessions
      ensures Db() == old(Db()).(sessions := Revoked(old(sessions), id))
    {
      sessions := Revoked(sessions, id);
    }

    /** `createTokenPair`: the part of it that touches the store. */
    method CreateTokenPair(user: Uid, draw: Draw) returns (token: string)
      modifies this`sessions
      ensures Db() == WithSession(old(Db()), user, draw) && token == draw.token
      ensures sessions == old(sessions)[draw.token := Session(draw.id, user, now + 2592000, false)]
    {
      sessions := sessions[draw.token := Session(draw.id, user, now + THIRTY_DAYS, false)];
      token := draw.token;
    }

    method SignUp(email: string, password: GoString, hash: GoString -> string, uid: Uid, draw: Draw)
      returns (r: Result<string, Error>)
      requires uid !in users
      modifies this
      ensures password == [] ==> r == Err(PasswordRequired)
      ensures 0 < |password| < 8 ==> r == Err(WeakPassword)
      ensures |password| >= 8 && (exists u :: HasEmail(old(users), u, email)) ==> r == Err(EmailAlreadyTaken)
      ensures r.Err? ==> Db() == old(Db())
      ensures r.Ok? ==> r == Ok(draw.token) && !(exists u :: HasEmail(old(users), u, email))
      ensures r.Ok? ==>
        Db() == WithSession(old(Db()).(users := old(users)[uid := NewUser(email, Some(hash(password)))]), uid, draw)
      ensures r.Ok? ==>
        && users == old(users)[uid := User(email, Some(hash(password)), false, false)] && now == old(now)
        && sessions == old(sessions)[draw.token := Session(draw.id, uid, now + 2592000, false)]
    {
      if password == [] {
        return Err(PasswordRequired);
      }
      if |password| < 8 {
        return Err(WeakPassword);
      }
      if u :| u in users && HasEmail(users, u, email) {
        return Err(EmailAlreadyTaken);
      }
      users := users[uid := NewUser(email, Some(hash(password)))];
      var token := CreateTokenPair(uid, draw);
      return Ok(token);
    }

    method SignIn(email: string, password: GoString, verify: (GoString, string) -> bool, draw: Draw)
      returns (r: Result<string, Error>)
      requires EmailsUnique(users)
      modifies this`sessions
      ensures r.Err? ==> Db() == old(Db())
      ensures r.Ok? ==> r == Ok(draw.token)
      ensures r.Ok? ==> exists u :: HasEmail(users, u, email) && Db() == WithSession(old(Db()), u, draw)
      ensures r.Ok? ==> exists u ::
        && HasEmail(users, u, email)
        && sessions == old(sessions)[draw.token := Session(draw.id, u, now + 2592000, false)]
      ensures r.Ok? <==> exists u ::
        && HasEmail(users, u, email) && !users[u].banned
        && users[u].password.Some? && verify(password, users[u].password.value)
      ensures r == Err(UserBanned) <==> exists u :: HasEmail(users, u, email) && users[u].banned
      ensures r.Err? ==> r.error == UserBanned || r.error == InvalidCredentials
    {
      if u :| u in users && HasEmail(users, u, email) {
        var user := users[u];
        if user.banned {
          return Err(UserBanned);
        }
        match user.password {
          case None => return Err(InvalidCredentials);
          case Some(stored) =>
            if !verify(password, stored) {
              return Err(InvalidCredentials);
            }
        }
        var token := CreateTokenPair(u, draw);
        return Ok(token);
      }
      return Err(InvalidCredentials);
    }

    method RefreshToken(token: string, draw: Draw) returns (r: Result<string, Error>)
      modifies this`sessions
      ensures (Db(), r) == Rotated(old(Db()), token, draw)
    {
      var session := GetSessionByRefreshToken(token);
      match session {
        case None =>
          return Err(InvalidCredentials);
        case Some(found) =>
          RevokeSession(found.id);
          if found.user !in users {
            return Err(UserNotFound);
          }
          if users[found.user].banned {
            return Err(UserBanned);
          }
          var renewed := CreateTokenPair(found.user, draw);
          return Ok(renewed);
      }
    }

    method SignOut(token: string)
      modifies this`sessions
      ensures Db() == SignedOut(old(Db()), token)
    {
      var session := GetSessionByRefreshToken(token);
      match session {
        case None =>
        case Some(found) => RevokeSession(found.id);
      }
    }
  }

  // ----- runs -------------------------------------------------------------------------------

  /** The calls and events of a run, and the tokens handed out so far. */
  datatype Op =
    | DoSignUp(email: string, hashed: string, uid: Uid, signUpDraw: Draw)
    | DoSignIn(user: Uid, signInDraw: Draw)
    | DoRefresh(token: string, refreshDraw: Draw)
    | DoSignOut(token: string)
    | DoBan(user: Uid, banned: bool)
    | DoDeleteUser(user: Uid)
    | DoTick(seconds: nat)

  datatype World = World(db: Store, issued: set<string>)

  function DrawOf(op: Op): Option<Draw> {
    match op
    case DoSignUp(_, _, _, draw) => Some(draw)
    case DoSignIn(_, draw) => Some(draw)
    case DoRefresh(_, draw) => Some(draw)
    case _ => None
  }

  /** The token was never handed out before, and no session has the id. */
  ghost predicate Fresh(w: World, op: Op) {
    DrawOf(op).Some? ==>
      && DrawOf(op).value.token !in w.issued
      && forall t :: t in w.db.sessions ==> w.db.sessions[t].id != DrawOf(op).value.id
  }

  function WithoutUser(db: Store, user: Uid): Store {
    db.(users := db.users - {user},
        sessions := map t | t in db.sessions && db.sessions[t].user != user :: db.sessions[t])
  }

  /** Calls that fail before they write anything leave the store as it is. */
  function Exec(w: World, op: Op): World {
    var db := w.db;
    match op
    case DoSignUp(email, hashed, uid, draw) =>
      if uid in db.users || exists u :: u in db.users && HasEmail(db.users, u, email) then w
      else World(WithSession(db.(users := db.users[uid := NewUser(email, Some(hashed))]), uid, draw), w.issued + {draw.token})
    case DoSignIn(user, draw) =>
      if user !in db.users || db.users[user].banned then w
      else World(WithSession(db, user, draw), w.issued + {draw.token})
    case DoRefresh(token, draw) =>
      var (after, r) := Rotated(db, token, draw);
      World(after, if r.Ok? then w.issued + {draw.token} else w.issued)
    case DoSignOut(token) => w.(db := SignedOut(db, token))
    case DoBan(user, banned) =>
      if user in db.users then w.(db := db.(users := db.users[user := db.users[user].(banned := banned)])) else w
    case DoDeleteUser(user) => w.(db := WithoutUser(db, user))
    case DoTick(seconds) => w.(db := db.(now := db.now + seconds))
  }

  ghost predicate Inv(w: World) {
    && (forall t :: t in w.db.sessions ==> t in w.issued && w.db.sessions[t].user in w.db.users)
    && (forall t, u :: t in w.db.sessions && u in w.db.sessions && w.db.sessions[t].id == w.db.sessions[u].id ==> t == u)
  }

  lemma ExecKeepsInv(w: World, op: Op)
    requires Inv(w) && Fresh(w, op)
    ensures Inv(Exec(w, op))
  {
    hide Rotated, Revoked, WithSession;
    match op
    case DoSignUp(email, hashed, uid, draw) =>
      AddedKeepsInv(w.(db := w.db.(users := w.db.users[uid := NewUser(email, Some(hashed))])), uid, draw);
    case DoSignIn(user, draw) =>
      if user in w.db.users {
        AddedKeepsInv(w, user, draw);
      }
    case DoRefresh(token, draw) => RotatedKeepsInv(w, token, draw);
    case DoSignOut(token) =>
      if Live(w.db, token) {
        RevokedKeepsInv(w, w.db.sessions[token].id);
      }
    case _ =>
  }

  lemma AddedKeepsInv(w: World, user: Uid, draw: Draw)
    requires Inv(w) && user in w.db.users
    requires forall t :: t in w.db.sessions ==> w.db.sessions[t].id != draw.id
    ensures Inv(World(WithSession(w.db, user, draw), w.issued + {draw.token}))
  {}

  lemma RevokedKeepsInv(w: World, id: nat)
    requires Inv(w)
    ensures Inv(w.(db := w.db.(sessions := Revoked(w.db.sessions, id))))
  {}

  lemma RotatedKeepsInv(w: World, token: string, draw: Draw)
    requires Inv(w) && Fresh(w, DoRefresh(token, draw))
    ensures Inv(Exec(w, DoRefresh(token, draw)))
  {
    if Live(w.db, token) {
      var session := w.db.sessions[token];
      var revoked := w.(db := w.db.(sessions := Revoked(w.db.sessions, session.id)));
      RevokedKeepsInv(w, session.id);
      AddedKeepsInv(revoked, session.user, draw);
    }
  }

  /** Rotation of a live token touches that one session, and adds one unless the user is banned. */
  lemma RotatedSessions(w: World, token: string, draw: Draw)
    requires Inv(w) && Live(w.db, token)
    ensures var (after, r) := Rotated(w.db, token, draw);
      var revoked := w.db.sessions[token := w.db.sessions[token].(revoked := true)];
      var user := w.db.sessions[token].user;
      && after.users == w.db.users && after.now == w.db.now
      && (r.Ok? <==> !w.db.users[user].banned) && (r.Err? ==> r == Err(UserBanned))
      && after.sessions == if r.Ok? then revoked[draw.token := Session(draw.id, user, w.db.now + 2592000, false)] else revoked
  {
    var session := w.db.sessions[token];
    assert Revoked(w.db.sessions, session.id) == w.db.sessions[token := session.(revoked := true)];
  }

  /** A sign-out with a live token revokes that one session and nothing else; a dead token changes nothing. */
  lemma SignedOutSessions(w: World, token: string)
    requires Inv(w)
    ensures SignedOut(w.db, token) == if Live(w.db, token)
      then w.db.(sessions := w.db.sessions[token := w.db.sessions[token].(revoked := true)]) else w.db
  {
    if Live(w.db, token) {
      var session := w.db.sessions[token];
      assert Revoked(w.db.sessions, session.id) == w.db.sessions[token := session.(revoked := true)];
    }
  }

  /** A token that was handed out and no longer opens a session. */
  ghost predicate Dead(w: World, token: string) {
    token in w.issued && !Live(w.db, token)
  }

  lemma StaysDead(w: World, op: Op, token: string)
    requires Inv(w) && Fresh(w, op) && Dead(w, token)
    ensures Dead(Exec(w, op), token)
  {
    if op.DoRefresh? && Live(w.db, op.token) {
      RotatedSessions(w, op.token, op.refreshDraw);
    }
  }

  /** Using a token, or signing out with it, kills it. */
  lemma UseKills(w: World, op: Op)
    requires Inv(w) && Fresh(w, op) && (op.DoRefresh? || op.DoSignOut?) && op.token in w.issued
    ensures Dead(Exec(w, op), op.token)
  {
    if op.DoRefresh? && Live(w.db, op.token) {
      RotatedSessions(w, op.token, op.refreshDraw);
    }
  }

  ghost predicate IsRun(run: seq<World>, ops: seq<Op>) {
    && |run| == |ops| + 1 && run[0].db.sessions == map[] && run[0].issued == {}
    && forall k :: 0 <= k < |ops| ==> Fresh(run[k], ops[k]) && run[k + 1] == Exec(run[k], ops[k])
  }

  lemma {:induction false} RunKeepsInv(run: seq<World>, ops: seq<Op>, k: nat)
    requires IsRun(run, ops) && k < |run|
    ensures Inv(run[k])
  {
    if k > 0 {
      RunKeepsInv(run, ops, k - 1);
      ExecKeepsInv(run[k - 1], ops[k - 1]);
    }
  }

  lemma {:induction false} DeadForever(run: seq<World>, ops: seq<Op>, k: nat, l: nat, token: string)
    requires IsRun(run, ops) && k <= l < |run| && Dead(run[k], token)
    ensures Dead(run[l], token)
    decreases l
  {
    if k < l {
      DeadForever(run, ops, k, l - 1, token);
      RunKeepsInv(run, ops, l - 1);
      StaysDead(run[l - 1], ops[l - 1], token);
    }
  }

  /** The k-th call of a run is a refresh with this token, and it succeeds. */
  ghost predicate Refreshes(run: seq<World>, ops: seq<Op>, k: nat, token: string)
    requires |run| == |ops| + 1 && k < |ops|
  {
    ops[k].DoRefresh? && ops[k].token == token && Rotated(run[k].db, token, ops[k].refreshDraw).1.Ok?
  }

  /**
   * Over every run, a refresh token succeeds at most once, and never after a sign-out with it
   * nor after it has expired.
   */
  lemma RefreshAtMostOnce(run: seq<World>, ops: seq<Op>, i: nat, j: nat, token: string)
    requires IsRun(run, ops) && i < j < |ops| && Refreshes(run, ops, j, token)
    ensures !Refreshes(run, ops, i, token)
    ensures ops[i] != DoSignOut(token) || token !in run[i].issued
    ensures token in run[i].db.sessions ==> run[i].db.sessions[token].expiresAt > run[i].db.now
  {
    RunKeepsInv(run, ops, i);
    if Refreshes(run, ops, i, token) || (ops[i] == DoSignOut(token) && token in run[i].issued) {
      UseKills(run[i], ops[i]);
      DeadForever(run, ops, i + 1, j, token);
    }
    if token in run[i].db.sessions && run[i].db.sessions[token].expiresAt <= run[i].db.now {
      DeadForever(run, ops, i, j, token);
    }
  }

  // ----- what a run can do ------------------------------------------------------------------

  /** A sign-up with a free email makes the user and a session, and a sign-in of an unbanned user a session. */
  lemma ArrivalOutcomes(w: World, email: string, hashed: string, uid: Uid, draw: Draw)
    ensures var after := Exec(w, DoSignUp(email, hashed, uid, draw));
      if uid !in w.db.users && forall u :: u in w.db.users ==> w.db.users[u].email != email then
        && after.db.users == w.db.users[uid := User(email, Some(hashed), false, false)]
        && after.db.sessions == w.db.sessions[draw.token := Session(draw.id, uid, w.db.now + 2592000, false)]
      else after == w
    ensures var after := Exec(w, DoSignIn(uid, draw));
      if uid in w.db.users && !w.db.users[uid].banned then
        && after.db.users == w.db.users
        && after.db.sessions == w.db.sessions[draw.token := Session(draw.id, uid, w.db.now + 2592000, false)]
      else after == w
  {
    assert forall u :: u in w.db.users ==> (HasEmail(w.db.users, u, email) <==> w.db.users[u].email == email);
  }

  /** The token of a sign-in can be refreshed for thirty days if the user is not banned, and not after a sign-out with it. */
  lemma NewTokenRefreshes(w: World, uid: Uid, draw: Draw, seconds: nat, next: Draw)
    requires Inv(w) && uid in w.db.users && !w.db.users[uid].banned
    requires Fresh(w, DoSignIn(uid, draw))
    ensures var later := Exec(Exec(w, DoSignIn(uid, draw)), DoTick(seconds));
      && (Rotated(later.db, draw.token, next).1 == Ok(next.token) <==> seconds < 2592000)
      && Rotated(SignedOut(later.db, draw.token), draw.token, next).1 == Err(InvalidCredentials)
  {
    var signedIn := Exec(w, DoSignIn(uid, draw));
    AddedKeepsInv(w, uid, draw);
  }

  // ----- active sessions --------------------------------------------------------------------

  function Active(db: Store, user: Uid): set<string> {
    set t | t in db.sessions && Live(db, t) && db.sessions[t].user == user
  }

  /**
   * A successful refresh replaces one active session by another, a refused one for a banned user
   * loses one, a refresh with a dead token changes nothing; other users keep theirs.
   */
  lemma RotationAndActiveSessions(w: World, token: string, draw: Draw, other: Uid)
    requires Inv(w) && Fresh(w, DoRefresh(token, draw))
    ensures var (after, r) := Rotated(w.db, token, draw);
      && (r.Ok? ==>
            var user := w.db.sessions[token].user;
            && Live(w.db, token) && Active(after, user) == Active(w.db, user) - {token} + {draw.token}
            && |Active(after, user)| == |Active(w.db, user)|
            && (other != user ==> Active(after, other) == Active(w.db, other)))
      && (r == Err(UserBanned) ==>
            var user := w.db.sessions[token].user;
            && Live(w.db, token) && Active(after, user) == Active(w.db, user) - {token}
            && |Active(after, user)| == |Active(w.db, user)| - 1
            && (other != user ==> Active(after, other) == Active(w.db, other)))
      && (r.Err? && r != Err(UserBanned) ==> r == Err(InvalidCredentials) && after == w.db)
  {
    if Live(w.db, token) {
      RotatedSessions(w, token, draw);
      var user := w.db.sessions[token].user;
      var revoked := w.db.(sessions := w.db.sessions[token := w.db.sessions[token].(revoked := true)]);
      var (after, r) := Rotated(w.db, token, draw);
      assert draw.token !in w.db.sessions;
      hide Rotated, Inv, Fresh;
      RevokedActive(w.db, token, other);
      if r.Ok? {
        assert after == WithSession(revoked, user, draw);
        AddedActive(revoked, user, draw, other);
      } else {
        assert after == revoked;
      }
    }
  }

  lemma RevokedActive(db: Store, token: string, other: Uid)
    requires Live(db, token)
    ensures var revoked := db.(sessions := db.sessions[token := db.sessions[token].(revoked := true)]);
      var user := db.sessions[token].user;
      && token in Active(db, user) && Active(revoked, user) == Active(db, user) - {token}
      && (other != user ==> Active(revoked, other) == Active(db, other))
  {}

  lemma AddedActive(db: Store, user: Uid, draw: Draw, other: Uid)
    requires draw.token !in db.sessions
    ensures var after := WithSession(db, user, draw);
      && draw.token !in Active(db, user) && Active(after, user) == Active(db, user) + {draw.token}
      && (other != user ==> Active(after, other) == Active(db, other))
  {}
}
