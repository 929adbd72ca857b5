/**
 The account tables and what one transaction does to them.

 Every transaction is one atomic step that is given its own clock reading.
 Tokens and sessions are named by the digest of their secret.
 */
module AccountModel {
  import opened Common

  type Hash = nat
  type Id = nat

  const LOGIN_BUDGET := 3

  /** All durations in seconds; DEPLOYED holds the program's constants. */
  datatype Config = Config(ttl: nat, window: nat, retention: nat, reservation: nat, sessionTTL: nat)

  const DEPLOYED := Config(15 * 60, 15 * 60, 7 * 86400, 90 * 86400, 30 * 86400)

  datatype Token = Token(email: string, createdAt: int, expiresAt: int, consumedAt: Option<int>)

  datatype State = PendingHandle | Active

  datatype User = User(email: string, handle: Option<string>, state: State, acceptedAt: Option<int>)

  datatype Session = Session(user: Id, createdAt: int, expiresAt: int, revokedAt: Option<int>)

  /** Reservations are keyed by lower-case handle. */
  datatype Db = Db(
    tokens: map<Hash, Token>, users: map<Id, User>, sessions: map<Hash, Session>, reserved: map<string, int>)

  const EMPTY := Db(map[], map[], map[], map[])

  // ------------------------------------------------------------ login tokens

  function RecentTokens(tokens: map<Hash, Token>, email: string, since: int): set<Hash> {
    set h | h in tokens && tokens[h].email == email && tokens[h].createdAt > since
  }

  function Invalidated(tokens: map<Hash, Token>, email: string, now: int): map<Hash, Token> {
    map h | h in tokens ::
      if tokens[h].email == email && tokens[h].consumedAt.None? then tokens[h].(consumedAt := Some(now)) else tokens[h]
  }

  predicate Usable(t: Token, now: int) {
    t.consumedAt.None? && t.expiresAt > now
  }

  // ------------------------------------------------------------------- users

  predicate HasEmail(users: map<Id, User>, id: Id, email: string) {
    id in users && Lower(users[id].email) == Lower(email)
  }

  ghost function Holder(users: map<Id, User>, email: string): Option<Id> {
    if exists id :: HasEmail(users, id, email) then
      var id :| HasEmail(users, id, email); Some(id)
    else
      None
  }

  predicate Holds(users: map<Id, User>, id: Id, handle: string) {
    id in users && users[id].handle.Some? && Lower(users[id].handle.value) == Lower(handle)
  }

  predicate Reserved(reserved: map<string, int>, handle: string, since: int) {
    Lower(handle) in reserved && reserved[Lower(handle)] > since
  }

  // ---------------------------------------------------------------- sessions

  predicate Live(s: Session, now: int) {
    s.revokedAt.None? && s.expiresAt > now
  }

  /** When a session stopped being any use: expiry or revocation, whichever came first. */
  function DeadSince(s: Session): int {
    match s.revokedAt
    case None => s.expiresAt
    case Some(r) => Min(s.expiresAt, r)
  }

  /** The latest of some readings, now that there is one more. */
  function Later(t: Option<int>, now: int): Option<int> {
    Some(if t.None? then now else Max(t.value, now))
  }

  // ------------------------------------------------------------ transactions

  datatype Op =
    | RequestLogin(email: string, hash: Hash, now: int)
    | CompleteLogin(hash: Hash, newId: Id, now: int)
    | Issue(id: Id, hash: Hash, now: int)
    | Lookup(hash: Hash, now: int)
    | Revoke(hash: Hash, now: int)
    | Claim(id: Id, handle: string, now: int)
    | Explain(id: Id, now: int)
    | Delete(id: Id, now: int)
    | PurgeTokens(now: int)
    | PurgeSessions(now: int)
    | PurgeHandles(now: int)
  {
    predicate Purge?() {
      PurgeTokens? || PurgeSessions? || PurgeHandles?
    }
  }

  datatype Answer =
    | Minted(hash: Hash)
    | OverBudget
    | SignedIn(id: Id, user: User)
    | InvalidToken
    | Issued(hash: Hash)
    | Resolved(id: Id)
    | InvalidSession
    | Claimed(user: User)
    | HandleTaken
    | NoRow
    | AlreadySet
    | NotFound
    | Done
    | ConstraintViolation

  function DoRequestLogin(c: Config, db: Db, email: string, hash: Hash, now: int): (Db, Answer) {
    if |RecentTokens(db.tokens, email, now - c.window)| >= LOGIN_BUDGET then (db, OverBudget)
    else if hash in db.tokens then (db, ConstraintViolation)
    else
      (db.(tokens := Invalidated(db.tokens, email, now)[hash := Token(email, now, now + c.ttl, None)]), Minted(hash))
  }

  ghost function DoCompleteLogin(db: Db, hash: Hash, newId: Id, now: int): (Db, Answer) {
    if hash !in db.tokens || !Usable(db.tokens[hash], now) then (db, InvalidToken)
    else
      var t := db.tokens[hash];
      var spent := db.(tokens := db.tokens[hash := t.(consumedAt := Some(now))]);
      match Holder(db.users, t.email)
      case Some(id) => (spent, SignedIn(id, db.users[id]))
      case None =>
        if newId in db.users then (db, ConstraintViolation)
        else
          var u := User(t.email, None, PendingHandle, None);
          (spent.(users := db.users[newId := u]), SignedIn(newId, u))
  }

  function DoIssue(c: Config, db: Db, id: Id, hash: Hash, now: int): (Db, Answer) {
    if id !in db.users || hash in db.sessions then (db, ConstraintViolation)
    else (db.(sessions := db.sessions[hash := Session(id, now, now + c.sessionTTL, None)]), Issued(hash))
  }

  function DoLookup(db: Db, hash: Hash, now: int): Answer {
    if hash in db.sessions && Live(db.sessions[hash], now) then Resolved(db.sessions[hash].user) else InvalidSession
  }

  function DoRevoke(db: Db, hash: Hash, now: int): (Db, Answer) {
    if hash !in db.sessions || db.sessions[hash].revokedAt.Some? then (db, Done)
    else if now < db.sessions[hash].createdAt then (db, ConstraintViolation)
    else (db.(sessions := db.sessions[hash := db.sessions[hash].(revokedAt := Some(now))]), Done)
  }

  /** The claim statement: a row that does not match is NoRow, a handle held by someone is HandleTaken. */
  ghost function DoClaim(c: Config, db: Db, id: Id, handle: string, now: int): (Db, Answer) {
    if id !in db.users || db.users[id].handle.Some? then (db, NoRow)
    else if Reserved(db.reserved, handle, now - c.reservation) then (db, NoRow)
    else if exists other :: Holds(db.users, other, handle) then (db, HandleTaken)
    else
      var u := db.users[id].(handle := Some(handle), state := Active, acceptedAt := Some(now));
      (db.(users := db.users[id := u]), Claimed(u))
  }

  /** The read that picks the error for a claim whose statement matched no row. */
  function DoExplain(db: Db, id: Id): Answer {
    if id !in db.users then NotFound
    else if db.users[id].handle.Some? then AlreadySet
    else HandleTaken
  }

  function DoDelete(db: Db, id: Id, now: int): (Db, Answer) {
    if id !in db.users then (db, NotFound)
    else
      var u := db.users[id];
      (Db(map h | h in db.tokens && Lower(db.tokens[h].email) != Lower(u.email) :: db.tokens[h],
          db.users - {id},
          map h | h in db.sessions && db.sessions[h].user != id :: db.sessions[h],
          if u.handle.Some? then db.reserved[Lower(u.handle.value) := now] else db.reserved),
       Done)
  }

  function PurgedTokens(c: Config, tokens: map<Hash, Token>, now: int): map<Hash, Token> {
    map h | h in tokens && !(tokens[h].expiresAt < now - c.retention) :: tokens[h]
  }

  function PurgedSessions(c: Config, sessions: map<Hash, Session>, now: int): map<Hash, Session> {
    map h | h in sessions && !(DeadSince(sessions[h]) < now - c.retention) :: sessions[h]
  }

  function PurgedHandles(c: Config, reserved: map<string, int>, now: int): map<string, int> {
    map k | k in reserved && !(reserved[k] < now - c.reservation) :: reserved[k]
  }

  ghost function Step(c: Config, db: Db, op: Op): (Db, Answer) {
    match op
    case RequestLogin(email, hash, now) => DoRequestLogin(c, db, email, hash, now)
    case CompleteLogin(hash, newId, now) => DoCompleteLogin(db, hash, newId, now)
    case Issue(id, hash, now) => DoIssue(c, db, id, hash, now)
    case Lookup(hash, now) => (db, DoLookup(db, hash, now))
    case Revoke(hash, now) => DoRevoke(db, hash, now)
    case Claim(id, handle, now) => DoClaim(c, db, id, handle, now)
    case Explain(id, now) => (db, DoExplain(db, id))
    case Delete(id, now) => DoDelete(db, id, now)
    case PurgeTokens(now) => (db.(tokens := PurgedTokens(c, db.tokens, now)), Done)
    case PurgeSessions(now) => (db.(sessions := PurgedSessions(c, db.sessions, now)), Done)
    case PurgeHandles(now) => (db.(reserved := PurgedHandles(c, db.reserved, now)), Done)
  }
}
