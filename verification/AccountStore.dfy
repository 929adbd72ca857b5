/**
 The account tables as the program changes them: statement by statement inside a
 transaction, each transaction proved against its step of AccountModel.
 */
module AccountStore {
  import opened Common
  import opened AccountModel

  class Store {
    const config: Config
    var tokens: map<Hash, Token>
    var users: map<Id, User>
    var sessions: map<Hash, Session>
    var reserved: map<string, int>

    ghost function Tables(): Db
      reads this
    {
      Db(tokens, users, sessions, reserved)
    }

    // The unique index on lower(email), and the foreign key of sessions.
    ghost predicate Valid()
      reads this
    {
      && (forall id, other | id in users && other in users && Lower(users[id].email) == Lower(users[other].email) ::
            id == other)
      && (forall h <- sessions :: sessions[h].user in users)
    }

    constructor (config: Config)
      ensures Valid() && Tables() == EMPTY && this.config == config
    {
      this.config := config;
      tokens, users, sessions, reserved := map[], map[], map[], map[];
    }

    // -------------------------------------------------- login token statements

    method CountRecentLoginTokens(email: string, now: int) returns (n: nat)
      ensures n == |RecentTokens(tokens, email, now - config.window)|
    {
      n := |RecentTokens(tokens, email, now - config.window)|;
    }

    method InvalidateLoginTokensForEmail(email: string, now: int)
      modifies this`tokens
      ensures tokens == Invalidated(old(tokens), email, now)
    {
      tokens := map h | h in tokens ::
        if tokens[h].email == email && tokens[h].consumedAt.None? then tokens[h].(consumedAt := Some(now))
        else tokens[h];
    }

    /** False is a violation of the unique index on the digest. */
    method CreateLoginToken(email: string, hash: Hash, now: int) returns (ok: bool)
      modifies this`tokens
      ensures ok <==> hash !in old(tokens)
      ensures tokens == if ok then old(tokens)[hash := Token(email, now, now + config.ttl, None)] else old(tokens)
    {
      ok := hash !in tokens;
      if ok {
        tokens := tokens[hash := Token(email, now, now + config.ttl, None)];
      }
    }

    method ConsumeLoginToken(hash: Hash, now: int) returns (email: Option<string>)
      modifies this`tokens
      ensures email == if hash in old(tokens) && Usable(old(tokens[hash]), now) then Some(old(tokens[hash].email))
                       else None
      ensures tokens == if email.None? then old(tokens)
                        else old(tokens)[hash := old(tokens[hash]).(consumedAt := Some(now))]
    {
      if hash !in tokens || tokens[hash].consumedAt.Some? || tokens[hash].expiresAt <= now {
        return None;
      }
      email := Some(tokens[hash].email);
      tokens := tokens[hash := tokens[hash].(consumedAt := Some(now))];
    }

    method DeleteLoginTokensForEmail(email: string)
      modifies this`tokens
      ensures tokens == map h | h in old(tokens) && Lower(old(tokens)[h].email) != Lower(email) :: old(tokens)[h]
    {
      tokens := map h | h in tokens && Lower(tokens[h].email) != Lower(email) :: tokens[h];
    }

    // --------------------------------------------------------- user statements

    /** None is a violation of the primary key by newId. */
    method UpsertUserByEmail(email: string, newId: Id) returns (id: Option<Id>)
      requires Valid()
      modifies this`users
      ensures Valid()
      ensures id.Some? ==> HasEmail(users, id.value, email)
      ensures match Holder(old(users), email)
              case Some(holder) => id == Some(holder) && users == old(users)
              case None =>
                if newId in old(users) then id == None && users == old(users)
                else id == Some(newId) && users == old(users)[newId := User(email, None, PendingHandle, None)]
    {
      if exists h :: h in users && HasEmail(users, h, email) {
        var holder :| holder in users && HasEmail(users, holder, email);
        return Some(holder);
      }
      assert Holder(users, email) == None;
      if newId in users {
        return None;
      }
      users := users[newId := User(email, None, PendingHandle, None)];
      return Some(newId);
    }

    method ReserveDeletedHandle(handle: string, at: int)
      modifies this`reserved
      ensures reserved == old(reserved)[Lower(handle) := at]
    {
      reserved := reserved[Lower(handle) := at];
    }

    /** Sessions go with their account. */
    method DeleteUser(id: Id)
      requires Valid()
      modifies this`users, this`sessions
      ensures Valid()
      ensures users == old(users) - {id}
      ensures sessions == map h | h in old(sessions) && old(sessions)[h].user != id :: old(sessions)[h]
    {
      users := users - {id};
      sessions := map h | h in sessions && sessions[h].user != id :: sessions[h];
    }

    // ------------------------------------------------------------ transactions

    method RequestLogin(email: string, hash: Hash, now: int) returns (a: Answer)
      requires Valid()
      modifies this
      ensures Valid() && (Tables(), a) == Step(config, old(Tables()), Op.RequestLogin(email, hash, now))
    {
      var before := tokens;
      var recent := CountRecentLoginTokens(email, now);
      if recent >= LOGIN_BUDGET {
        return OverBudget;
      }
      InvalidateLoginTokensForEmail(email, now);
      var ok := CreateLoginToken(email, hash, now);
      if !ok {
        tokens := before;  // rollback
        return ConstraintViolation;
      }
      return Minted(hash);
    }

    method CompleteLogin(hash: Hash, newId: Id, now: int) returns (a: Answer)
      requires Valid()
      modifies this
      ensures Valid() && (Tables(), a) == Step(config, old(Tables()), Op.CompleteLogin(hash, newId, now))
    {
      var before := tokens;
      var email := ConsumeLoginToken(hash, now);
      if email.None? {
        return InvalidToken;
      }
      var id := UpsertUserByEmail(email.value, newId);
      if id.None? {
        tokens := before;  // rollback
        return ConstraintViolation;
      }
      return SignedIn(id.value, users[id.value]);
    }

    method Issue(id: Id, hash: Hash, now: int) returns (a: Answer)
      requires Valid()
      modifies this`sessions
      ensures Valid() && (Tables(), a) == Step(config, old(Tables()), Op.Issue(id, hash, now))
    {
      if id !in users || hash in sessions {
        return ConstraintViolation;
      }
      sessions := sessions[hash := Session(id, now, now + config.sessionTTL, None)];
      return Issued(hash);
    }

    method Lookup(hash: Hash, now: int) returns (a: Answer)
      requires Valid()
      ensures a.Resolved? ==> a.id in users
      ensures (Tables(), a) == Step(config, Tables(), Op.Lookup(hash, now))
    {
      if hash !in sessions || sessions[hash].revokedAt.Some? || sessions[hash].expiresAt <= now {
        return InvalidSession;
      }
      return Resolved(sessions[hash].user);
    }

    method Revoke(hash: Hash, now: int) returns (a: Answer)
      requires Valid()
      modifies this`sessions
      ensures Valid() && (Tables(), a) == Step(config, old(Tables()), Op.Revoke(hash, now))
    {
      if hash in sessions && sessions[hash].revokedAt.None? {
        if now < sessions[hash].createdAt {
          return ConstraintViolation;  // CHECK: revoked_at >= created_at
        }
        sessions := sessions[hash := sessions[hash].(revokedAt := Some(now))];
      }
      return Done;
    }

    /** The claim statement and its unique index on lower(handle). */
    method ClaimHandle(id: Id, handle: string, now: int) returns (a: Answer)
      requires Valid()
      modifies this`users
      ensures Valid() && (Tables(), a) == Step(config, old(Tables()), Claim(id, handle, now))
    {
      if id !in users || users[id].handle.Some? {
        return NoRow;
      }
      var key := Lower(handle);
      if key in reserved && reserved[key] > now - config.reservation {
        return NoRow;
      }
      if exists other :: other in users && Holds(users, other, handle) {
        return HandleTaken;
      }
      var u := users[id].(handle := Some(handle), state := Active, acceptedAt := Some(now));
      users := users[id := u];
      return Claimed(u);
    }

    method ClaimRefusal(id: Id, now: int) returns (a: Answer)
      ensures (Tables(), a) == Step(config, Tables(), Explain(id, now))
    {
      if id !in users {
        return NotFound;
      }
      if users[id].handle.Some? {
        return AlreadySet;
      }
      return HandleTaken;
    }

    static lemma DeletedTables(before: Db, after: Db, id: Id, now: int)
      requires id in before.users
      requires after.users == before.users - {id}
      requires after.tokens
            == map h | h in before.tokens && Lower(before.tokens[h].email) != Lower(before.users[id].email) ::
                 before.tokens[h]
      requires after.sessions == map h | h in before.sessions && before.sessions[h].user != id :: before.sessions[h]
      requires after.reserved == if before.users[id].handle.None? then before.reserved
                                 else before.reserved[Lower(before.users[id].handle.value) := now]
      ensures after == DoDelete(before, id, now).0
    {
    }

    method DeleteAccount(id: Id, now: int) returns (a: Answer)
      requires Valid()
      modifies this
      ensures Valid() && (Tables(), a) == Step(config, old(Tables()), Delete(id, now))
    {
      if id !in users {
        return NotFound;
      }
      var u := users[id];
      if u.handle.Some? {
        ReserveDeletedHandle(u.handle.value, now);
      }
      DeleteLoginTokensForEmail(u.email);
      DeleteUser(id);
      DeletedTables(old(Tables()), Tables(), id, now);
      return Done;
    }

    // ------------------------------------------------------------------ purges

    method PurgeExpiredLoginTokens(now: int)
      requires Valid()
      modifies this`tokens
      ensures Valid() && Tables() == Step(config, old(Tables()), PurgeTokens(now)).0
    {
      tokens := map h | h in tokens && !(tokens[h].expiresAt < now - config.retention) :: tokens[h];
    }

    method PurgeExpiredSessions(now: int)
      requires Valid()
      modifies this`sessions
      ensures Valid() && Tables() == Step(config, old(Tables()), Op.PurgeSessions(now)).0
    {
      sessions := map h | h in sessions && !(DeadSince(sessions[h]) < now - config.retention) :: sessions[h];
    }

    method PurgeDeletedHandles(now: int)
      requires Valid()
      modifies this`reserved
      ensures Valid() && Tables() == Step(config, old(Tables()), Op.PurgeHandles(now)).0
    {
      reserved := map k | k in reserved && !(reserved[k] < now - config.reservation) :: reserved[k];
    }

    /** One turn of the purge loop: a purge that fails ends the turn; `done` of the three succeed. */
    method Purge(now: (int, int, int), done: nat)
      requires Valid()
      modifies this
      ensures Valid()
      ensures
        var d0 := old(Tables());
        var d1 := Step(config, d0, Op.PurgeTokens(now.0)).0;
        var d2 := Step(config, d1, Op.PurgeSessions(now.1)).0;
        Tables() == if done == 0 then d0 else if done == 1 then d1 else if done == 2 then d2
                    else Step(config, d2, Op.PurgeHandles(now.2)).0
    {
      if done == 0 { return; }
      PurgeExpiredLoginTokens(now.0);
      if done == 1 { return; }
      PurgeExpiredSessions(now.1);
      if done == 2 { return; }
      PurgeDeletedHandles(now.2);
    }
  }
}
