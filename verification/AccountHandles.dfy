/**
 Handles and sessions over whole runs: who holds a handle, how long it stays
 reserved after its holder is deleted, and when a session stops working for good.
 */
module AccountHandles {
  import opened Common
  import opened AccountModel
  import opened AccountWorld
  import AccountLogin

  // ------------------------------------------------------------ the invariant

  /** An account is active exactly when it has a handle, and then it has accepted the terms. */
  ghost predicate ActiveIffNamed(w: World) {
    forall id <- w.db.users ::
      && (w.db.users[id].state.Active? <==> w.db.users[id].handle.Some?)
      && (w.db.users[id].acceptedAt.Some? <==> w.db.users[id].handle.Some?)
  }

  ghost predicate SameHandle(u: User, v: User) {
    u.handle.Some? && v.handle.Some? && Lower(u.handle.value) == Lower(v.handle.value)
  }

  ghost predicate Distinct(w: World) {
    forall id, other | id in w.db.users && other in w.db.users && id != other ::
      && !SameHandle(w.db.users[id], w.db.users[other])
      && !SameAddress(w.db.users[id].email, w.db.users[other].email)
  }

  /** A purge since the release found the reservation out of date. */
  ghost predicate ReservationPurged(c: Config, w: World, k: string)
    requires k in w.released
  {
    k in w.handlePurges && w.released[k] < w.handlePurges[k] - c.reservation
  }

  /** What is reserved is what was released, from then on, until such a purge. */
  ghost predicate ReleasedIsReserved(c: Config, w: World) {
    && (forall k <- w.db.reserved :: k in w.released && w.db.reserved[k] == w.released[k])
    && (forall k <- w.released :: k in w.db.reserved <==> !ReservationPurged(c, w, k))
  }

  ghost predicate SessionsBelong(c: Config, w: World) {
    && (forall h <- w.db.sessions ::
          && h in w.issued && w.issued[h] == w.db.sessions[h].user
          && w.db.sessions[h].user in w.db.users
          && w.db.sessions[h].expiresAt == w.db.sessions[h].createdAt + c.sessionTTL)
    && (forall h <- w.issued :: w.issued[h] in w.ids)
  }

  ghost predicate Valid(c: Config, w: World) {
    && w.db.users.Keys <= w.ids
    && ActiveIffNamed(w) && Distinct(w)
    && ReleasedIsReserved(c, w) && SessionsBelong(c, w)
  }

  lemma SignUpKeepsDistinct(users: map<Id, User>, w: World, newId: Id, email: string)
    requires users == w.db.users && Distinct(w) && newId !in users && Holder(users, email).None?
    ensures Distinct(w.(db := w.db.(users := users[newId := User(email, None, PendingHandle, None)])))
  {
    assert forall id <- users :: !HasEmail(users, id, email);
  }

  ghost predicate SameReservations(w: World, w': World) {
    w'.db.reserved == w.db.reserved && w'.released == w.released && w'.handlePurges == w.handlePurges
  }

  lemma LoginLeavesTheRest(c: Config, w: World, op: Op)
    requires op.CompleteLogin?
    ensures
      var w' := Next(c, w, op);
      SameReservations(w, w') && w'.db.sessions == w.db.sessions && w'.issued == w.issued
  {
  }

  /** A login either leaves the accounts alone or adds one with a new id and a new address. */
  lemma LoginAccounts(c: Config, w: World, op: Op)
    requires w.db.users.Keys <= w.ids && op.CompleteLogin? && Fresh(w, op)
    ensures
      var w' := Next(c, w, op);
      || (w'.db.users == w.db.users && w.ids <= w'.ids && w'.db.users.Keys <= w'.ids)
      || (op.hash in w.db.tokens && Holder(w.db.users, w.db.tokens[op.hash].email).None?
          && w'.db.users == w.db.users[op.newId := User(w.db.tokens[op.hash].email, None, PendingHandle, None)]
          && w'.ids == w.ids + {op.newId})
  {
    hide Next, Holder;
    LoginIsLogged(c, w, op);
    LoginUsers(w.db, op.hash, op.newId, op.now);
  }

  lemma LoginUsers(db: Db, hash: Hash, newId: Id, now: int)
    ensures
      var r := DoCompleteLogin(db, hash, newId, now);
      || (r.0.users == db.users && (r.1.SignedIn? ==> r.1.id in db.users))
      || (hash in db.tokens && Holder(db.users, db.tokens[hash].email).None? && r.1.SignedIn? && r.1.id == newId
          && r.0.users == db.users[newId := User(db.tokens[hash].email, None, PendingHandle, None)])
  {
  }

  lemma LoginIsLogged(c: Config, w: World, op: Op)
    requires op.CompleteLogin?
    ensures
      var w', r := Next(c, w, op), DoCompleteLogin(w.db, op.hash, op.newId, op.now);
      w'.db == r.0 && w'.ids == if r.1.SignedIn? then w.ids + {r.1.id} else w.ids
  {
  }

  lemma LoginKeepsValid(c: Config, w: World, op: Op)
    requires Valid(c, w) && op.CompleteLogin? && Fresh(w, op)
    ensures Valid(c, Next(c, w, op))
  {
    hide Next;
    LoginLeavesTheRest(c, w, op);
    LoginAccounts(c, w, op);
    var w' := Next(c, w, op);
    if w'.db.users != w.db.users {
      SignUpKeepsDistinct(w.db.users, w, op.newId, w.db.tokens[op.hash].email);
      assert Distinct(w');
    }
  }

  lemma ClaimKeepsValid(c: Config, w: World, op: Op)
    requires Valid(c, w) && op.Claim?
    ensures Valid(c, Next(c, w, op))
  {
    if Step(c, w.db, op).1.Claimed? {
      assert forall id <- w.db.users :: !Holds(w.db.users, id, op.handle);
    }
  }

  lemma DeleteKeepsAccounts(c: Config, w: World, op: Op)
    requires Valid(c, w) && op.Delete?
    ensures
      var w' := Next(c, w, op);
      w'.db.users.Keys <= w'.ids && ActiveIffNamed(w') && Distinct(w') && SessionsBelong(c, w')
  {
  }

  lemma DeleteKeepsReservations(c: Config, w: World, op: Op)
    requires ReleasedIsReserved(c, w) && op.Delete?
    ensures ReleasedIsReserved(c, Next(c, w, op))
  {
  }

  lemma DeleteKeepsValid(c: Config, w: World, op: Op)
    requires Valid(c, w) && op.Delete?
    ensures Valid(c, Next(c, w, op))
  {
    hide Next;
    DeleteKeepsAccounts(c, w, op);
    DeleteKeepsReservations(c, w, op);
  }

  lemma SessionLeavesTheRest(c: Config, w: World, op: Op)
    requires op.Issue? || op.Revoke? || op.PurgeSessions?
    ensures
      var w' := Next(c, w, op);
      SameReservations(w, w') && w'.db.users == w.db.users && w'.ids == w.ids
  {
  }

  lemma SessionKeepsBelonging(c: Config, w: World, op: Op)
    requires w.db.users.Keys <= w.ids && SessionsBelong(c, w) && Fresh(w, op)
    requires op.Issue? || op.Revoke? || op.PurgeSessions?
    ensures SessionsBelong(c, Next(c, w, op))
  {
  }

  lemma SessionKeepsValid(c: Config, w: World, op: Op)
    requires Valid(c, w) && Fresh(w, op) && (op.Issue? || op.Revoke? || op.PurgeSessions?)
    ensures Valid(c, Next(c, w, op))
  {
    hide Next, SessionsBelong;
    SessionLeavesTheRest(c, w, op);
    SessionKeepsBelonging(c, w, op);
  }

  lemma PurgeKeepsValid(c: Config, w: World, op: Op)
    requires Valid(c, w) && op.PurgeHandles?
    ensures Valid(c, Next(c, w, op))
  {
  }

  lemma OtherLeavesTheRest(c: Config, w: World, op: Op)
    requires op.RequestLogin? || op.Lookup? || op.Explain? || op.PurgeTokens?
    ensures
      var w' := Next(c, w, op);
      && SameReservations(w, w') && w'.db.users == w.db.users && w'.ids == w.ids
      && w'.db.sessions == w.db.sessions && w'.issued == w.issued
  {
  }

  lemma OtherKeepsValid(c: Config, w: World, op: Op)
    requires Valid(c, w) && (op.RequestLogin? || op.Lookup? || op.Explain? || op.PurgeTokens?)
    ensures Valid(c, Next(c, w, op))
  {
    hide Next;
    OtherLeavesTheRest(c, w, op);
  }

  lemma StepKeepsValid(c: Config, w: World, op: Op)
    requires Valid(c, w) && Fresh(w, op)
    ensures Valid(c, Next(c, w, op))
  {
    match op
    case CompleteLogin(_, _, _) => LoginKeepsValid(c, w, op);
    case Claim(_, _, _) => ClaimKeepsValid(c, w, op);
    case Delete(_, _) => DeleteKeepsValid(c, w, op);
    case Issue(_, _, _) => SessionKeepsValid(c, w, op);
    case Revoke(_, _) => SessionKeepsValid(c, w, op);
    case PurgeSessions(_) => SessionKeepsValid(c, w, op);
    case PurgeHandles(_) => PurgeKeepsValid(c, w, op);
    case _ => OtherKeepsValid(c, w, op);
  }

  lemma {:induction false} RunKeepsValid(c: Config, w: World, ops: seq<Op>)
    requires Valid(c, w) && FreshRun(c, w, ops)
    ensures Valid(c, Run(c, w, ops))
    decreases |ops|
  {
    if ops != [] {
      StepKeepsValid(c, w, ops[0]);
      RunKeepsValid(c, Next(c, w, ops[0]), ops[1..]);
    }
  }

  // ---------------------------------------------------------------- accounts

  /** What the store promises about accounts in every reachable state. */
  lemma AccountsAreSound(c: Config, ops: seq<Op>, id: Id, other: Id)
    requires FreshRun(c, START, ops)
    requires id in Run(c, START, ops).db.users && other in Run(c, START, ops).db.users
    ensures
      var users := Run(c, START, ops).db.users;
      && (users[id].state == Active <==> users[id].handle.Some?)
      && (SameHandle(users[id], users[other]) ==> id == other)
      && (SameAddress(users[id].email, users[other].email) ==> id == other)
  {
    var w := Run(c, START, ops);
    RunKeepsValid(c, START, ops);
    if id != other {
      assert !SameHandle(w.db.users[id], w.db.users[other]);
    }
  }

  lemma StepKeepsIds(c: Config, w: World, op: Op, id: Id)
    requires w.db.users.Keys <= w.ids && id in w.ids && Fresh(w, op)
    ensures id in Next(c, w, op).ids && Next(c, w, op).db.users.Keys <= Next(c, w, op).ids
    ensures id !in w.db.users ==> id !in Next(c, w, op).db.users
  {
    if op.CompleteLogin? {
      LoginAccounts(c, w, op);
    }
  }

  lemma StepKeepsHandle(c: Config, w: World, op: Op, id: Id)
    requires id in w.db.users && id in Next(c, w, op).db.users && w.db.users[id].handle.Some?
    requires w.db.users.Keys <= w.ids && Fresh(w, op)
    ensures Next(c, w, op).db.users[id].handle == w.db.users[id].handle
  {
    if op.CompleteLogin? {
      LoginAccounts(c, w, op);
    }
  }

  /** No transaction but its own claim touches an account that it leaves in the table. */
  lemma OnlyClaimsChangeAccounts(c: Config, w: World, op: Op, id: Id)
    requires w.db.users.Keys <= w.ids && Fresh(w, op) && id in w.db.users && !(op.Claim? && op.id == id)
    ensures id !in Next(c, w, op).db.users <==> op.Delete? && op.id == id
    ensures id in Next(c, w, op).db.users ==> Next(c, w, op).db.users[id] == w.db.users[id]
  {
    if op.CompleteLogin? {
      LoginAccounts(c, w, op);
    }
  }

  /**
   A handle is written once: an account that has one keeps it until it is deleted,
   and a deleted account never comes back.
   */
  lemma {:induction false} HandleIsWriteOnce(c: Config, w: World, ops: seq<Op>, id: Id)
    requires w.db.users.Keys <= w.ids && id in w.ids && FreshRun(c, w, ops)
    ensures id !in w.db.users ==> id !in Run(c, w, ops).db.users
    ensures (id in w.db.users && id in Run(c, w, ops).db.users && w.db.users[id].handle.Some?) ==>
              Run(c, w, ops).db.users[id].handle == w.db.users[id].handle
    decreases |ops|
  {
    if ops != [] {
      hide Next, Fresh;
      StepKeepsIds(c, w, ops[0], id);
      if id in w.db.users && id in Next(c, w, ops[0]).db.users && w.db.users[id].handle.Some? {
        StepKeepsHandle(c, w, ops[0], id);
      }
      HandleIsWriteOnce(c, Next(c, w, ops[0]), ops[1..], id);
    }
  }

  /**
   Main result: exactly when a link completes a login, in every reachable state, whatever
   the clocks read: it is the last one minted for its address since its account was last
   deleted, no login has spent it, it has not expired, and no purge since
   has read past its retention.
   */
  lemma LoginSucceedsIff(c: Config, ops: seq<Op>, login: Op)
    requires FreshRun(c, START, ops) && login.CompleteLogin? && login.newId !in Run(c, START, ops).ids
    ensures
      var w, h := Run(c, START, ops), login.hash;
      Step(c, w.db, login).1.SignedIn? <==>
        && h in w.mints && w.mints[h].email in w.last && w.last[w.mints[h].email] == h
        && h !in w.spends && login.now < w.mints[h].at + c.ttl
        && (h in w.linkPurges ==> w.linkPurges[h] <= w.mints[h].at + c.ttl + c.retention)
  {
    AccountLogin.RunKeepsValid(c, START, ops);
    RunKeepsValid(c, START, ops);
    UsableIff(c, Run(c, START, ops), login.hash, login.now);
  }

  lemma UsableIff(c: Config, w: World, h: Hash, now: int)
    requires AccountLogin.Valid(c, w)
    ensures h in w.db.tokens && Usable(w.db.tokens[h], now) <==>
              && h in w.mints && w.mints[h].email in w.last && w.last[w.mints[h].email] == h
              && h !in w.spends && now < w.mints[h].at + c.ttl
              && (h in w.linkPurges ==> w.linkPurges[h] <= w.mints[h].at + c.ttl + c.retention)
  {
    if h in w.mints && h !in w.erased {
      assert h in w.db.tokens <==> !AccountLogin.PurgedSince(c, w, h);
    }
  }

  /** And it signs in to the account of its address, a new one if there is none. */
  lemma LoginFindsAccount(c: Config, ops: seq<Op>, login: Op)
    requires FreshRun(c, START, ops) && login.CompleteLogin?
    requires Step(c, Run(c, START, ops).db, login).1.SignedIn?
    ensures
      var w, a := Run(c, START, ops), Step(c, Run(c, START, ops).db, login).1;
      && login.hash in w.mints && HasEmail(Next(c, w, login).db.users, a.id, w.mints[login.hash].email)
      && forall id | HasEmail(w.db.users, id, w.mints[login.hash].email) :: id == a.id && w.db.users[id] == a.user
  {
    var w := Run(c, START, ops);
    AccountLogin.RunKeepsValid(c, START, ops);
    RunKeepsValid(c, START, ops);
    var email := w.db.tokens[login.hash].email;
    forall id, other | HasEmail(w.db.users, id, email) && id != other ensures !HasEmail(w.db.users, other, email) {
      AddressHasOneHolder(w, id, other, email);
    }
  }

  /** The new account is the one change to the accounts, and has no handle yet; a known address changes none. */
  lemma LoginSignsUp(c: Config, ops: seq<Op>, login: Op)
    requires FreshRun(c, START, ops) && login.CompleteLogin? && login.newId !in Run(c, START, ops).ids
    requires Step(c, Run(c, START, ops).db, login).1.SignedIn?
    ensures login.hash in Run(c, START, ops).mints
    ensures
      var w, a := Run(c, START, ops), Step(c, Run(c, START, ops).db, login).1;
      var users := Next(c, w, login).db.users;
      if exists id :: HasEmail(w.db.users, id, w.mints[login.hash].email) then
        users == w.db.users && a.id in users
      else
        && a == SignedIn(login.newId, User(w.mints[login.hash].email, None, PendingHandle, None))
        && users == w.db.users[a.id := a.user]
  {
    var w := Run(c, START, ops);
    AccountLogin.RunKeepsValid(c, START, ops);
    LoginAnswers(c, w, login);
    NextTables(c, w, login);
    hide *;
  }

  lemma LoginAnswers(c: Config, w: World, login: Op)
    requires login.CompleteLogin? && Step(c, w.db, login).1.SignedIn? && AccountLogin.TokensAreMints(c, w)
    ensures login.hash in w.mints
    ensures
      var r, email := Step(c, w.db, login), w.mints[login.hash].email;
      if exists id :: HasEmail(w.db.users, id, email) then
        r.0.users == w.db.users && r.1.id in w.db.users
      else
        && r.1 == SignedIn(login.newId, User(email, None, PendingHandle, None))
        && r.0.users == w.db.users[r.1.id := r.1.user]
  {
  }

  lemma NextTables(c: Config, w: World, op: Op)
    ensures Next(c, w, op).db == Step(c, w.db, op).0
  {
  }

  /** The purges since the link was minted were at most `lead` ahead of the login. */
  ghost predicate PurgesLead(w: World, h: Hash, now: int, lead: int) {
    h in w.linkPurges ==> w.linkPurges[h] <= now + lead
  }

  /** The last link sent to an address signs its owner in until it expires, unless a login has spent it. */
  ghost predicate LastLinkWorks(c: Config, lead: int) {
    forall ops: seq<Op>, login: Op |
      && FreshRun(c, START, ops) && Waiting(c, Run(c, START, ops), login)
      && PurgesLead(Run(c, START, ops), login.hash, login.now, lead) ::
      Step(c, Run(c, START, ops).db, login).1.SignedIn?
  }

  /** A login with the last link of some address, unspent and unexpired. */
  ghost predicate Waiting(c: Config, w: World, login: Op) {
    && login.CompleteLogin? && login.newId !in w.ids && login.hash in w.mints
    && w.mints[login.hash].email in w.last && w.last[w.mints[login.hash].email] == login.hash
    && login.hash !in w.spends && login.now < w.mints[login.hash].at + c.ttl
  }

  lemma LastLinkSignsIn(c: Config, ops: seq<Op>, login: Op, lead: int)
    requires FreshRun(c, START, ops) && Waiting(c, Run(c, START, ops), login)
    requires PurgesLead(Run(c, START, ops), login.hash, login.now, lead) && lead <= c.retention + 1
    ensures Step(c, Run(c, START, ops).db, login).1.SignedIn?
  {
    LoginSucceedsIff(c, ops, login);
  }

  lemma AddressHasOneHolder(w: World, id: Id, other: Id, email: string)
    requires Distinct(w) && HasEmail(w.db.users, id, email) && id != other
    ensures !HasEmail(w.db.users, other, email)
  {
  }

  lemma {:induction false} RunAppend(c: Config, w: World, xs: seq<Op>, ys: seq<Op>)
    ensures Run(c, w, xs + ys) == Run(c, Run(c, w, xs), ys)
    ensures FreshRun(c, w, xs + ys) <==> FreshRun(c, w, xs) && FreshRun(c, Run(c, w, xs), ys)
    decreases |xs|
  {
    if xs == [] {
      assert xs + ys == ys;
    } else {
      assert (xs + ys)[0] == xs[0] && (xs + ys)[1..] == xs[1..] + ys;
      RunAppend(c, Next(c, w, xs[0]), xs[1..], ys);
    }
  }

  /** A run around one transaction. */
  lemma RunAround(c: Config, before: seq<Op>, op: Op, later: seq<Op>)
    requires FreshRun(c, START, before + [op] + later)
    ensures
      var w := Run(c, START, before);
      && FreshRun(c, START, before) && Fresh(w, op) && FreshRun(c, Next(c, w, op), later)
      && Run(c, START, before + [op]) == Next(c, w, op)
      && Run(c, START, before + [op] + later) == Run(c, Next(c, w, op), later)
  {
    var w := Run(c, START, before);
    RunAppend(c, START, before + [op], later);
    RunAppend(c, START, before, [op]);
    RunOne(c, w, op);
  }

  lemma RunOne(c: Config, w: World, op: Op)
    ensures Run(c, w, [op]) == Next(c, w, op) && (FreshRun(c, w, [op]) <==> Fresh(w, op))
  {
    assert [op][1..] == [];
  }

  // ---------------------------------------------------------------- deletion

  /** Main result: a link minted before its account was deleted completes no login in any continuation. */
  lemma DeletedLinksStayDead(c: Config, before: seq<Op>, op: Op, later: seq<Op>, login: Op)
    requires FreshRun(c, START, before + [op] + later) && op.Delete? && login.CompleteLogin?
    requires
      var w := Run(c, START, before);
      && op.id in w.db.users && login.hash in w.mints
      && SameAddress(w.mints[login.hash].email, w.db.users[op.id].email)
    ensures Step(c, Run(c, START, before + [op] + later).db, login).1.InvalidToken?
  {
    var w := Run(c, START, before);
    RunAround(c, before, op, later);
    assert login.hash in Next(c, w, op).erased;
    ErasedForGood(c, Next(c, w, op), later, login.hash);
    AccountLogin.RunKeepsValid(c, START, before + [op] + later);
  }

  lemma ErasedStays(c: Config, w: World, op: Op, hash: Hash)
    requires hash in w.erased
    ensures hash in Next(c, w, op).erased
  {
  }

  lemma {:induction false} ErasedForGood(c: Config, w: World, ops: seq<Op>, hash: Hash)
    requires hash in w.erased
    ensures hash in Run(c, w, ops).erased
    decreases |ops|
  {
    if ops != [] {
      hide Next;
      ErasedStays(c, w, ops[0], hash);
      ErasedForGood(c, Next(c, w, ops[0]), ops[1..], hash);
    }
  }

  // ------------------------------------------------------------- reservations

  /** The latest purge since the release was at most `skew` ahead of the claim. */
  ghost predicate PurgesAhead(w: World, claim: Op, skew: int)
    requires claim.Claim?
  {
    var k := Lower(claim.handle);
    k in w.handlePurges ==> w.handlePurges[k] <= claim.now + skew
  }

  /** After its holder is deleted, a handle is held back for the reservation less what a purge clock runs ahead. */
  lemma ReservationHolds(c: Config, ops: seq<Op>, claim: Op, skew: int)
    requires FreshRun(c, START, ops) && claim.Claim?
    requires
      var w := Run(c, START, ops);
      Lower(claim.handle) in w.released && PurgesAhead(w, claim, skew) && Step(c, w.db, claim).1.Claimed?
    ensures claim.now >= Run(c, START, ops).released[Lower(claim.handle)] + c.reservation - Max(0, skew - 1)
  {
    RunKeepsValid(c, START, ops);
  }

  /** No handle is claimed earlier than `loss` before its reservation is over, purges being at most `skew` ahead. */
  ghost predicate HeldBack(c: Config, skew: int, loss: int) {
    forall ops: seq<Op>, claim: Op |
      && FreshRun(c, START, ops) && claim.Claim?
      && Lower(claim.handle) in Run(c, START, ops).released && PurgesAhead(Run(c, START, ops), claim, skew)
      && Step(c, Run(c, START, ops).db, claim).1.Claimed? ::
      claim.now >= Run(c, START, ops).released[Lower(claim.handle)] + c.reservation - loss
  }

  /**
   Main result: exactly when a claim succeeds, in every reachable state, whatever the clocks
   read: the account has no handle yet, nobody holds this one in any spelling, and its last
   holder, if any, was deleted at least the reservation ago, be it by the claim's reading or
   by that of a purge since, which must then be past it.
   */
  lemma ClaimSucceedsIff(c: Config, ops: seq<Op>, claim: Op)
    requires FreshRun(c, START, ops) && claim.Claim?
    ensures
      var w, k := Run(c, START, ops), Lower(claim.handle);
      Step(c, w.db, claim).1.Claimed? <==>
        && claim.id in w.db.users && w.db.users[claim.id].handle.None?
        && (forall other :: !Holds(w.db.users, other, claim.handle))
        && (k in w.released ==>
              || claim.now >= w.released[k] + c.reservation
              || (k in w.handlePurges && w.handlePurges[k] > w.released[k] + c.reservation))
  {
    RunKeepsValid(c, START, ops);
    ReservedIff(c, Run(c, START, ops), claim.handle, claim.now);
  }

  /** What a claim answers: its statement's answer, or that of the read that explains why it matched no row. */
  ghost function Told(c: Config, db: Db, claim: Op): Answer
    requires claim.Claim?
  {
    var a := Step(c, db, claim).1;
    if a.NoRow? then Step(c, db, Explain(claim.id, claim.now)).1 else a
  }

  /** Main result: what an account is told about its claim, case by case, in every reachable state. */
  lemma ClaimTells(c: Config, ops: seq<Op>, claim: Op)
    requires FreshRun(c, START, ops) && claim.Claim?
    ensures
      var w, k := Run(c, START, ops), Lower(claim.handle);
      var told := Told(c, w.db, claim);
      var reserved := && k in w.released && claim.now < w.released[k] + c.reservation
                      && (k in w.handlePurges ==> w.handlePurges[k] <= w.released[k] + c.reservation);
      if claim.id !in w.db.users then told == NotFound
      else if w.db.users[claim.id].handle.Some? then told == AlreadySet
      else if reserved || exists other :: Holds(w.db.users, other, claim.handle) then told == HandleTaken
      else told == Claimed(w.db.users[claim.id].(handle := Some(claim.handle), state := Active,
                                                 acceptedAt := Some(claim.now)))
  {
    RunKeepsValid(c, START, ops);
    ReservedIff(c, Run(c, START, ops), claim.handle, claim.now);
  }

  /** What was told is what was stored, for this account and no other. */
  lemma ClaimIsStored(c: Config, ops: seq<Op>, claim: Op)
    requires FreshRun(c, START, ops) && claim.Claim?
    ensures
      var w, told := Run(c, START, ops), Told(c, Run(c, START, ops).db, claim);
      Next(c, w, claim).db.users == if told.Claimed? then w.db.users[claim.id := told.user] else w.db.users
  {
    hide Run;
  }

  lemma ReservedIff(c: Config, w: World, handle: string, now: int)
    requires ReleasedIsReserved(c, w)
    ensures Reserved(w.db.reserved, handle, now - c.reservation) <==>
              && Lower(handle) in w.released && now < w.released[Lower(handle)] + c.reservation
              && !ReservationPurged(c, w, Lower(handle))
  {
  }

  // ---------------------------------------------------------- explaining refusals

  /**
   Main result: the read that explains a refused claim may come any number of
   transactions later, yet it says "taken" only of a handle that was reserved
   when the claim was decided.
   */
  lemma TakenMeansReserved(c: Config, before: seq<Op>, claim: Op, between: seq<Op>)
    requires FreshRun(c, START, before + [claim] + between)
    requires claim.Claim? && claim.id in Run(c, START, before).ids
    requires Step(c, Run(c, START, before).db, claim).1.NoRow?
    requires DoExplain(Run(c, START, before + [claim] + between).db, claim.id).HandleTaken?
    ensures Reserved(Run(c, START, before).db.reserved, claim.handle, claim.now - c.reservation)
  {
    var w := Run(c, START, before);
    RunAround(c, before, claim, between);
    RunKeepsValid(c, START, before);
    assert Next(c, w, claim) == w;
    HandleIsWriteOnce(c, w, between, claim.id);
  }

  /** The statement itself says "taken" only of a handle somebody holds. */
  lemma ConflictMeansHeld(c: Config, db: Db, claim: Op)
    requires claim.Claim? && Step(c, db, claim).1.HandleTaken?
    ensures exists other :: other != claim.id && Holds(db.users, other, claim.handle)
  {
  }

  // ---------------------------------------------------------------- sessions

  /** A session that resolves belongs to an account that exists, and is inside its fixed lifetime. */
  lemma SessionResolvesToAccount(c: Config, ops: seq<Op>, hash: Hash, now: int)
    requires FreshRun(c, START, ops)
    requires DoLookup(Run(c, START, ops).db, hash, now).Resolved?
    ensures
      var w := Run(c, START, ops);
      var id := DoLookup(w.db, hash, now).id;
      && id in w.db.users && hash in w.issued && w.issued[hash] == id
      && now < w.db.sessions[hash].createdAt + c.sessionTTL
  {
    RunKeepsValid(c, START, ops);
  }

  /** A session that nothing has ended: its row is there, unrevoked. */
  ghost predicate Alive(w: World, hash: Hash, id: Id, expiresAt: int) {
    && hash in w.issued && hash in w.db.sessions
    && w.db.sessions[hash].user == id && w.db.sessions[hash].revokedAt.None?
    && w.db.sessions[hash].expiresAt == expiresAt
  }

  /** Nothing here revokes the session, deletes its account, or purges sessions so long past its expiry. */
  predicate LeavesAlone(c: Config, op: Op, hash: Hash, id: Id, expiresAt: int) {
    && (op.Revoke? ==> op.hash != hash)
    && (op.Delete? ==> op.id != id)
    && (op.PurgeSessions? ==> op.now <= expiresAt + c.retention)
  }

  predicate Undisturbed(c: Config, ops: seq<Op>, hash: Hash, id: Id, expiresAt: int) {
    forall i | 0 <= i < |ops| :: LeavesAlone(c, ops[i], hash, id, expiresAt)
  }

  lemma AliveStaysAlive(c: Config, w: World, op: Op, hash: Hash, id: Id, expiresAt: int)
    requires Alive(w, hash, id, expiresAt) && Fresh(w, op) && LeavesAlone(c, op, hash, id, expiresAt)
    ensures Alive(Next(c, w, op), hash, id, expiresAt)
  {
  }

  lemma {:induction false} RunKeepsAlive(c: Config, w: World, ops: seq<Op>, hash: Hash, id: Id, expiresAt: int)
    requires Alive(w, hash, id, expiresAt) && FreshRun(c, w, ops)
    requires Undisturbed(c, ops, hash, id, expiresAt)
    ensures Alive(Run(c, w, ops), hash, id, expiresAt)
    decreases |ops|
  {
    if ops != [] {
      AliveStaysAlive(c, w, ops[0], hash, id, expiresAt);
      RunKeepsAlive(c, Next(c, w, ops[0]), ops[1..], hash, id, expiresAt);
    }
  }

  lemma AliveResolves(w: World, hash: Hash, id: Id, expiresAt: int, now: int)
    requires Alive(w, hash, id, expiresAt)
    ensures DoLookup(w.db, hash, now) == if now < expiresAt then Resolved(id) else InvalidSession
  {
  }

  lemma IssuedIsAlive(c: Config, w: World, op: Op)
    requires op.Issue? && Step(c, w.db, op).1.Issued?
    ensures Alive(Next(c, w, op), op.hash, op.id, op.now + c.sessionTTL)
  {
  }

  /**
   Main result: a session resolves to its account for exactly its lifetime, whatever else
   happens, until it is revoked or its account deleted.
   */
  lemma IssuedSessionResolves(c: Config, before: seq<Op>, op: Op, later: seq<Op>, now: int)
    requires FreshRun(c, START, before + [op] + later) && op.Issue?
    requires Step(c, Run(c, START, before).db, op).1.Issued?
    requires Undisturbed(c, later, op.hash, op.id, op.now + c.sessionTTL)
    ensures DoLookup(Run(c, START, before + [op] + later).db, op.hash, now)
         == if now < op.now + c.sessionTTL then Resolved(op.id) else InvalidSession
  {
    hide *;
    var w := Run(c, START, before);
    RunAround(c, before, op, later);
    IssuedIsAlive(c, w, op);
    RunKeepsAlive(c, Next(c, w, op), later, op.hash, op.id, op.now + c.sessionTTL);
    AliveResolves(Run(c, START, before + [op] + later), op.hash, op.id, op.now + c.sessionTTL, now);
  }

  /** Revoked, or gone from the table. */
  ghost predicate Dead(w: World, hash: Hash) {
    hash in w.issued && (hash in w.db.sessions ==> w.db.sessions[hash].revokedAt.Some?)
  }

  lemma DeadStepsDead(c: Config, w: World, op: Op, hash: Hash)
    requires Dead(w, hash) && Fresh(w, op)
    ensures Dead(Next(c, w, op), hash)
  {
  }

  lemma {:induction false} DeadStaysDead(c: Config, w: World, ops: seq<Op>, hash: Hash)
    requires Dead(w, hash) && FreshRun(c, w, ops)
    ensures Dead(Run(c, w, ops), hash)
    decreases |ops|
  {
    if ops != [] {
      DeadStepsDead(c, w, ops[0], hash);
      DeadStaysDead(c, Next(c, w, ops[0]), ops[1..], hash);
    }
  }

  /** Main result: once logged out, or once its account is deleted, a session never resolves again, at any reading. */
  lemma LogoutIsFinal(c: Config, before: seq<Op>, op: Op, later: seq<Op>, hash: Hash, now: int)
    requires FreshRun(c, START, before + [op] + later) && hash in Run(c, START, before).issued
    requires
      var w := Run(c, START, before);
      || (op.Revoke? && op.hash == hash && Step(c, w.db, op).1.Done?)
      || (op.Delete? && op.id == w.issued[hash])
    ensures DoLookup(Run(c, START, before + [op] + later).db, hash, now).InvalidSession?
  {
    var w := Run(c, START, before);
    RunAround(c, before, op, later);
    RunKeepsValid(c, START, before);
    assert Dead(Next(c, w, op), hash);
    DeadStaysDead(c, Next(c, w, op), later, hash);
  }
}
