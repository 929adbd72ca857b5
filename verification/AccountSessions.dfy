/**
 Accounts and sessions from a log of what happened to them: which accounts exist, which
 sessions are in the table and which of them work, and what revoking and deleting answer.
 */
module AccountSessions {
  import opened Common
  import opened AccountModel
  import opened AccountWorld
  import AccountHandles
  import AccountLogin

  datatype Grant = Grant(id: Id, at: int)

  /** Nothing in the log influences the store. */
  datatype Log = Log(
    w: World,
    deleted: set<Id>,              // every account ever deleted
    grants: map<Hash, Grant>,      // every session ever issued
    revoked: map<Hash, int>,       // sessions logged out, and when
    purges: map<Hash, int>,        // per session, the latest reading of a purge since it was issued
    revokedPurges: map<Hash, int>) // and since it was logged out

  const BEGIN := Log(START, {}, map[], map[], map[], map[])

  ghost function Note(c: Config, l: Log, op: Op): Log {
    var a, next := Step(c, l.w.db, op).1, l.(w := Next(c, l.w, op));
    match op
    case Issue(id, hash, now) =>
      if a.Issued? then next.(grants := l.grants[hash := Grant(id, now)]) else next
    case Revoke(hash, now) =>
      if a.Done? && hash in l.grants && hash !in l.revoked then next.(revoked := l.revoked[hash := now]) else next
    case Delete(id, now) =>
      if a.Done? then next.(deleted := l.deleted + {id}) else next
    case PurgeSessions(now) =>
      next.(purges := Touched(l.grants.Keys, l.purges, now),
            revokedPurges := Touched(l.revoked.Keys, l.revokedPurges, now))
    case _ => next
  }

  ghost function Trace(c: Config, l: Log, ops: seq<Op>): Log
    decreases |ops|
  {
    if ops == [] then l else Trace(c, Note(c, l, ops[0]), ops[1..])
  }

  lemma {:induction false} TraceRuns(c: Config, l: Log, ops: seq<Op>)
    ensures Trace(c, l, ops).w == Run(c, l.w, ops)
    decreases |ops|
  {
    if ops != [] {
      NoteSteps(c, l, ops[0]);
      hide Note, Next;
      TraceRuns(c, Note(c, l, ops[0]), ops[1..]);
    }
  }

  lemma NoteSteps(c: Config, l: Log, op: Op)
    ensures Note(c, l, op).w == Next(c, l.w, op)
  {
    hide Next, Step;
  }

  // ------------------------------------------------------------ the invariant

  /** A purge found the session long dead: expired, or logged out. */
  ghost predicate PurgedOut(c: Config, l: Log, h: Hash)
    requires h in l.grants
  {
    || (h in l.purges && l.grants[h].at + c.sessionTTL < l.purges[h] - c.retention)
    || (h in l.revoked && h in l.revokedPurges && l.revoked[h] < l.revokedPurges[h] - c.retention)
  }

  ghost predicate AccountsAre(l: Log) {
    l.w.db.users.Keys == l.w.ids - l.deleted && l.deleted <= l.w.ids
  }

  ghost predicate Dated(l: Log) {
    && l.grants.Keys == l.w.issued.Keys
    && l.revoked.Keys <= l.grants.Keys && l.purges.Keys <= l.grants.Keys && l.revokedPurges.Keys <= l.revoked.Keys
    && forall h <- l.grants :: l.grants[h].id in l.w.ids
  }

  /** Every session is in the table until its account goes or a purge takes it. */
  ghost predicate SessionsAre(c: Config, l: Log) {
    && (forall h <- l.grants :: h in l.w.db.sessions <==> l.grants[h].id !in l.deleted && !PurgedOut(c, l, h))
    && (forall h <- l.w.db.sessions ::
          h in l.grants && l.w.db.sessions[h]
          == Session(l.grants[h].id, l.grants[h].at, l.grants[h].at + c.sessionTTL,
                     if h in l.revoked then Some(l.revoked[h]) else None))
  }

  ghost predicate Valid(c: Config, l: Log) {
    AccountsAre(l) && Dated(l) && SessionsAre(c, l)
  }

  /** What these transactions do to the tables and the log of issued sessions. */
  lemma SessionEffect(c: Config, l: Log, op: Op)
    requires op.Issue? || op.Revoke? || op.Delete? || op.PurgeSessions?
    ensures
      var r, w' := Step(c, l.w.db, op), Next(c, l.w, op);
      && w'.db == r.0 && w'.ids == l.w.ids
      && w'.issued == if op.Issue? && r.1.Issued? then l.w.issued[op.hash := op.id] else l.w.issued
  {
  }

  lemma IssueKeeps(c: Config, l: Log, op: Op)
    requires Valid(c, l) && Fresh(l.w, op) && op.Issue?
    ensures Valid(c, Note(c, l, op))
  {
    SessionEffect(c, l, op);
    hide Next;
    IssueKeepsSessions(c, l, op);
    hide SessionsAre;
  }

  lemma IssueKeepsSessions(c: Config, l: Log, op: Op)
    requires Valid(c, l) && Fresh(l.w, op) && op.Issue?
    ensures SessionsAre(c, Note(c, l, op))
  {
    SessionEffect(c, l, op);
    hide Next;
  }

  /** A revocation marks a session that is there, and may log one that is not. */
  lemma RevokeEffect(c: Config, l: Log, op: Op)
    requires Valid(c, l) && op.Revoke?
    ensures
      var l', h := Note(c, l, op), op.hash;
      && l' == l.(w := l'.w, revoked := l'.revoked) && SameAccounts(l, l')
      && (l'.revoked == l.revoked || (h in l.grants && h !in l.revoked && l'.revoked == l.revoked[h := op.now]))
      && l'.w.db.sessions == if h in l.w.db.sessions && l'.revoked != l.revoked
                             then l.w.db.sessions[h := l.w.db.sessions[h].(revokedAt := Some(op.now))]
                             else l.w.db.sessions
  {
    SessionEffect(c, l, op);
    hide Next, PurgedOut, AccountsAre;
  }

  ghost predicate SameAccounts(l: Log, l': Log) {
    l'.w.db.users == l.w.db.users && l'.w.ids == l.w.ids && l'.w.issued == l.w.issued
  }

  lemma RevokeKeeps(c: Config, l: Log, op: Op)
    requires Valid(c, l) && op.Revoke?
    ensures Valid(c, Note(c, l, op))
  {
    hide Note, Next, Step;
    RevokeEffect(c, l, op);
    var l' := Note(c, l, op);
    forall h <- l.grants ensures PurgedOut(c, l', h) <==> PurgedOut(c, l, h) {}
    hide PurgedOut;
    assert Dated(l') && AccountsAre(l');
  }

  lemma DeleteKeeps(c: Config, l: Log, op: Op)
    requires Valid(c, l) && op.Delete?
    ensures Valid(c, Note(c, l, op))
  {
    SessionEffect(c, l, op);
    hide Next;
    DeleteKeepsSessions(c, l, op);
    hide SessionsAre;
  }

  lemma DeleteKeepsSessions(c: Config, l: Log, op: Op)
    requires Valid(c, l) && op.Delete?
    ensures SessionsAre(c, Note(c, l, op))
  {
    SessionEffect(c, l, op);
    hide Next;
    var l' := Note(c, l, op);
    forall h <- l.grants ensures PurgedOut(c, l', h) <==> PurgedOut(c, l, h) {}
    hide PurgedOut;
  }

  lemma PurgeKeeps(c: Config, l: Log, op: Op)
    requires Valid(c, l) && op.PurgeSessions?
    ensures Valid(c, Note(c, l, op))
  {
    SessionEffect(c, l, op);
    hide Next;
    PurgeKeepsSessions(c, l, op);
    hide SessionsAre;
  }

  /** The purge takes what is long dead by its own reading. */
  lemma PurgeGoesFurther(c: Config, l: Log, op: Op, h: Hash)
    requires Valid(c, l) && op.PurgeSessions? && h in l.grants
    ensures PurgedOut(c, Note(c, l, op), h) <==>
              || PurgedOut(c, l, h)
              || l.grants[h].at + c.sessionTTL < op.now - c.retention
              || (h in l.revoked && l.revoked[h] < op.now - c.retention)
  {
    hide Next, Step, SessionsAre, AccountsAre;
  }

  lemma PurgeEffect(c: Config, l: Log, op: Op)
    requires Valid(c, l) && op.PurgeSessions?
    ensures
      var l' := Note(c, l, op);
      && l'.grants == l.grants && l'.revoked == l.revoked && l'.deleted == l.deleted
      && l'.w.db.sessions == PurgedSessions(c, l.w.db.sessions, op.now)
  {
    SessionEffect(c, l, op);
    hide Next, Valid, PurgedSessions;
  }

  lemma PurgeKeepsSessions(c: Config, l: Log, op: Op)
    requires Valid(c, l) && op.PurgeSessions?
    ensures SessionsAre(c, Note(c, l, op))
  {
    hide Note, Next, Step;
    PurgeEffect(c, l, op);
    var l' := Note(c, l, op);
    forall h <- l.grants ensures PurgedOut(c, l', h) <==>
              || PurgedOut(c, l, h)
              || l.grants[h].at + c.sessionTTL < op.now - c.retention
              || (h in l.revoked && l.revoked[h] < op.now - c.retention)
    {
      PurgeGoesFurther(c, l, op, h);
    }
    hide PurgedOut;
  }

  /** The other transactions leave sessions alone, and add at most a new account. */
  lemma OtherEffect(c: Config, l: Log, op: Op)
    requires Valid(c, l) && Fresh(l.w, op)
    requires !op.Issue? && !op.Revoke? && !op.Delete? && !op.PurgeSessions?
    ensures
      var w' := Next(c, l.w, op);
      && Note(c, l, op) == l.(w := w') && w'.db.sessions == l.w.db.sessions && w'.issued == l.w.issued
      && l.w.ids <= w'.ids
      && forall id :: id in w'.db.users <==> id in l.w.db.users || (id in w'.ids && id !in l.w.ids)
  {
    if op.CompleteLogin? {
      AccountHandles.LoginAccounts(c, l.w, op);
    }
  }

  lemma OtherKeeps(c: Config, l: Log, op: Op)
    requires Valid(c, l) && Fresh(l.w, op)
    requires !op.Issue? && !op.Revoke? && !op.Delete? && !op.PurgeSessions?
    ensures Valid(c, Note(c, l, op))
  {
    hide Note, Next, Step, Fresh;
    OtherEffect(c, l, op);
    var l' := Note(c, l, op);
    forall h <- l.grants ensures PurgedOut(c, l', h) <==> PurgedOut(c, l, h) {}
    assert AccountsAre(l') && Dated(l');
  }

  lemma NoteKeepsValid(c: Config, l: Log, op: Op)
    requires Valid(c, l) && Fresh(l.w, op)
    ensures Valid(c, Note(c, l, op))
  {
    hide *;
    match op
    case Issue(_, _, _) => IssueKeeps(c, l, op);
    case Revoke(_, _) => RevokeKeeps(c, l, op);
    case Delete(_, _) => DeleteKeeps(c, l, op);
    case PurgeSessions(_) => PurgeKeeps(c, l, op);
    case _ => OtherKeeps(c, l, op);
  }

  lemma {:induction false} TraceKeepsValid(c: Config, l: Log, ops: seq<Op>)
    requires Valid(c, l) && FreshRun(c, l.w, ops)
    ensures Valid(c, Trace(c, l, ops))
    decreases |ops|
  {
    if ops != [] {
      hide Valid, Note, Next, Fresh;
      NoteKeepsValid(c, l, ops[0]);
      NoteSteps(c, l, ops[0]);
      TraceKeepsValid(c, Note(c, l, ops[0]), ops[1..]);
    }
  }

  lemma Reached(c: Config, ops: seq<Op>)
    requires FreshRun(c, START, ops)
    ensures Valid(c, Trace(c, BEGIN, ops)) && Trace(c, BEGIN, ops).w == Run(c, START, ops)
  {
    TraceRuns(c, BEGIN, ops);
    TraceKeepsValid(c, BEGIN, ops);
  }

  // -------------------------------------------------------------- main results

  /** An account exists from its first login until it is deleted, handle or no handle. */
  lemma AccountExistsIff(c: Config, ops: seq<Op>, id: Id)
    requires FreshRun(c, START, ops)
    ensures
      var l := Trace(c, BEGIN, ops);
      id in Run(c, START, ops).db.users <==> id in l.w.ids && id !in l.deleted
  {
    Reached(c, ops);
  }

  /** Deleting works once, and says so. */
  lemma DeleteAnswers(c: Config, ops: seq<Op>, op: Op)
    requires FreshRun(c, START, ops) && op.Delete?
    ensures
      var l := Trace(c, BEGIN, ops);
      && Step(c, l.w.db, op).1 == (if op.id in l.w.ids && op.id !in l.deleted then Done else NotFound)
      && op.id !in Next(c, l.w, op).db.users
  {
    Reached(c, ops);
  }

  /** A session can be issued to every account that exists, and to no other. */
  lemma IssueSucceedsIff(c: Config, ops: seq<Op>, op: Op)
    requires FreshRun(c, START, ops) && op.Issue? && op.hash !in Run(c, START, ops).issued
    ensures
      var l := Trace(c, BEGIN, ops);
      Step(c, l.w.db, op).1
      == if op.id in l.w.ids && op.id !in l.deleted then Issued(op.hash) else ConstraintViolation
  {
    Reached(c, ops);
  }

  /**
   Main result: exactly when a session works, in every reachable state, whatever the clocks
   read: until it is logged out, its account is deleted, its lifetime is over, or a purge
   has read past its retention.
   */
  lemma LookupResolvesIff(c: Config, ops: seq<Op>, hash: Hash, now: int)
    requires FreshRun(c, START, ops)
    ensures
      var l := Trace(c, BEGIN, ops);
      Step(c, l.w.db, Lookup(hash, now)).1 ==
        if && hash in l.grants && l.grants[hash].id !in l.deleted && hash !in l.revoked
           && now < l.grants[hash].at + c.sessionTTL
           && (hash in l.purges ==> l.purges[hash] <= l.grants[hash].at + c.sessionTTL + c.retention)
        then Resolved(l.grants[hash].id)
        else InvalidSession
  {
    Reached(c, ops);
  }

  /** Logging out works of every session that still resolves, unless the clock reads earlier than at its issue. */
  lemma RevokeAnswers(c: Config, ops: seq<Op>, op: Op)
    requires FreshRun(c, START, ops) && op.Revoke?
    ensures
      var l, h := Trace(c, BEGIN, ops), op.hash;
      Step(c, l.w.db, op).1 ==
        if && h in l.grants && l.grants[h].id !in l.deleted && h !in l.revoked && op.now < l.grants[h].at
           && (h in l.purges ==> l.purges[h] <= l.grants[h].at + c.sessionTTL + c.retention)
        then ConstraintViolation
        else Done
  {
    Reached(c, ops);
  }

  /** The sessions table is what the log says: nothing stays that a purge should have taken, and nothing else goes. */
  lemma SessionsFollowLog(c: Config, ops: seq<Op>, h: Hash)
    requires FreshRun(c, START, ops)
    ensures
      var l := Trace(c, BEGIN, ops);
      h in Run(c, START, ops).db.sessions <==>
        && h in l.grants && l.grants[h].id !in l.deleted
        && (h in l.purges ==> l.purges[h] <= l.grants[h].at + c.sessionTTL + c.retention)
        && (h in l.revoked && h in l.revokedPurges ==> l.revokedPurges[h] <= l.revoked[h] + c.retention)
  {
    Reached(c, ops);
  }

  /** The same of links and reservations. */
  lemma LinksFollowLog(c: Config, ops: seq<Op>, h: Hash)
    requires FreshRun(c, START, ops)
    ensures
      var w := Run(c, START, ops);
      h in w.db.tokens <==>
        && h in w.mints && h !in w.erased
        && (h in w.linkPurges ==> w.linkPurges[h] <= w.mints[h].at + c.ttl + c.retention)
  {
    AccountLogin.RunKeepsValid(c, START, ops);
  }

  lemma ReservationsFollowLog(c: Config, ops: seq<Op>, k: string)
    requires FreshRun(c, START, ops)
    ensures
      var w := Run(c, START, ops);
      k in w.db.reserved <==>
        k in w.released && (k in w.handlePurges ==> w.handlePurges[k] <= w.released[k] + c.reservation)
  {
    AccountHandles.RunKeepsValid(c, START, ops);
  }
}
