/**
 How far clocks may drift apart: purges are timed by the database, claims by the
 application, and a transaction may start before a purge and run after it. For each
 promise that such drift can break, the run that breaks it and the exact limit.
 */
module AccountClocks {
  import opened Common
  import opened AccountExample
  import opened AccountModel
  import opened AccountWorld
  import AccountHandles
  import AccountLogin
  import AccountPurge

  // ------------------------------------------------------- a purge and a link

  const NO_OPS: seq<Op> := []

  lemma MintsFirst(c: Config, email: string)
    ensures
      var w := Next(c, START, RequestLogin(email, 1, 0));
      && Fresh(START, RequestLogin(email, 1, 0))
      && w == START.(db := w.db, mints := map[1 := Mint(email, 0)], last := map[email := 1])
  {
    AtMostTwo(EMPTY.tokens, email, 0 - c.window, {});
  }

  lemma PurgeIsLogged(c: Config, w: World, at: int)
    requires w.linkPurges == map[]
    ensures
      var w' := Next(c, w, PurgeTokens(at));
      && w' == w.(db := w'.db, tokenPurge := w'.tokenPurge, linkPurges := w'.linkPurges)
      && forall h :: h in w'.linkPurges <==> h in w.mints
    ensures forall h <- w.mints :: Next(c, w, PurgeTokens(at)).linkPurges[h] == at
  {
  }

  function MintRun(email: string): seq<Op> {
    [RequestLogin(email, 1, 0)] + NO_OPS
  }

  /** A link minted at 0, and a purge just past its retention. */
  function MintAndPurge(c: Config, email: string): seq<Op> {
    MintRun(email) + ([PurgeTokens(c.ttl + c.retention + 1)] + NO_OPS)
  }

  lemma MintRuns(c: Config, email: string)
    ensures
      var w := Run(c, START, MintRun(email));
      && FreshRun(c, START, MintRun(email))
      && w == START.(db := w.db, mints := map[1 := Mint(email, 0)], last := map[email := 1])
  {
    MintsFirst(c, email);
    AccountHandles.RunOne(c, START, RequestLogin(email, 1, 0));
    assert MintRun(email) == [RequestLogin(email, 1, 0)];
  }

  lemma MintAndPurgeRuns(c: Config, email: string)
    ensures
      var w := Run(c, START, MintAndPurge(c, email));
      && FreshRun(c, START, MintAndPurge(c, email))
      && w.mints == map[1 := Mint(email, 0)] && w.last == map[email := 1] && w.spends == [] && w.ids == {}
      && 1 in w.linkPurges && w.linkPurges[1] == c.ttl + c.retention + 1
  {
    var w, purge := Run(c, START, MintRun(email)), PurgeTokens(c.ttl + c.retention + 1);
    hide Next, Run, FreshRun;
    MintRuns(c, email);
    PurgeIsLogged(c, w, purge.now);
    AccountHandles.RunOne(c, w, purge);
    assert [purge] + NO_OPS == [purge];
    AccountHandles.RunAppend(c, START, MintRun(email), [purge]);
  }

  /** A login that starts just before the link expires and runs after that purge. */
  function LateLogin(c: Config): Op {
    CompleteLogin(1, 0, c.ttl - 1)
  }

  /** It works before the purge, and not after it. */
  lemma LateLoginFails(c: Config, email: string)
    ensures Step(c, Run(c, START, MintRun(email)).db, LateLogin(c)).1.SignedIn?
    ensures !Step(c, Run(c, START, MintAndPurge(c, email)).db, LateLogin(c)).1.SignedIn?
  {
    hide Next, Run, FreshRun, Step;
    MintRuns(c, email);
    MintAndPurgeRuns(c, email);
    AccountHandles.LoginSucceedsIff(c, MintRun(email), LateLogin(c));
    AccountHandles.LoginSucceedsIff(c, MintAndPurge(c, email), LateLogin(c));
  }

  lemma LongLeadFails(c: Config, email: string, lead: int)
    requires lead > c.retention + 1
    ensures !AccountHandles.LastLinkWorks(c, lead)
  {
    hide Next, Run, FreshRun, Step;
    MintAndPurgeRuns(c, email);
    LateLoginFails(c, email);
    var w := Run(c, START, MintAndPurge(c, email));
    assert AccountHandles.Waiting(c, w, LateLogin(c)) && AccountHandles.PurgesLead(w, 1, c.ttl - 1, lead);
  }

  /**
   Main result: the last link of an address signs its owner in until it expires, whatever the
   order of start times, exactly when no purge since reads more than the retention and one
   tick ahead of the login's start.
   */
  lemma LastLinkSignsInIff(c: Config, lead: int)
    ensures AccountHandles.LastLinkWorks(c, lead) <==> lead <= c.retention + 1
  {
    if lead <= c.retention + 1 {
      forall ops: seq<Op>, login: Op |
        && FreshRun(c, START, ops) && AccountHandles.Waiting(c, Run(c, START, ops), login)
        && AccountHandles.PurgesLead(Run(c, START, ops), login.hash, login.now, lead)
        ensures Step(c, Run(c, START, ops).db, login).1.SignedIn?
      {
        AccountHandles.LastLinkSignsIn(c, ops, login, lead);
      }
    } else {
      LongLeadFails(c, "a@b.c", lead);
    }
  }

  lemma DeployedLinksWork()
    ensures AccountHandles.LastLinkWorks(DEPLOYED, 7 * 86400 + 1)
    ensures !AccountHandles.LastLinkWorks(DEPLOYED, 7 * 86400 + 2)
  {
    LastLinkSignsInIff(DEPLOYED, 7 * 86400 + 1);
    LastLinkSignsInIff(DEPLOYED, 7 * 86400 + 2);
  }

  // ------------------------------------------------ a purge and a reservation

  /** Inside the link's lifetime; with an empty lifetime, just before the link's own start. */
  function LoginTime(c: Config): int {
    Min(c.ttl, 1) - 1
  }

  function SignUp(c: Config, email: string, hash: Hash, id: Id): seq<Op> {
    [RequestLogin(email, hash, 0)] + ([CompleteLogin(hash, id, LoginTime(c))] + NO_OPS)
  }

  /** Nobody is signed up and no link is out. */
  predicate Vacant(w: World) {
    w.db.tokens == map[] && w.db.users == map[] && w.db.sessions == map[]
  }

  /** One account, with no handle yet, that signed up with the one link there is. */
  predicate Pending(w: World, email: string, id: Id) {
    && w.db.users == map[id := User(email, None, PendingHandle, None)] && w.db.sessions == map[]
    && forall h <- w.db.tokens :: w.db.tokens[h].email == email
  }

  lemma MintStep(c: Config, w: World, email: string, hash: Hash)
    requires Vacant(w) && hash !in w.mints
    ensures
      var w' := Next(c, w, RequestLogin(email, hash, 0));
      && w'.db == w.db.(tokens := map[hash := Token(email, 0, c.ttl, None)])
      && AccountHandles.SameReservations(w, w') && w'.ids == w.ids && w'.mints.Keys == w.mints.Keys + {hash}
  {
    AtMostTwo(w.db.tokens, email, 0 - c.window, {});
    assert Invalidated(w.db.tokens, email, 0) == map[];
  }

  lemma SpendStep(c: Config, w: World, email: string, hash: Hash, id: Id)
    requires w.db.tokens == map[hash := Token(email, 0, c.ttl, None)]
    requires w.db.users == map[] && w.db.sessions == map[] && id !in w.ids
    ensures
      var w' := Next(c, w, CompleteLogin(hash, id, LoginTime(c)));
      && Pending(w', email, id)
      && AccountHandles.SameReservations(w, w') && w'.ids == w.ids + {id} && w'.mints == w.mints
  {
  }

  lemma SignUpRuns(c: Config, w: World, email: string, hash: Hash, id: Id)
    requires Vacant(w) && hash !in w.mints && id !in w.ids
    ensures
      var w' := Run(c, w, SignUp(c, email, hash, id));
      && FreshRun(c, w, SignUp(c, email, hash, id)) && Pending(w', email, id)
      && AccountHandles.SameReservations(w, w') && w'.ids == w.ids + {id} && w'.mints.Keys == w.mints.Keys + {hash}
  {
    var mint, spend := RequestLogin(email, hash, 0), CompleteLogin(hash, id, LoginTime(c));
    var w1 := Next(c, w, mint);
    var w2 := Next(c, w1, spend);
    assert Run(c, w2, NO_OPS) == w2 && FreshRun(c, w2, NO_OPS);
    hide Next;
    MintStep(c, w, email, hash);
    SpendStep(c, w1, email, hash, id);
    AccountLogin.RunFirst(c, w1, spend, NO_OPS);
    AccountLogin.RunFirst(c, w, mint, [spend] + NO_OPS);
  }

  function ClaimAndLeave(id: Id, handle: string): seq<Op> {
    [Claim(id, handle, 0)] + ([Delete(id, 0)] + NO_OPS)
  }

  lemma ClaimStep(c: Config, w: World, email: string, id: Id, handle: string)
    requires Pending(w, email, id) && w.db.reserved == map[]
    ensures
      var w' := Next(c, w, Claim(id, handle, 0));
      w' == w.(db := w.db.(users := map[id := User(email, Some(handle), Active, Some(0))]))
  {
    assert forall other <- w.db.users :: other == id;
  }

  lemma DeleteStep(c: Config, w: World, email: string, id: Id, handle: string)
    requires w.db.users == map[id := User(email, Some(handle), Active, Some(0))] && w.db.sessions == map[]
    requires forall h <- w.db.tokens :: w.db.tokens[h].email == email
    requires w.db.reserved == map[] && w.released == map[] && w.handlePurges == map[]
    ensures
      var w', k := Next(c, w, Delete(id, 0)), Lower(handle);
      && Vacant(w') && w'.db.reserved == map[k := 0] && w'.released == map[k := 0] && w'.handlePurges == map[]
      && w'.mints == w.mints && w'.ids == w.ids
  {
    assert w.handlePurges - {Lower(handle)} == map[];
    assert w.db.users - {id} == map[];
  }

  lemma ClaimAndLeaveRuns(c: Config, w: World, email: string, id: Id, handle: string)
    requires Pending(w, email, id)
    requires w.db.reserved == map[] && w.released == map[] && w.handlePurges == map[]
    ensures
      var w', k := Run(c, w, ClaimAndLeave(id, handle)), Lower(handle);
      && FreshRun(c, w, ClaimAndLeave(id, handle)) && Vacant(w')
      && w'.db.reserved == map[k := 0] && w'.released == map[k := 0] && w'.handlePurges == map[]
      && w'.mints == w.mints && w'.ids == w.ids
  {
    var claim, leave := Claim(id, handle, 0), Delete(id, 0);
    var w1 := Next(c, w, claim);
    var w2 := Next(c, w1, leave);
    assert Run(c, w2, NO_OPS) == w2 && FreshRun(c, w2, NO_OPS);
    hide Next;
    ClaimStep(c, w, email, id, handle);
    DeleteStep(c, w1, email, id, handle);
    AccountLogin.RunFirst(c, w1, leave, NO_OPS);
    AccountLogin.RunFirst(c, w, claim, [leave] + NO_OPS);
  }

  /** Sign up, claim the handle, leave at 0, and sign up again. */
  function Successor(c: Config, email: string, handle: string): seq<Op> {
    SignUp(c, email, 1, 0) + (ClaimAndLeave(0, handle) + SignUp(c, email, 2, 1))
  }

  lemma SuccessorRuns(c: Config, email: string, handle: string)
    ensures
      var w := Run(c, START, Successor(c, email, handle));
      && FreshRun(c, START, Successor(c, email, handle)) && Pending(w, email, 1)
      && w.released == map[Lower(handle) := 0] && w.handlePurges == map[]
  {
    var first, leave, second := SignUp(c, email, 1, 0), ClaimAndLeave(0, handle), SignUp(c, email, 2, 1);
    assert Vacant(START) && START.db.reserved == map[] && START.released == map[] && START.handlePurges == map[];
    hide *;
    var w1 := Run(c, START, first);
    var w2 := Run(c, w1, leave);
    SignUpRuns(c, START, email, 1, 0);
    ReservationsAre(START, w1);
    ClaimAndLeaveRuns(c, w1, email, 0, handle);
    SignUpRuns(c, w2, email, 2, 1);
    ReservationsAre(w2, Run(c, w2, second));
    AccountHandles.RunAppend(c, w1, leave, second);
    AccountHandles.RunAppend(c, START, first, leave + second);
    SuccessorIs(c, email, handle);
  }

  lemma ReservationsAre(w: World, w': World)
    requires AccountHandles.SameReservations(w, w')
    ensures w'.db.reserved == w.db.reserved && w'.released == w.released && w'.handlePurges == w.handlePurges
  {
  }

  lemma SuccessorIs(c: Config, email: string, handle: string)
    ensures Successor(c, email, handle) == SignUp(c, email, 1, 0) + (ClaimAndLeave(0, handle) + SignUp(c, email, 2, 1))
  {
  }

  /** A reservation purge that reads just past the first account's reservation. */
  function Sweep(c: Config): Op {
    PurgeHandles(c.reservation + 1)
  }

  lemma SweepStep(c: Config, w: World, k: string)
    requires w.released == map[k := 0] && w.handlePurges == map[]
    ensures
      var w' := Next(c, w, Sweep(c));
      && w'.db.users == w.db.users && w'.released == w.released
      && k in w'.handlePurges && w'.handlePurges[k] == c.reservation + 1
  {
  }

  lemma SweptRuns(c: Config, email: string, handle: string)
    ensures
      var w := Run(c, START, Successor(c, email, handle) + [Sweep(c)]);
      && FreshRun(c, START, Successor(c, email, handle) + [Sweep(c)])
      && w == Next(c, Run(c, START, Successor(c, email, handle)), Sweep(c))
      && w.db.users == map[1 := User(email, None, PendingHandle, None)] && w.released == map[Lower(handle) := 0]
      && Lower(handle) in w.handlePurges && w.handlePurges[Lower(handle)] == c.reservation + 1
  {
    hide Run, Next, FreshRun, Fresh, Step;
    var w := Run(c, START, Successor(c, email, handle));
    SuccessorRuns(c, email, handle);
    SweepStep(c, w, Lower(handle));
    SweepIsFresh(c, w);
    AccountHandles.RunOne(c, w, Sweep(c));
    AccountHandles.RunAppend(c, START, Successor(c, email, handle), [Sweep(c)]);
  }

  lemma SweepIsFresh(c: Config, w: World)
    ensures Fresh(w, Sweep(c))
  {
  }

  lemma NobodyHolds(users: map<Id, User>, email: string, handle: string)
    requires users == map[1 := User(email, None, PendingHandle, None)]
    ensures forall other :: !Holds(users, other, handle)
  {
  }

  /** After the purge the second account gets the handle at any reading; without it, not before its time. */
  lemma EarlyPurgeFreesHandle(c: Config, email: string, handle: string, now: int)
    ensures
      var before, claim := Successor(c, email, handle), Claim(1, handle, now);
      && Step(c, Run(c, START, before + [Sweep(c)]).db, claim).1.Claimed?
      && (Step(c, Run(c, START, before).db, claim).1.Claimed? <==> now >= c.reservation)
  {
    hide Run, Next, FreshRun, Step, Holds;
    var before, claim := Successor(c, email, handle), Claim(1, handle, now);
    SuccessorRuns(c, email, handle);
    SweptRuns(c, email, handle);
    NobodyHolds(Run(c, START, before).db.users, email, handle);
    AccountHandles.ClaimSucceedsIff(c, before, claim);
    AccountHandles.ClaimSucceedsIff(c, before + [Sweep(c)], claim);
  }

  lemma SkewIsLost(c: Config, email: string, handle: string, skew: int, loss: nat)
    requires skew - 1 > loss
    ensures !AccountHandles.HeldBack(c, skew, loss)
  {
    hide Run, Next, FreshRun, Step;
    var ops := Successor(c, email, handle) + [Sweep(c)];
    var claim := Claim(1, handle, c.reservation + 1 - skew);
    SweptRuns(c, email, handle);
    EarlyPurgeFreesHandle(c, email, handle, claim.now);
    assert AccountHandles.PurgesAhead(Run(c, START, ops), claim, skew);
  }

  /**
   Main result: a deleted account's handle is held back for the reservation less `loss`, with
   purges at most `skew` ahead of the claim, exactly when the loss covers the skew but one
   tick. So a purge clock one tick ahead loses nothing, and any further ahead shows.
   */
  lemma ReservationHoldsIff(c: Config, skew: int, loss: nat)
    ensures AccountHandles.HeldBack(c, skew, loss) <==> skew - 1 <= loss
  {
    if skew - 1 <= loss {
      forall ops: seq<Op>, claim: Op |
        && FreshRun(c, START, ops) && claim.Claim? && Lower(claim.handle) in Run(c, START, ops).released
        && AccountHandles.PurgesAhead(Run(c, START, ops), claim, skew)
        && Step(c, Run(c, START, ops).db, claim).1.Claimed?
        ensures claim.now >= Run(c, START, ops).released[Lower(claim.handle)] + c.reservation - loss
      {
        AccountHandles.ReservationHolds(c, ops, claim, skew);
      }
    } else {
      SkewIsLost(c, "a@b.c", "ana", skew, loss);
    }
  }

  // ------------------------------------------------ purges that can be observed

  ghost predicate NoPurges(ops: seq<Op>) {
    forall i | 0 <= i < |ops| :: !ops[i].Purge?()
  }

  lemma {:induction false} AnswersAppend(c: Config, w: World, xs: seq<Op>, ys: seq<Op>)
    ensures AccountPurge.Answers(c, w.db, xs + ys)
         == AccountPurge.Answers(c, w.db, xs) + AccountPurge.Answers(c, Run(c, w, xs).db, ys)
    decreases |xs|
  {
    if xs == [] {
      assert xs + ys == ys;
    } else {
      assert (xs + ys)[0] == xs[0] && (xs + ys)[1..] == xs[1..] + ys;
      assert Next(c, w, xs[0]).db == Step(c, w.db, xs[0]).0;
      hide Next, Step;
      AnswersAppend(c, Next(c, w, xs[0]), xs[1..], ys);
    }
  }

  lemma {:induction false} WithoutPurgesAppend(xs: seq<Op>, ys: seq<Op>)
    requires NoPurges(xs)
    ensures AccountPurge.WithoutPurges(xs + ys) == xs + AccountPurge.WithoutPurges(ys)
    decreases |xs|
  {
    if xs == [] {
      assert xs + ys == ys;
    } else {
      assert (xs + ys)[0] == xs[0] && (xs + ys)[1..] == xs[1..] + ys;
      WithoutPurgesAppend(xs[1..], ys);
    }
  }

  lemma {:induction false} PunctualAppend(xs: seq<Op>, ys: seq<Op>, lag: int, skew: int)
    requires NoPurges(xs) && AccountPurge.Punctual(ys, AccountPurge.NONE_YET, lag, skew)
    ensures AccountPurge.Punctual(xs + ys, AccountPurge.NONE_YET, lag, skew)
    decreases |xs|
  {
    if xs == [] {
      assert xs + ys == ys;
    } else {
      assert (xs + ys)[0] == xs[0] && (xs + ys)[1..] == xs[1..] + ys;
      PunctualAppend(xs[1..], ys, lag, skew);
    }
  }

  /** The links and sessions that a run draws. */
  ghost function Drawn(ops: seq<Op>): (set<Hash>, set<Hash>) {
    if ops == [] then ({}, {}) else
      var op, later := ops[0], Drawn(ops[1..]);
      (AccountPurge.Secret(op, op.RequestLogin?) + later.0, AccountPurge.Secret(op, op.Issue?) + later.1)
  }

  lemma {:induction false} FreshSecretsAppend(xs: seq<Op>, ys: seq<Op>, tokens: set<Hash>, sessions: set<Hash>)
    requires AccountPurge.FreshSecrets(xs, tokens, sessions)
    requires AccountPurge.FreshSecrets(ys, tokens + Drawn(xs).0, sessions + Drawn(xs).1)
    ensures AccountPurge.FreshSecrets(xs + ys, tokens, sessions)
    decreases |xs|
  {
    if xs == [] {
      assert xs + ys == ys && tokens + {} == tokens && sessions + {} == sessions;
    } else {
      var op := xs[0];
      var t, u := AccountPurge.Secret(op, op.RequestLogin?), AccountPurge.Secret(op, op.Issue?);
      assert (xs + ys)[0] == xs[0] && (xs + ys)[1..] == xs[1..] + ys;
      assert tokens + Drawn(xs).0 == tokens + t + Drawn(xs[1..]).0;
      assert sessions + Drawn(xs).1 == sessions + u + Drawn(xs[1..]).1;
      FreshSecretsAppend(xs[1..], ys, tokens + t, sessions + u);
    }
  }

  lemma TwoAnswers(c: Config, w: World, purge: Op, op: Op)
    requires purge.Purge?() && !op.Purge?()
    ensures AccountPurge.Answers(c, w.db, [purge, op]) == [Step(c, Step(c, w.db, purge).0, op).1]
    ensures AccountPurge.Answers(c, w.db, [op]) == [Step(c, w.db, op).1]
    ensures AccountPurge.WithoutPurges([purge, op]) == [op]
  {
    assert [purge] + [op] == [purge, op] && [op] + NO_OPS == [op];
    assert AccountPurge.Answers(c, Step(c, w.db, op).0, NO_OPS) == [];
    assert AccountPurge.Answers(c, Step(c, Step(c, w.db, purge).0, op).0, NO_OPS) == [];
    hide Step;
    AccountPurge.AnswersFirst(c, w.db, purge, [op]);
    AccountPurge.AnswersFirst(c, Step(c, w.db, purge).0, op, NO_OPS);
    AccountPurge.AnswersFirst(c, w.db, op, NO_OPS);
    assert [purge, op][1..] == [op] && [op][1..] == [];
    assert AccountPurge.WithoutPurges([op]) == [op];
  }

  lemma TwoArePunctual(purge: Op, op: Op, lag: int, skew: int)
    requires purge.Purge?() && AccountPurge.OnTime(op, AccountPurge.Noted(AccountPurge.NONE_YET, purge), lag, skew)
    ensures AccountPurge.Punctual([purge, op], AccountPurge.NONE_YET, lag, skew)
  {
    assert [purge, op][1..] == [op] && [op][1..] == [];
  }

  /** A purge that changes the next answer is observed. */
  lemma PurgeShows(c: Config, lag: int, skew: int, before: seq<Op>, purge: Op, op: Op)
    requires NoPurges(before) && (purge.PurgeTokens? || purge.PurgeHandles?)
    requires op.RequestLogin? || op.CompleteLogin? || op.Claim?
    requires AccountPurge.FreshSecrets(before + [purge, op], {}, {})
    requires AccountPurge.OnTime(op, AccountPurge.Noted(AccountPurge.NONE_YET, purge), lag, skew)
    requires
      var db := Run(c, START, before).db;
      Step(c, Step(c, db, purge).0, op).1 != Step(c, db, op).1
    ensures !AccountPurge.PurgesUnobservable(c, lag, skew)
  {
    assert purge.Purge?() && !op.Purge?();
    hide Step, Run, AccountPurge.FreshSecrets, AccountPurge.OnTime, AccountPurge.Punctual, AccountPurge.Answers,
         AccountPurge.WithoutPurges;
    assert START.db == EMPTY;
    var w := Run(c, START, before);
    TwoArePunctual(purge, op, lag, skew);
    PunctualAppend(before, [purge, op], lag, skew);
    TwoAnswers(c, w, purge, op);
    AnswersAppend(c, START, before, [purge, op]);
    AnswersAppend(c, START, before, [op]);
    WithoutPurgesAppend(before, [purge, op]);
    LastAnswersDiffer(AccountPurge.Answers(c, EMPTY, before),
                      Step(c, Step(c, w.db, purge).0, op).1, Step(c, w.db, op).1);
  }

  lemma LastAnswersDiffer(a: seq<Answer>, x: Answer, y: Answer)
    requires x != y
    ensures a + [x] != a + [y]
  {
    assert (a + [x])[|a|] == x && (a + [y])[|a|] == y;
  }

  lemma SecretsOfTwo(purge: Op, op: Op, tokens: set<Hash>, sessions: set<Hash>)
    requires purge.Purge?() && (op.RequestLogin? ==> op.hash !in tokens) && !op.Issue?
    ensures AccountPurge.FreshSecrets([purge, op], tokens, sessions)
  {
    assert [purge, op][1..] == [op] && [op][1..] == [];
    assert tokens + {} == tokens && sessions + {} == sessions;
  }

  lemma BudgetRunIsFresh(email: string, purge: Op, ask: Op)
    requires purge.PurgeTokens? && ask.RequestLogin? && ask.hash == 4
    ensures AccountPurge.FreshSecrets(Three(email, []) + [purge, ask], {}, {}) && NoPurges(Three(email, []))
  {
    var before := Three(email, []);
    ThreeDraw(email);
    SecretsOfTwo(purge, ask, {} + Drawn(before).0, {} + Drawn(before).1);
    FreshSecretsAppend(before, [purge, ask], {}, {});
  }

  lemma LateTokensOnTime(purge: int, op: Op, lag: int, skew: int)
    requires (op.RequestLogin? || op.CompleteLogin?) && purge <= op.now + lag
    ensures AccountPurge.OnTime(op, AccountPurge.Noted(AccountPurge.NONE_YET, PurgeTokens(purge)), lag, skew)
  {
  }

  /** The budget forgets links that a purge took. */
  lemma BudgetForgets(c: Config, email: string, lag: int, skew: int)
    requires c.window + lag > c.retention + c.ttl + 1
    ensures !AccountPurge.PurgesUnobservable(c, lag, skew)
  {
    hide *;
    var at := c.retention + c.ttl + 1;
    var purge, ask := PurgeTokens(at), RequestLogin(email, 4, at - lag);
    BudgetRunIsFresh(email, purge, ask);
    LateTokensOnTime(at, ask, lag, skew);
    ThreeRefuses(c, email, ask);
    ThreeRunsDb(c, email);
    AccountPurge.ThreeArePurged(c, email, at);
    AccountPurge.MintsOnEmpty(c, email, 4, ask.now);
    PurgeShows(c, lag, skew, Three(email, []), purge, ask);
  }

  lemma ThreeRunsDb(c: Config, email: string)
    ensures Run(c, START, Three(email, [])).db == EMPTY.(tokens := ThreeTokens(c, email))
  {
    hide Run;
    AccountLogin.ThreeRuns(c, email);
  }

  lemma ThreeRefuses(c: Config, email: string, ask: Op)
    requires ask.RequestLogin? && ask.email == email && ask.now - c.window < 0
    ensures Step(c, EMPTY.(tokens := ThreeTokens(c, email)), ask).1.OverBudget?
  {
    assert RecentTokens(ThreeTokens(c, email), email, ask.now - c.window) == {1, 2, 3};
  }

  lemma ThreeDraw(email: string)
    ensures NoPurges(Three(email, [])) && AccountPurge.FreshSecrets(Three(email, []), {}, {})
    ensures Drawn(Three(email, [])).0 == {1, 2, 3} && Drawn(Three(email, [])).1 == {}
  {
    var a, b, d := RequestLogin(email, 1, 0), RequestLogin(email, 2, 0), RequestLogin(email, 3, 0);
    var s := Three(email, []);
    assert s == [a, b, d] && s[1..] == [b, d] && [b, d][1..] == [d] && [d][1..] == [];
    assert AccountPurge.FreshSecrets([d], {} + {1} + {2}, {} + {} + {});
    assert AccountPurge.FreshSecrets([b, d], {} + {1}, {} + {});
    var none: (set<Hash>, set<Hash>) := ({}, {});
    assert Drawn([]) == none;
    assert Drawn([d]).0 == {3} + none.0 && Drawn([d]).1 == {} + none.1;
    assert Drawn([b, d]).0 == {2} + Drawn([d]).0 && Drawn([b, d]).1 == {} + Drawn([d]).1;
    assert Drawn(s).0 == {1} + Drawn([b, d]).0 && Drawn(s).1 == {} + Drawn([b, d]).1;
  }

  /** The login that starts before a purge and runs after it. */
  lemma LoginNoticesPurge(c: Config, email: string, lag: int, skew: int)
    requires lag > c.retention + 1
    ensures !AccountPurge.PurgesUnobservable(c, lag, skew)
  {
    hide *;
    var purge := PurgeTokens(c.ttl + c.retention + 1);
    LoginRunIsFresh(c, email, purge);
    LateTokensOnTime(purge.now, LateLogin(c), lag, skew);
    PurgedDb(c, email);
    LateLoginFails(c, email);
    PurgeShows(c, lag, skew, MintRun(email), purge, LateLogin(c));
  }

  lemma LoginRunIsFresh(c: Config, email: string, purge: Op)
    requires purge.PurgeTokens?
    ensures AccountPurge.FreshSecrets(MintRun(email) + [purge, LateLogin(c)], {}, {}) && NoPurges(MintRun(email))
    ensures LateLogin(c).CompleteLogin? && LateLogin(c).now == c.ttl - 1
  {
    var before := MintRun(email);
    assert before == [RequestLogin(email, 1, 0)] && before[1..] == [];
    SecretsOfTwo(purge, LateLogin(c), {} + Drawn(before).0, {} + Drawn(before).1);
    FreshSecretsAppend(before, [purge, LateLogin(c)], {}, {});
  }

  lemma NextDb(c: Config, w: World, op: Op)
    ensures Next(c, w, op).db == Step(c, w.db, op).0
  {
  }

  lemma PurgedDb(c: Config, email: string)
    ensures Run(c, START, MintAndPurge(c, email)).db
         == Step(c, Run(c, START, MintRun(email)).db, PurgeTokens(c.ttl + c.retention + 1)).0
  {
    var w, purge := Run(c, START, MintRun(email)), PurgeTokens(c.ttl + c.retention + 1);
    assert MintAndPurge(c, email) == MintRun(email) + [purge];
    hide *;
    NextDb(c, w, purge);
    AccountHandles.RunOne(c, w, purge);
    AccountHandles.RunAppend(c, START, MintRun(email), [purge]);
  }

  /** The claim that comes too early after a purge that came too early. */
  lemma ClaimNoticesPurge(c: Config, email: string, handle: string, lag: int, skew: int)
    requires skew > 1
    ensures !AccountPurge.PurgesUnobservable(c, lag, skew)
  {
    hide *;
    var claim := Claim(1, handle, c.reservation - 1);
    ClaimRunIsFresh(c, email, handle, claim, lag, skew);
    SweptDb(c, email, handle);
    EarlyPurgeFreesHandle(c, email, handle, c.reservation - 1);
    PurgeShows(c, lag, skew, Successor(c, email, handle), Sweep(c), claim);
  }

  lemma ClaimRunIsFresh(c: Config, email: string, handle: string, claim: Op, lag: int, skew: int)
    requires claim.Claim? && claim.now == c.reservation - 1 && skew > 1
    ensures Sweep(c).PurgeHandles? && NoPurges(Successor(c, email, handle))
    ensures AccountPurge.FreshSecrets(Successor(c, email, handle) + [Sweep(c), claim], {}, {})
    ensures AccountPurge.OnTime(claim, AccountPurge.Noted(AccountPurge.NONE_YET, Sweep(c)), lag, skew)
  {
    var before := Successor(c, email, handle);
    SuccessorDraws(c, email, handle);
    SecretsOfTwo(Sweep(c), claim, {} + Drawn(before).0, {} + Drawn(before).1);
    FreshSecretsAppend(before, [Sweep(c), claim], {}, {});
  }

  lemma SweptDb(c: Config, email: string, handle: string)
    ensures Run(c, START, Successor(c, email, handle) + [Sweep(c)]).db
         == Step(c, Run(c, START, Successor(c, email, handle)).db, Sweep(c)).0
  {
    hide *;
    NextDb(c, Run(c, START, Successor(c, email, handle)), Sweep(c));
    SweptRuns(c, email, handle);
  }

  lemma SuccessorDraws(c: Config, email: string, handle: string)
    ensures NoPurges(Successor(c, email, handle)) && AccountPurge.FreshSecrets(Successor(c, email, handle), {}, {})
  {
    var a, b := RequestLogin(email, 1, 0), CompleteLogin(1, 0, LoginTime(c));
    var d, e := Claim(0, handle, 0), Delete(0, 0);
    var f, g := RequestLogin(email, 2, 0), CompleteLogin(2, 1, LoginTime(c));
    var s := Successor(c, email, handle);
    assert s == [a, b, d, e, f, g];
    assert s[1..] == [b, d, e, f, g] && [b, d, e, f, g][1..] == [d, e, f, g] && [d, e, f, g][1..] == [e, f, g];
    assert [e, f, g][1..] == [f, g] && [f, g][1..] == [g] && [g][1..] == [];
    assert AccountPurge.FreshSecrets([f, g], {} + {1} + {} + {} + {}, {} + {} + {} + {} + {});
    assert AccountPurge.FreshSecrets([e, f, g], {} + {1} + {} + {}, {} + {} + {} + {});
    assert AccountPurge.FreshSecrets([d, e, f, g], {} + {1} + {}, {} + {} + {});
    assert AccountPurge.FreshSecrets([b, d, e, f, g], {} + {1}, {} + {});
  }

  /**
   Main result, in any order: with transactions that start at most `lag` behind the purges
   before them and claims at most `skew` behind, a run answers as it would without its
   purges, exactly when no purge takes a row that a transaction so far behind would have
   used: a link that the budget counts, a link or session that still works, a reservation.
   */
  lemma LaggingPurgesUnobservableIff(c: Config, lag: int, skew: int)
    ensures AccountPurge.PurgesUnobservable(c, lag, skew) <==>
              c.window + lag <= c.retention + c.ttl + 1 && lag <= c.retention + 1 && skew <= 1
  {
    if c.window + lag > c.retention + c.ttl + 1 {
      BudgetForgets(c, "a@b.c", lag, skew);
    } else if lag > c.retention + 1 {
      LoginNoticesPurge(c, "a@b.c", lag, skew);
    } else if skew > 1 {
      ClaimNoticesPurge(c, "a@b.c", "ana", lag, skew);
    } else {
      AccountPurge.PurgesAreUnobservable(c, lag, skew);
    }
  }

  /** In the deployed program that is a lag of a week and a second, and a skew of a second. */
  lemma DeployedPurgesAreUnobservable(lag: int, skew: int)
    ensures AccountPurge.PurgesUnobservable(DEPLOYED, lag, skew) <==> lag <= 7 * 86400 + 1 && skew <= 1
    ensures AccountPurge.PurgesUnobservableInOrder(DEPLOYED)
  {
    LaggingPurgesUnobservableIff(DEPLOYED, lag, skew);
    AccountPurge.PurgesUnobservableIff(DEPLOYED);
  }
}
