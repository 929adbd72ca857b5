/**
 The magic link: the sign-in budget, the one live link per address, and why the
 budget cannot lock anybody out.
 */
module AccountLogin {
  import opened Common
  import opened AccountModel
  import opened AccountWorld
  import opened AccountExample

  // ------------------------------------------------------------ the invariant

  ghost predicate TokensAreMints(c: Config, w: World) {
    forall h <- w.db.tokens ::
      && h in w.mints && h !in w.erased
      && w.mints[h] == Mint(w.db.tokens[h].email, w.db.tokens[h].createdAt)
      && w.db.tokens[h].expiresAt == w.db.tokens[h].createdAt + c.ttl
  }

  /** A purge since found the link out of date. */
  ghost predicate PurgedSince(c: Config, w: World, h: Hash)
    requires h in w.mints
  {
    h in w.linkPurges && w.mints[h].at + c.ttl < w.linkPurges[h] - c.retention
  }

  /** A mint leaves the table exactly with its account or by such a purge. */
  ghost predicate MintsAreKept(c: Config, w: World) {
    && w.erased <= w.mints.Keys && w.linkPurges.Keys <= w.mints.Keys
    && (forall h <- w.linkPurges :: w.tokenPurge.Some? && w.linkPurges[h] <= w.tokenPurge.value)
    && (forall h <- w.mints | h !in w.erased :: h in w.db.tokens <==> !PurgedSince(c, w, h))
  }

  ghost predicate UnspentIsLast(w: World) {
    forall h <- w.db.tokens | w.db.tokens[h].consumedAt.None? ::
      w.db.tokens[h].email in w.last && w.last[w.db.tokens[h].email] == h
  }

  ghost predicate LastIsMinted(w: World) {
    forall e <- w.last ::
      && w.last[e] in w.mints && w.mints[w.last[e]].email == e && w.last[e] !in w.erased
  }

  /** The last link of an address is only ever spent by a login. */
  ghost predicate LastSpentByLogin(w: World) {
    forall e <- w.last | w.last[e] in w.db.tokens && w.db.tokens[w.last[e]].consumedAt.Some? :: w.last[e] in w.spends
  }

  ghost predicate SpentOnce(w: World) {
    && (forall i, j | 0 <= i < j < |w.spends| :: w.spends[i] != w.spends[j])
    && (forall h <- w.spends :: h in w.mints && (h in w.db.tokens ==> w.db.tokens[h].consumedAt.Some?))
  }

  ghost predicate Valid(c: Config, w: World) {
    && TokensAreMints(c, w) && MintsAreKept(c, w)
    && UnspentIsLast(w) && LastIsMinted(w) && LastSpentByLogin(w) && SpentOnce(w)
  }

  /** What minting does to the world. */
  lemma MintedWorld(c: Config, w: World, op: Op)
    requires op.RequestLogin? && Step(c, w.db, op).1.Minted?
    ensures Next(c, w, op)
         == w.(db := w.db.(tokens := Invalidated(w.db.tokens, op.email, op.now)
                                     [op.hash := Token(op.email, op.now, op.now + c.ttl, None)]),
               mints := w.mints[op.hash := Mint(op.email, op.now)],
               last := w.last[op.email := op.hash])
  {
  }

  lemma MintKeepsTokens(c: Config, w: World, w': World, op: Op)
    requires Valid(c, w) && op.RequestLogin? && Fresh(w, op) && Step(c, w.db, op).1.Minted? && w' == Next(c, w, op)
    ensures TokensAreMints(c, w') && SpentOnce(w')
  {
    assert op.hash !in w.erased;
    hide Next, Step, MintsAreKept;
    MintedWorld(c, w, op);
  }

  lemma MintKeepsMints(c: Config, w: World, w': World, op: Op)
    requires Valid(c, w) && op.RequestLogin? && Fresh(w, op) && Step(c, w.db, op).1.Minted? && w' == Next(c, w, op)
    ensures MintsAreKept(c, w')
  {
    hide Next, Step;
    MintedWorld(c, w, op);
    assert op.hash !in w'.linkPurges && op.hash !in w'.erased && op.hash in w'.db.tokens;
  }

  lemma MintKeepsLast(c: Config, w: World, w': World, op: Op)
    requires Valid(c, w) && op.RequestLogin? && Fresh(w, op) && Step(c, w.db, op).1.Minted? && w' == Next(c, w, op)
    ensures UnspentIsLast(w') && LastIsMinted(w') && LastSpentByLogin(w')
  {
    MintedWorld(c, w, op);
    forall e <- w'.last | w'.last[e] in w'.db.tokens && w'.db.tokens[w'.last[e]].consumedAt.Some?
      ensures w'.last[e] in w'.spends
    {
      // Invalidation only touches links of the same address, whose last link is now the new one.
      assert e != op.email ==> w.db.tokens[w.last[e]].email == e;
    }
  }

  lemma MintKeepsValid(c: Config, w: World, op: Op)
    requires Valid(c, w) && op.RequestLogin? && Fresh(w, op)
    ensures Valid(c, Next(c, w, op))
  {
    if Step(c, w.db, op).1.Minted? {
      MintKeepsTokens(c, w, Next(c, w, op), op);
      MintKeepsMints(c, w, Next(c, w, op), op);
      MintKeepsLast(c, w, Next(c, w, op), op);
    } else {
      RefusalChangesNothing(c, w, op);
    }
  }

  lemma SpendKeepsSpentOnce(c: Config, w: World, op: Op)
    requires Valid(c, w) && op.CompleteLogin?
    ensures SpentOnce(Next(c, w, op))
  {
    var w' := Next(c, w, op);
    if Step(c, w.db, op).1.SignedIn? {
      assert w'.spends == w.spends + [op.hash] && op.hash !in w.spends;
      assert w'.db.tokens == w.db.tokens[op.hash := w.db.tokens[op.hash].(consumedAt := Some(op.now))];
    }
  }

  lemma SpendKeepsLast(c: Config, w: World, op: Op)
    requires Valid(c, w) && op.CompleteLogin?
    ensures
      var w' := Next(c, w, op);
      UnspentIsLast(w') && LastIsMinted(w') && LastSpentByLogin(w')
  {
    hide SpentOnce, MintsAreKept;
    var w' := Next(c, w, op);
    if Step(c, w.db, op).1.SignedIn? {
      assert w'.spends == w.spends + [op.hash];
      assert w'.db.tokens == w.db.tokens[op.hash := w.db.tokens[op.hash].(consumedAt := Some(op.now))];
    }
  }

  lemma SpendKeepsMints(c: Config, w: World, op: Op)
    requires Valid(c, w) && op.CompleteLogin?
    ensures
      var w' := Next(c, w, op);
      TokensAreMints(c, w') && MintsAreKept(c, w')
  {
    hide SpentOnce, UnspentIsLast, LastIsMinted, LastSpentByLogin;
    var w' := Next(c, w, op);
    if Step(c, w.db, op).1.SignedIn? {
      assert w'.db.tokens == w.db.tokens[op.hash := w.db.tokens[op.hash].(consumedAt := Some(op.now))];
    }
  }

  lemma SpendKeepsValid(c: Config, w: World, op: Op)
    requires Valid(c, w) && op.CompleteLogin?
    ensures Valid(c, Next(c, w, op))
  {
    hide Next, TokensAreMints, MintsAreKept, UnspentIsLast, LastIsMinted, LastSpentByLogin, SpentOnce;
    SpendKeepsMints(c, w, op);
    SpendKeepsLast(c, w, op);
    SpendKeepsSpentOnce(c, w, op);
  }

  lemma DeleteKeepsValid(c: Config, w: World, op: Op)
    requires Valid(c, w) && op.Delete?
    ensures Valid(c, Next(c, w, op))
  {
  }

  lemma PurgeKeepsValid(c: Config, w: World, op: Op)
    requires Valid(c, w) && op.PurgeTokens?
    ensures Valid(c, Next(c, w, op))
  {
  }

  lemma OtherLeavesLinks(c: Config, w: World, op: Op)
    requires !op.RequestLogin? && !op.CompleteLogin? && !op.Delete? && !op.PurgeTokens?
    ensures
      var w' := Next(c, w, op);
      && w'.db.tokens == w.db.tokens && w'.mints == w.mints && w'.erased == w.erased && w'.last == w.last
      && w'.spends == w.spends && w'.tokenPurge == w.tokenPurge && w'.linkPurges == w.linkPurges
  {
  }

  lemma OtherKeepsValid(c: Config, w: World, op: Op)
    requires Valid(c, w) && !op.RequestLogin? && !op.CompleteLogin? && !op.Delete? && !op.PurgeTokens?
    ensures Valid(c, Next(c, w, op))
  {
    hide Next;
    OtherLeavesLinks(c, w, op);
  }

  lemma StepKeepsValid(c: Config, w: World, op: Op)
    requires Valid(c, w) && Fresh(w, op)
    ensures Valid(c, Next(c, w, op))
  {
    hide Next, Valid;
    if op.RequestLogin? {
      MintKeepsValid(c, w, op);
    } else if op.CompleteLogin? {
      SpendKeepsValid(c, w, op);
    } else if op.Delete? {
      DeleteKeepsValid(c, w, op);
    } else if op.PurgeTokens? {
      PurgeKeepsValid(c, w, op);
    } else {
      OtherKeepsValid(c, w, op);
    }
  }

  lemma {:induction false} RunKeepsValid(c: Config, w: World, ops: seq<Op>)
    requires Valid(c, w) && FreshRun(c, w, ops)
    ensures Valid(c, Run(c, w, ops))
    decreases |ops|
  {
    if ops != [] {
      StepKeepsValid(c, w, ops[0]);
      RunKeepsValid(c, Next(c, w, ops[0]), ops[1..]);
    }
  }

  // ------------------------------------------------------- the sign-in budget

  /** Links minted for an address within the window that ends at T, since the account was last deleted. */
  ghost function MintedWithin(c: Config, w: World, email: string, T: int): set<Hash> {
    set h | h in w.mints && h !in w.erased && w.mints[h].email == email && T - c.window < w.mints[h].at <= T
  }

  ghost predicate WithinBudget(c: Config, w: World) {
    forall email, T :: |MintedWithin(c, w, email, T)| <= LOGIN_BUDGET
  }

  /** The request starts at most `lag` behind every earlier purge; a lag below zero means ahead of it. */
  ghost predicate StartsBehind(w: World, op: Op, lag: int) {
    op.RequestLogin? && w.tokenPurge.Some? ==> w.tokenPurge.value <= op.now + lag
  }

  /** Start times may reach the lock in any order; they only lag so far behind the purges. */
  ghost predicate PunctualRun(c: Config, w: World, ops: seq<Op>, lag: int)
    decreases |ops|
  {
    ops == [] || (StartsBehind(w, ops[0], lag) && PunctualRun(c, Next(c, w, ops[0]), ops[1..], lag))
  }

  /** Whatever of the window was minted before is still in the table to be counted. */
  lemma WindowIsCounted(c: Config, w: World, op: Op, T: int, lag: int)
    requires Valid(c, w) && op.RequestLogin? && op.now <= T
    requires StartsBehind(w, op, lag) && c.window + lag <= c.retention + c.ttl + 1
    ensures |MintedWithin(c, w, op.email, T)| <= |RecentTokens(w.db.tokens, op.email, op.now - c.window)|
  {
    var before := MintedWithin(c, w, op.email, T);
    var counted := RecentTokens(w.db.tokens, op.email, op.now - c.window);
    forall h <- before ensures h in counted {
      assert !PurgedSince(c, w, h);
    }
    SubsetIsNoLarger(before, counted);
  }

  lemma MintEntersWindow(c: Config, w: World, op: Op, email: string, T: int)
    requires op.RequestLogin? && Step(c, w.db, op).1.Minted? && Fresh(w, op)
    ensures |MintedWithin(c, Next(c, w, op), email, T)|
         <= |MintedWithin(c, w, email, T)| + (if op.email == email && T - c.window < op.now <= T then 1 else 0)
  {
    MintedWorld(c, w, op);
    var before, after := MintedWithin(c, w, email, T), MintedWithin(c, Next(c, w, op), email, T);
    if op.email == email && T - c.window < op.now <= T {
      SubsetIsNoLarger(after, before + {op.hash});
    } else {
      SubsetIsNoLarger(after, before);
    }
  }

  lemma MintStaysWithinBudget(c: Config, w: World, op: Op, email: string, T: int, lag: int)
    requires Valid(c, w) && op.RequestLogin? && Fresh(w, op)
    requires StartsBehind(w, op, lag) && c.window + lag <= c.retention + c.ttl + 1
    requires |MintedWithin(c, w, email, T)| <= LOGIN_BUDGET
    ensures |MintedWithin(c, Next(c, w, op), email, T)| <= LOGIN_BUDGET
  {
    if Step(c, w.db, op).1.Minted? {
      if op.email == email && T - c.window < op.now <= T {
        WindowIsCounted(c, w, op, T, lag);
      }
      MintEntersWindow(c, w, op, email, T);
    } else {
      RefusalChangesNothing(c, w, op);
    }
  }

  lemma StepStaysWithinBudget(c: Config, w: World, op: Op, lag: int)
    requires Valid(c, w) && Fresh(w, op) && WithinBudget(c, w)
    requires StartsBehind(w, op, lag) && c.window + lag <= c.retention + c.ttl + 1
    ensures WithinBudget(c, Next(c, w, op))
  {
    forall email, T ensures |MintedWithin(c, Next(c, w, op), email, T)| <= LOGIN_BUDGET {
      if op.RequestLogin? {
        MintStaysWithinBudget(c, w, op, email, T, lag);
      } else {
        SubsetIsNoLarger(MintedWithin(c, Next(c, w, op), email, T), MintedWithin(c, w, email, T));
      }
    }
  }

  lemma {:induction false} RunStaysWithinBudget(c: Config, w: World, ops: seq<Op>, lag: int)
    requires Valid(c, w) && FreshRun(c, w, ops) && WithinBudget(c, w)
    requires PunctualRun(c, w, ops, lag) && c.window + lag <= c.retention + c.ttl + 1
    ensures WithinBudget(c, Run(c, w, ops))
    decreases |ops|
  {
    if ops != [] {
      StepKeepsValid(c, w, ops[0]);
      StepStaysWithinBudget(c, w, ops[0], lag);
      RunStaysWithinBudget(c, Next(c, w, ops[0]), ops[1..], lag);
    }
  }

  /** No address is ever sent more than three links in any window of the budget's length. */
  lemma BudgetHolds(c: Config, ops: seq<Op>, email: string, T: int, lag: int)
    requires FreshRun(c, START, ops)
    requires PunctualRun(c, START, ops, lag) && c.window + lag <= c.retention + c.ttl + 1
    ensures |MintedWithin(c, Run(c, START, ops), email, T)| <= LOGIN_BUDGET
  {
    RunStaysWithinBudget(c, START, ops, lag);
  }

  ghost predicate BudgetKept(c: Config, lag: int) {
    forall ops: seq<Op>, email: string, T: int | FreshRun(c, START, ops) && PunctualRun(c, START, ops, lag) ::
      |MintedWithin(c, Run(c, START, ops), email, T)| <= LOGIN_BUDGET
  }

  /** A purge just late enough to take the three links minted at 0, and a request that starts behind it. */
  function PurgeAndAsk(c: Config, email: string, lag: int): seq<Op> {
    var purge := c.retention + c.ttl + 1;
    [PurgeTokens(purge)] + ([RequestLogin(email, 4, Max(purge - lag, 0))] + [])
  }

  /** The purge leaves nothing behind. */
  lemma ThreeArePurged(c: Config, email: string, w: World, at: int)
    requires w.db == EMPTY.(tokens := ThreeTokens(c, email)) && w.tokenPurge.None? && at == c.retention + c.ttl + 1
    ensures Next(c, w, PurgeTokens(at))
         == w.(db := EMPTY, tokenPurge := Some(at), linkPurges := Touched(w.mints.Keys, w.linkPurges, at))
  {
    assert PurgedTokens(c, w.db.tokens, at) == map[];
  }

  lemma PurgeAndAskMints(c: Config, email: string, w: World, lag: int)
    requires w.db == EMPTY.(tokens := ThreeTokens(c, email)) && w.tokenPurge.None? && 4 !in w.mints
    ensures
      var ops, w' := PurgeAndAsk(c, email, lag), Run(c, w, PurgeAndAsk(c, email, lag));
      && FreshRun(c, w, ops) && PunctualRun(c, w, ops, lag)
      && w'.mints == w.mints[4 := Mint(email, Max(c.retention + c.ttl + 1 - lag, 0))] && w'.erased == w.erased
  {
    var at := c.retention + c.ttl + 1;
    var purge, ask := PurgeTokens(at), RequestLogin(email, 4, Max(at - lag, 0));
    var w1 := w.(db := EMPTY, tokenPurge := Some(at), linkPurges := Touched(w.mints.Keys, w.linkPurges, at));
    var none: seq<Op> := [];
    assert PurgeAndAsk(c, email, lag) == [purge] + ([ask] + none);
    assert Run(c, Next(c, w1, ask), none) == Next(c, w1, ask) && FreshRun(c, Next(c, w1, ask), none);
    assert PunctualRun(c, Next(c, w1, ask), none, lag);
    assert Fresh(w, purge) && StartsBehind(w, purge, lag) && StartsBehind(w1, ask, lag);
    hide *;
    ThreeArePurged(c, email, w, at);
    NextMintLater(c, w1, email, 4, ask.now);
    RunFirst(c, w1, ask, none);
    RunFirst(c, w, purge, [ask] + none);
    PunctualFirst(c, w1, ask, none, lag);
    PunctualFirst(c, w, purge, [ask] + none, lag);
  }

  lemma NextMintLater(c: Config, w: World, email: string, hash: Hash, now: int)
    requires w.db == EMPTY && hash !in w.mints
    ensures Fresh(w, RequestLogin(email, hash, now))
    ensures
      var w' := Next(c, w, RequestLogin(email, hash, now));
      w'.mints == w.mints[hash := Mint(email, now)] && w'.erased == w.erased
  {
    assert RecentTokens(w.db.tokens, email, now - c.window) == {};
  }

  lemma PunctualFirst(c: Config, w: World, op: Op, rest: seq<Op>, lag: int)
    ensures PunctualRun(c, w, [op] + rest, lag) <==>
              StartsBehind(w, op, lag) && PunctualRun(c, Next(c, w, op), rest, lag)
  {
    assert ([op] + rest)[0] == op && ([op] + rest)[1..] == rest;
  }

  lemma LateRequestBreaksBudget(c: Config, email: string, lag: int)
    requires c.window > 0 && c.window + lag > c.retention + c.ttl + 1
    ensures !BudgetKept(c, lag)
  {
    hide Next, Run, Invalidated;
    var three, more := Three(email, []), PurgeAndAsk(c, email, lag);
    var at := Max(c.retention + c.ttl + 1 - lag, 0);
    ThreeRuns(c, email);
    PurgeAndAskMints(c, email, Run(c, START, three), lag);
    NoPurgesArePunctual(c, email, lag);
    PunctualAppend(c, START, three, more, lag);
    var w := Run(c, START, three + more);
    assert MintedWithin(c, w, email, at) == {1, 2, 3, 4};
    assert |{1, 2, 3, 4}| == 4;
  }

  lemma NoPurgesArePunctual(c: Config, email: string, lag: int)
    ensures PunctualRun(c, START, Three(email, []), lag)
  {
    var a, b, d := RequestLogin(email, 1, 0), RequestLogin(email, 2, 0), RequestLogin(email, 3, 0);
    var s := Three(email, []);
    assert s == [a, b, d] && s[1..] == [b, d] && s[1..][1..] == [d] && [d][1..] == [];
    var w1 := Next(c, START, a);
    var w2 := Next(c, w1, b);
    assert START.tokenPurge.None? && w1.tokenPurge.None? && w2.tokenPurge.None?;
    assert PunctualRun(c, w2, [d], lag);
    assert PunctualRun(c, w1, [b, d], lag);
  }

  lemma {:induction false} PunctualAppend(c: Config, w: World, xs: seq<Op>, ys: seq<Op>, lag: int)
    requires FreshRun(c, w, xs) && FreshRun(c, Run(c, w, xs), ys)
    requires PunctualRun(c, w, xs, lag) && PunctualRun(c, Run(c, w, xs), ys, lag)
    ensures Run(c, w, xs + ys) == Run(c, Run(c, w, xs), ys)
    ensures FreshRun(c, w, xs + ys) && PunctualRun(c, w, xs + ys, lag)
    decreases |xs|
  {
    if xs == [] {
      assert xs + ys == ys;
    } else {
      hide Next, Fresh, StartsBehind;
      assert (xs + ys)[0] == xs[0] && (xs + ys)[1..] == xs[1..] + ys;
      PunctualAppend(c, Next(c, w, xs[0]), xs[1..], ys, lag);
    }
  }

  /**
   Main result: the budget holds of every run whose requests start at most `lag` behind the
   purges before them, start times in any order, exactly when no purge that far ahead takes
   a link of the request's own window. (With an empty window there is nothing to hold.)
   */
  lemma BudgetHoldsIff(c: Config, lag: int)
    ensures BudgetKept(c, lag) <==> c.window == 0 || c.window + lag <= c.retention + c.ttl + 1
  {
    if c.window > 0 && c.window + lag > c.retention + c.ttl + 1 {
      LateRequestBreaksBudget(c, "a@b.c", lag);
    } else {
      forall ops: seq<Op>, email: string, T: int | FreshRun(c, START, ops) && PunctualRun(c, START, ops, lag)
        ensures |MintedWithin(c, Run(c, START, ops), email, T)| <= LOGIN_BUDGET
      {
        if c.window == 0 {
          assert MintedWithin(c, Run(c, START, ops), email, T) == {};
        } else {
          BudgetHolds(c, ops, email, T, lag);
        }
      }
    }
  }

  /** The deployed budget survives any request that waits for the lock less than a week. */
  lemma DeployedBudgetHolds()
    ensures BudgetKept(DEPLOYED, 7 * 86400 + 1) && !BudgetKept(DEPLOYED, 7 * 86400 + 2)
  {
    BudgetHoldsIff(DEPLOYED, 7 * 86400 + 1);
    BudgetHoldsIff(DEPLOYED, 7 * 86400 + 2);
  }

  // ------------------------------------------------------------ one live link

  /** At most one link of an address is unspent: the one minted last. */
  lemma OneLiveLink(c: Config, ops: seq<Op>, h: Hash)
    requires FreshRun(c, START, ops)
    requires h in Run(c, START, ops).db.tokens && Run(c, START, ops).db.tokens[h].consumedAt.None?
    ensures
      var w := Run(c, START, ops);
      var email := w.db.tokens[h].email;
      && email in w.last && w.last[email] == h
      && (forall g <- w.db.tokens | w.db.tokens[g].email == email && w.db.tokens[g].consumedAt.None? :: g == h)
  {
    RunKeepsValid(c, START, ops);
  }

  /** No link completes two logins, over the whole run. */
  lemma LinkSpentOnce(c: Config, ops: seq<Op>, i: nat, j: nat)
    requires FreshRun(c, START, ops)
    requires i < j < |Run(c, START, ops).spends|
    ensures Run(c, START, ops).spends[i] != Run(c, START, ops).spends[j]
  {
    RunKeepsValid(c, START, ops);
  }

  // --------------------------------------------------------------- no lockout

  /** The links that were counted when the last one of an address was minted, as far as they are still there. */
  ghost function CountedBefore(c: Config, w: World, email: string): set<Hash>
    requires email in w.last && w.last[email] in w.mints
  {
    RecentTokens(w.db.tokens, email, w.mints[w.last[email]].at - c.window) - {w.last[email]}
  }

  /** A purge that takes the last link of an address leaves only links that expire later. */
  ghost predicate PurgedFirst(c: Config, w: World, email: string)
    requires email in w.last && w.last[email] in w.mints
  {
    w.last[email] !in w.db.tokens ==>
      forall g <- w.db.tokens | w.db.tokens[g].email == email ::
        w.db.tokens[g].expiresAt > w.mints[w.last[email]].at + c.ttl
  }

  /** Whatever clock requests and purges read, the last link of an address was minted within budget. */
  ghost predicate LastCounts(c: Config, w: World) {
    && (forall h <- w.db.tokens :: w.db.tokens[h].email in w.last)
    && (forall e <- w.last :: w.last[e] in w.mints)
    && (forall e <- w.last :: |CountedBefore(c, w, e)| < LOGIN_BUDGET && PurgedFirst(c, w, e))
  }

  lemma MintKeepsCount(c: Config, w: World, w': World, op: Op, e: string)
    requires LastCounts(c, w) && op.RequestLogin? && e in w.last && e != op.email && op.hash !in w.mints
    requires w'.mints == w.mints[op.hash := Mint(op.email, op.now)] && w'.last == w.last[op.email := op.hash]
    requires forall h <- w'.db.tokens | w'.db.tokens[h].email == e ::
               h in w.db.tokens && SameLink(w'.db.tokens[h], w.db.tokens[h])
    requires w.last[e] in w.db.tokens ==> w.last[e] in w'.db.tokens
    ensures |CountedBefore(c, w', e)| < LOGIN_BUDGET && PurgedFirst(c, w', e)
  {
    SubsetIsNoLarger(CountedBefore(c, w', e), CountedBefore(c, w, e));
  }

  lemma MintedIsCounted(c: Config, w: World, op: Op)
    requires TokensAreMints(c, w) && op.RequestLogin? && op.hash !in w.mints && Step(c, w.db, op).1.Minted?
    ensures
      var w' := Next(c, w, op);
      && w'.last[op.email] in w'.mints
      && |CountedBefore(c, w', op.email)| < LOGIN_BUDGET && PurgedFirst(c, w', op.email)
  {
    MintedWorld(c, w, op);
    var w' := Next(c, w, op);
    SubsetIsNoLarger(CountedBefore(c, w', op.email), RecentTokens(w.db.tokens, op.email, op.now - c.window));
  }

  lemma MintKeepsCounts(c: Config, w: World, op: Op)
    requires TokensAreMints(c, w) && LastCounts(c, w) && op.RequestLogin? && op.hash !in w.mints
    requires Step(c, w.db, op).1.Minted?
    ensures LastCounts(c, Next(c, w, op))
  {
    hide Next, Step, CountedBefore, PurgedFirst;
    var w' := Next(c, w, op);
    MintedWorld(c, w, op);
    MintedIsCounted(c, w, op);
    forall e <- w'.last
      ensures w'.last[e] in w'.mints && |CountedBefore(c, w', e)| < LOGIN_BUDGET && PurgedFirst(c, w', e)
    {
      if e != op.email {
        MintKeepsCount(c, w, w', op, e);
      }
    }
  }

  ghost predicate SameLink(t: Token, u: Token) {
    t.email == u.email && t.createdAt == u.createdAt && t.expiresAt == u.expiresAt
  }

  /** Links only go, or are spent. */
  ghost predicate Fewer(w: World, w': World) {
    && w'.mints == w.mints
    && (forall e <- w'.last :: e in w.last && w'.last[e] == w.last[e])
    && (forall h <- w'.db.tokens ::
          && h in w.db.tokens && SameLink(w'.db.tokens[h], w.db.tokens[h])
          && (w.db.tokens[h].email in w.last ==> w.db.tokens[h].email in w'.last))
  }

  lemma FewerCounted(c: Config, w: World, w': World, e: string)
    requires LastCounts(c, w) && Fewer(w, w') && e in w'.last
    ensures e in w.last && w'.last[e] == w.last[e] && w.last[e] in w'.mints
    ensures |CountedBefore(c, w', e)| < LOGIN_BUDGET
  {
    hide PurgedFirst;
    SubsetIsNoLarger(CountedBefore(c, w', e), CountedBefore(c, w, e));
  }

  lemma FewerKeepCounts(c: Config, w: World, w': World)
    requires LastCounts(c, w) && Fewer(w, w')
    requires forall e <- w'.last | w.last[e] in w.mints && w.last[e] !in w'.db.tokens :: PurgedFirst(c, w', e)
    ensures LastCounts(c, w')
  {
    forall e <- w'.last ensures |CountedBefore(c, w', e)| < LOGIN_BUDGET {
      FewerCounted(c, w, w', e);
    }
    hide CountedBefore;
  }

  /** As long as no last link goes, that is all it takes. */
  lemma SpentKeepCounts(c: Config, w: World, w': World)
    requires LastCounts(c, w) && Fewer(w, w')
    requires forall e <- w'.last | w.last[e] in w.db.tokens :: w.last[e] in w'.db.tokens
    ensures LastCounts(c, w')
  {
    forall e <- w'.last | w.last[e] in w.mints && w.last[e] !in w'.db.tokens ensures PurgedFirst(c, w', e) {
      assert PurgedFirst(c, w, e);
    }
    FewerKeepCounts(c, w, w');
  }

  lemma PurgeKeepsCounts(c: Config, w: World, op: Op)
    requires TokensAreMints(c, w) && LastCounts(c, w) && op.PurgeTokens?
    ensures LastCounts(c, Next(c, w, op))
  {
    var w' := Next(c, w, op);
    forall e <- w'.last | w.last[e] in w.mints && w.last[e] !in w'.db.tokens ensures PurgedFirst(c, w', e) {
      assert PurgedFirst(c, w, e);
    }
    FewerKeepCounts(c, w, w');
  }

  lemma SpendIsFewer(c: Config, w: World, op: Op)
    requires op.CompleteLogin?
    ensures Fewer(w, Next(c, w, op)) && Next(c, w, op).db.tokens.Keys == w.db.tokens.Keys
  {
    var tokens := Next(c, w, op).db.tokens;
    assert tokens == w.db.tokens || tokens == w.db.tokens[op.hash := w.db.tokens[op.hash].(consumedAt := Some(op.now))];
  }

  lemma DeleteIsFewer(c: Config, w: World, op: Op)
    requires op.Delete?
    ensures Fewer(w, Next(c, w, op))
    ensures forall e <- Next(c, w, op).last :: op.id in w.db.users ==> !SameAddress(e, w.db.users[op.id].email)
    ensures forall h <- w.db.tokens ::
              h in Next(c, w, op).db.tokens
              || (op.id in w.db.users && SameAddress(w.db.tokens[h].email, w.db.users[op.id].email))
  {
  }

  lemma DeleteKeepsCounts(c: Config, w: World, op: Op)
    requires TokensAreMints(c, w) && LastIsMinted(w) && LastCounts(c, w) && op.Delete?
    ensures LastCounts(c, Next(c, w, op))
  {
    DeleteIsFewer(c, w, op);
    hide Next;
    SpentKeepCounts(c, w, Next(c, w, op));
  }

  lemma OtherIsFewer(c: Config, w: World, op: Op)
    requires !op.RequestLogin? && !op.CompleteLogin? && !op.Delete? && !op.PurgeTokens?
    ensures Fewer(w, Next(c, w, op)) && Next(c, w, op).db.tokens == w.db.tokens
  {
  }

  lemma StepKeepsCounts(c: Config, w: World, op: Op)
    requires Valid(c, w) && LastCounts(c, w) && Fresh(w, op)
    ensures LastCounts(c, Next(c, w, op))
  {
    hide Step, Next, LastCounts, TokensAreMints, LastIsMinted, Fewer;
    if op.RequestLogin? {
      if Step(c, w.db, op).1.Minted? {
        MintKeepsCounts(c, w, op);
      } else {
        RefusalChangesNothing(c, w, op);
      }
    } else if op.CompleteLogin? {
      SpendIsFewer(c, w, op);
      SpentKeepCounts(c, w, Next(c, w, op));
    } else if op.Delete? {
      DeleteKeepsCounts(c, w, op);
    } else if op.PurgeTokens? {
      PurgeKeepsCounts(c, w, op);
    } else {
      OtherIsFewer(c, w, op);
      SpentKeepCounts(c, w, Next(c, w, op));
    }
  }

  lemma {:induction false} RunKeepsCounts(c: Config, w: World, ops: seq<Op>)
    requires Valid(c, w) && LastCounts(c, w) && FreshRun(c, w, ops)
    ensures LastCounts(c, Run(c, w, ops))
    decreases |ops|
  {
    if ops != [] {
      StepKeepsValid(c, w, ops[0]);
      StepKeepsCounts(c, w, ops[0]);
      RunKeepsCounts(c, Next(c, w, ops[0]), ops[1..]);
    }
  }

  /** The address still has a link that works, or has just used it. */
  ghost predicate HasWorkingLink(w: World, email: string, now: int) {
    && email in w.last && w.last[email] in w.db.tokens
    && var h := w.last[email];
    && w.db.tokens[h].email == email
    && w.db.tokens[h].expiresAt > now
    && (Usable(w.db.tokens[h], now) || h in w.spends)
  }

  ghost predicate NoLockout(c: Config) {
    forall ops: seq<Op>, ask: Op |
      FreshRun(c, START, ops) && ask.RequestLogin? && Step(c, Run(c, START, ops).db, ask).1.OverBudget? ::
      HasWorkingLink(Run(c, START, ops), ask.email, ask.now)
  }

  lemma RefusalLeavesALink(c: Config, w: World, ask: Op)
    requires Valid(c, w) && LastCounts(c, w) && ask.RequestLogin? && c.window <= c.ttl
    requires Step(c, w.db, ask).1.OverBudget?
    ensures HasWorkingLink(w, ask.email, ask.now)
  {
    hide LastCounts, TokensAreMints, LastIsMinted, HasWorkingLink, RecentTokens, LastSpentByLogin, Step;
    OverBudgetMeans(c, w, ask);
    LastIsCounted(c, w, ask.email, ask.now - c.window);
    LastWorks(c, w, ask.email, ask.now);
  }

  lemma OverBudgetMeans(c: Config, w: World, ask: Op)
    requires ask.RequestLogin? && Step(c, w.db, ask).1.OverBudget?
    ensures |RecentTokens(w.db.tokens, ask.email, ask.now - c.window)| >= LOGIN_BUDGET
  {
  }

  /** When the budget is spent, the last link is one of those that spent it. */
  lemma LastIsCounted(c: Config, w: World, email: string, since: int)
    requires TokensAreMints(c, w) && LastCounts(c, w) && LastIsMinted(w)
    requires |RecentTokens(w.db.tokens, email, since)| >= LOGIN_BUDGET
    ensures email in w.last && w.last[email] in w.db.tokens && w.mints[w.last[email]].at > since
  {
    SomeLinkCounted(c, w, email, since);
    LastIsOfAddress(c, w, email);
    hide LastCounts, TokensAreMints, CountedBefore, PurgedFirst;
    if w.last[email] !in RecentTokens(w.db.tokens, email, since) {
      // Then all that is counted was counted already when the last link was minted.
      AllCountedBefore(c, w, email, since);
      assert false;
    }
  }

  lemma SomeLinkCounted(c: Config, w: World, email: string, since: int)
    requires LastCounts(c, w) && |RecentTokens(w.db.tokens, email, since)| >= LOGIN_BUDGET
    ensures email in w.last
  {
    var g :| g in RecentTokens(w.db.tokens, email, since);
    assert w.db.tokens[g].email == email;
  }

  lemma LastIsOfAddress(c: Config, w: World, email: string)
    requires TokensAreMints(c, w) && LastCounts(c, w) && LastIsMinted(w) && email in w.last
    ensures w.last[email] in w.mints
    ensures w.last[email] in w.db.tokens ==> w.db.tokens[w.last[email]].email == email
    ensures w.last[email] in w.db.tokens ==> w.db.tokens[w.last[email]].createdAt == w.mints[w.last[email]].at
  {
  }

  lemma AllCountedBefore(c: Config, w: World, email: string, since: int)
    requires TokensAreMints(c, w) && LastCounts(c, w) && email in w.last
    requires w.last[email] in w.db.tokens ==> w.db.tokens[w.last[email]].email == email
    requires w.last[email] !in RecentTokens(w.db.tokens, email, since)
    ensures |RecentTokens(w.db.tokens, email, since)| < LOGIN_BUDGET
  {
    assert PurgedFirst(c, w, email);
    SubsetIsNoLarger(RecentTokens(w.db.tokens, email, since), CountedBefore(c, w, email));
  }

  lemma LastWorks(c: Config, w: World, email: string, now: int)
    requires TokensAreMints(c, w) && LastIsMinted(w) && LastSpentByLogin(w) && c.window <= c.ttl
    requires email in w.last && w.last[email] in w.db.tokens && w.mints[w.last[email]].at > now - c.window
    ensures HasWorkingLink(w, email, now)
  {
  }

  /** A refused request changes nothing at all. */
  lemma RefusalChangesNothing(c: Config, w: World, ask: Op)
    requires ask.RequestLogin? && !Step(c, w.db, ask).1.Minted?
    ensures Next(c, w, ask) == w
  {
  }

  /** Spend the budget at 0 and ask again just as the last link expires. */
  lemma LongWindowLocksOut(c: Config, email: string)
    requires c.window > c.ttl
    ensures !NoLockout(c)
  {
    hide Next, Run, FreshRun;
    var ask := RequestLogin(email, 4, c.ttl);
    var ops := Three(email, []);
    ThreeRuns(c, email);
    var w := Run(c, START, ops);
    assert RecentTokens(w.db.tokens, email, c.ttl - c.window) == {1, 2, 3};
    assert Step(c, w.db, ask).1.OverBudget?;
    assert !HasWorkingLink(w, email, c.ttl);
    assert FreshRun(c, START, ops);
  }

  function WorldWith(tokens: map<Hash, Token>, mints: map<Hash, Mint>, email: string, last: Hash): World {
    START.(db := EMPTY.(tokens := tokens), mints := mints, last := map[email := last])
  }

  lemma NextMint(c: Config, w: World, keys: set<Hash>, email: string, hash: Hash)
    requires w.db == EMPTY.(tokens := w.db.tokens) && w.db.tokens.Keys == keys && |keys| <= 2 && hash !in keys
    ensures Next(c, w, RequestLogin(email, hash, 0))
         == w.(db := EMPTY.(tokens := Invalidated(w.db.tokens, email, 0)[hash := Token(email, 0, c.ttl, None)]),
               mints := w.mints[hash := Mint(email, 0)], last := w.last[email := hash])
  {
    AtMostTwo(w.db.tokens, email, 0 - c.window, keys);
  }

  lemma RunFirst(c: Config, w: World, op: Op, rest: seq<Op>)
    ensures Run(c, w, [op] + rest) == Run(c, Next(c, w, op), rest)
    ensures FreshRun(c, w, [op] + rest) <==> Fresh(w, op) && FreshRun(c, Next(c, w, op), rest)
  {
    assert ([op] + rest)[0] == op && ([op] + rest)[1..] == rest;
  }

  lemma ThreeRuns(c: Config, email: string)
    ensures
      var ops := Three(email, []);
      var m := Mint(email, 0);
      && FreshRun(c, START, ops)
      && Run(c, START, ops) == WorldWith(ThreeTokens(c, email), map[1 := m, 2 := m, 3 := m], email, 3)
  {
    var a, b, d := RequestLogin(email, 1, 0), RequestLogin(email, 2, 0), RequestLogin(email, 3, 0);
    var m := Mint(email, 0);
    var w1 := WorldWith(OneToken(c, email), map[1 := m], email, 1);
    var w2 := WorldWith(TwoTokens(c, email), map[1 := m, 2 := m], email, 2);
    var w3 := WorldWith(ThreeTokens(c, email), map[1 := m, 2 := m, 3 := m], email, 3);
    TokensMinted(c, email);
    NextMint(c, START, {}, email, 1);
    NextMint(c, w1, {1}, email, 2);
    NextMint(c, w2, {1, 2}, email, 3);
    assert Next(c, START, a) == w1;
    assert Next(c, w1, b) == w2;
    assert Next(c, w2, d) == w3;
    RunFirst(c, START, a, [b] + ([d] + []));
    RunFirst(c, w1, b, [d] + []);
    RunFirst(c, w2, d, []);
  }

  /**
   Main result: whatever order start times and purges come in, an exhausted budget never
   leaves an address without a working link, exactly when the window does not outlast the link.
   */
  lemma NoLockoutIff(c: Config)
    ensures NoLockout(c) <==> c.window <= c.ttl
  {
    if c.window <= c.ttl {
      forall ops: seq<Op>, ask: Op |
        FreshRun(c, START, ops) && ask.RequestLogin? && Step(c, Run(c, START, ops).db, ask).1.OverBudget?
        ensures HasWorkingLink(Run(c, START, ops), ask.email, ask.now)
      {
        RunKeepsValid(c, START, ops);
        RunKeepsCounts(c, START, ops);
        RefusalLeavesALink(c, Run(c, START, ops), ask);
      }
    } else {
      LongWindowLocksOut(c, "a@b.c");
    }
  }

  /**
   Main result: exactly when a request mints, in every reachable state, whatever the clocks
   read: when fewer than three links of its address, and of no other, are in the window
   that ends with its start. Links count unless their account was deleted since, or a purge
   since has read past their retention.
   */
  lemma RequestSucceedsIff(c: Config, ops: seq<Op>, request: Op)
    requires FreshRun(c, START, ops) && request.RequestLogin? && request.hash !in Run(c, START, ops).mints
    ensures
      var w := Run(c, START, ops);
      var sent := set h |
        && h in w.mints && w.mints[h].email == request.email && w.mints[h].at > request.now - c.window
        && h !in w.erased && (h in w.linkPurges ==> w.linkPurges[h] <= w.mints[h].at + c.ttl + c.retention);
      Step(c, w.db, request).1 == if |sent| < 3 then Minted(request.hash) else OverBudget
  {
    var w := Run(c, START, ops);
    var sent := set h |
      && h in w.mints && w.mints[h].email == request.email && w.mints[h].at > request.now - c.window
      && h !in w.erased && (h in w.linkPurges ==> w.linkPurges[h] <= w.mints[h].at + c.ttl + c.retention);
    RunKeepsValid(c, START, ops);
    CountedAreSent(c, w, request.email, request.now - c.window);
    FreshIsNoToken(c, w, request.hash);
    hide *;
    RequestAnswers(c, w.db, request);
  }

  lemma RequestAnswers(c: Config, db: Db, request: Op)
    requires request.RequestLogin? && request.hash !in db.tokens
    ensures
      var recent := RecentTokens(db.tokens, request.email, request.now - c.window);
      Step(c, db, request).1 == if |recent| < 3 then Minted(request.hash) else OverBudget
  {
  }

  lemma FreshIsNoToken(c: Config, w: World, h: Hash)
    requires Valid(c, w) && h !in w.mints
    ensures h !in w.db.tokens
  {
  }

  lemma CountedAreSent(c: Config, w: World, email: string, since: int)
    requires Valid(c, w)
    ensures RecentTokens(w.db.tokens, email, since) == set h |
              && h in w.mints && w.mints[h].email == email && w.mints[h].at > since
              && h !in w.erased && (h in w.linkPurges ==> w.linkPurges[h] <= w.mints[h].at + c.ttl + c.retention)
  {
    hide UnspentIsLast, LastIsMinted, LastSpentByLogin, SpentOnce;
  }
}
