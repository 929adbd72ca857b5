/**
 Purging is housekeeping: inserting any number of purges anywhere in a run
 changes no answer to anybody.
 */
module AccountPurge {
  import opened Common
  import opened AccountModel
  import opened AccountExample

  /** The answers of a run, purges left out. */
  ghost function Answers(c: Config, db: Db, ops: seq<Op>): seq<Answer>
    decreases |ops|
  {
    if ops == [] then [] else
      var r := Step(c, db, ops[0]);
      var later := Answers(c, r.0, ops[1..]);
      if ops[0].Purge?() then later else [r.1] + later
  }

  function WithoutPurges(ops: seq<Op>): seq<Op> {
    if ops == [] then [] else
      var later := WithoutPurges(ops[1..]);
      if ops[0].Purge?() then later else [ops[0]] + later
  }

  /** Secrets are never drawn twice. */
  ghost predicate FreshSecrets(ops: seq<Op>, tokens: set<Hash>, sessions: set<Hash>)
    decreases |ops|
  {
    ops == [] ||
    var op := ops[0];
    && (op.RequestLogin? ==> op.hash !in tokens)
    && (op.Issue? ==> op.hash !in sessions)
    && FreshSecrets(ops[1..], tokens + Secret(op, op.RequestLogin?), sessions + Secret(op, op.Issue?))
  }

  function Secret(op: Op, draws: bool): set<Hash>
    requires draws ==> op.RequestLogin? || op.Issue?
  {
    if draws then {op.hash} else {}
  }

  /** The latest reading of each kind of purge so far. */
  datatype Purges = Purges(tokens: Option<int>, sessions: Option<int>, handles: Option<int>)

  const NONE_YET := Purges(None, None, None)

  function Noted(p: Purges, op: Op): Purges {
    match op
    case PurgeTokens(now) => p.(tokens := Later(p.tokens, now))
    case PurgeSessions(now) => p.(sessions := Later(p.sessions, now))
    case PurgeHandles(now) => p.(handles := Later(p.handles, now))
    case _ => p
  }

  predicate Behind(purge: Option<int>, now: int, lag: int) {
    purge.Some? ==> purge.value <= now + lag
  }

  /**
   Transactions on the database's clock start at most `lag` behind the purges before them.
   Claims go by the application's clock, which is at most `skew` behind that of the purges.
   */
  predicate OnTime(op: Op, p: Purges, lag: int, skew: int) {
    && (op.RequestLogin? || op.CompleteLogin? ==> Behind(p.tokens, op.now, lag))
    && (op.Lookup? || op.Revoke? ==> Behind(p.sessions, op.now, lag))
    && (op.Claim? ==> Behind(p.handles, op.now, skew))
  }

  ghost predicate Punctual(ops: seq<Op>, p: Purges, lag: int, skew: int)
    decreases |ops|
  {
    ops == [] || (OnTime(ops[0], p, lag, skew) && Punctual(ops[1..], Noted(p, ops[0]), lag, skew))
  }

  /** One clock for everything that never runs backwards. */
  ghost predicate Clocked(ops: seq<Op>, t: int)
    decreases |ops|
  {
    ops == [] || (t <= ops[0].now && Clocked(ops[1..], ops[0].now))
  }

  // ------------------------------------------- what purging may have taken out

  ghost predicate TokensRelated(c: Config, kept: map<Hash, Token>, all: map<Hash, Token>, p: Option<int>) {
    && (forall h <- kept :: h in all && all[h] == kept[h])
    && (forall h <- all :: all[h].expiresAt == all[h].createdAt + c.ttl)
    && (forall h <- all :: h in kept || (p.Some? && all[h].expiresAt < p.value - c.retention))
  }

  ghost predicate SessionsRelated(c: Config, kept: map<Hash, Session>, all: map<Hash, Session>, p: Option<int>) {
    && (forall h <- kept :: h in all && all[h] == kept[h])
    && (forall h <- all :: all[h].expiresAt == all[h].createdAt + c.sessionTTL)
    && (forall h <- all :: h in kept || (p.Some? && DeadSince(all[h]) < p.value - c.retention))
  }

  ghost predicate HandlesRelated(c: Config, kept: map<string, int>, all: map<string, int>, p: Option<int>) {
    && (forall k <- kept :: k in all && all[k] == kept[k])
    && (forall k <- all :: k in kept || (p.Some? && all[k] < p.value - c.reservation))
  }

  /** `d` is `all` less what purges up to those readings may have removed. */
  ghost predicate Related(c: Config, d: Db, all: Db, p: Purges) {
    && d.users == all.users
    && TokensRelated(c, d.tokens, all.tokens, p.tokens)
    && SessionsRelated(c, d.sessions, all.sessions, p.sessions)
    && HandlesRelated(c, d.reserved, all.reserved, p.handles)
  }

  lemma PurgeKeepsRelated(c: Config, d: Db, all: Db, p: Purges, op: Op)
    requires Related(c, d, all, p) && op.Purge?()
    ensures Related(c, Step(c, d, op).0, all, Noted(p, op))
  {
  }

  lemma SameCount(c: Config, kept: map<Hash, Token>, all: map<Hash, Token>, email: string,
                  p: Option<int>, now: int, lag: int)
    requires TokensRelated(c, kept, all, p) && Behind(p, now, lag) && c.window + lag <= c.retention + c.ttl + 1
    ensures RecentTokens(kept, email, now - c.window) == RecentTokens(all, email, now - c.window)
  {
  }

  lemma SameRequestLogin(c: Config, d: Db, all: Db, p: Purges, email: string, hash: Hash, now: int, lag: int)
    requires Related(c, d, all, p) && hash !in all.tokens
    requires Behind(p.tokens, now, lag) && c.window + lag <= c.retention + c.ttl + 1
    ensures DoRequestLogin(c, d, email, hash, now).1 == DoRequestLogin(c, all, email, hash, now).1
    ensures Related(c, DoRequestLogin(c, d, email, hash, now).0, DoRequestLogin(c, all, email, hash, now).0, p)
  {
    SameCount(c, d.tokens, all.tokens, email, p.tokens, now, lag);
    MintRelated(c, d.tokens, all.tokens, p.tokens, email, hash, now);
  }

  lemma MintRelated(c: Config, kept: map<Hash, Token>, all: map<Hash, Token>, p: Option<int>,
                    email: string, hash: Hash, now: int)
    requires TokensRelated(c, kept, all, p)
    ensures
      var t := Token(email, now, now + c.ttl, None);
      TokensRelated(c, Invalidated(kept, email, now)[hash := t], Invalidated(all, email, now)[hash := t], p)
  {
  }

  lemma SpendRelated(c: Config, kept: map<Hash, Token>, all: map<Hash, Token>, p: Option<int>, hash: Hash, now: int)
    requires TokensRelated(c, kept, all, p) && hash in kept
    ensures
      var t := kept[hash].(consumedAt := Some(now));
      TokensRelated(c, kept[hash := t], all[hash := t], p)
  {
  }

  lemma SameCompleteLogin(c: Config, d: Db, all: Db, p: Purges, hash: Hash, newId: Id, now: int, lag: int)
    requires Related(c, d, all, p) && Behind(p.tokens, now, lag) && lag <= c.retention + 1
    ensures DoCompleteLogin(d, hash, newId, now).1 == DoCompleteLogin(all, hash, newId, now).1
    ensures Related(c, DoCompleteLogin(d, hash, newId, now).0, DoCompleteLogin(all, hash, newId, now).0, p)
  {
    if hash in d.tokens {
      SpendRelated(c, d.tokens, all.tokens, p.tokens, hash, now);
    } else if hash in all.tokens {
      assert !Usable(all.tokens[hash], now);
    }
  }

  lemma SameLookup(c: Config, d: Db, all: Db, p: Purges, hash: Hash, now: int, lag: int)
    requires Related(c, d, all, p) && Behind(p.sessions, now, lag) && lag <= c.retention + 1
    ensures DoLookup(d, hash, now) == DoLookup(all, hash, now)
  {
  }

  lemma SameRevoke(c: Config, d: Db, all: Db, p: Purges, hash: Hash, now: int, lag: int)
    requires Related(c, d, all, p) && Behind(p.sessions, now, lag) && lag <= c.retention + 1
    ensures DoRevoke(d, hash, now).1 == DoRevoke(all, hash, now).1
    ensures Related(c, DoRevoke(d, hash, now).0, DoRevoke(all, hash, now).0, p)
  {
    if hash in all.sessions {
      var revoked := all.sessions[hash].(revokedAt := Some(now));
      // Revoking a session a purge removed does not make it any less dead.
      assert DeadSince(revoked) <= all.sessions[hash].expiresAt;
    }
  }

  lemma SameClaim(c: Config, d: Db, all: Db, p: Purges, id: Id, handle: string, now: int, skew: int)
    requires Related(c, d, all, p) && Behind(p.handles, now, skew) && skew <= 1
    ensures DoClaim(c, d, id, handle, now).1 == DoClaim(c, all, id, handle, now).1
    ensures Related(c, DoClaim(c, d, id, handle, now).0, DoClaim(c, all, id, handle, now).0, p)
  {
    assert Reserved(d.reserved, handle, now - c.reservation) == Reserved(all.reserved, handle, now - c.reservation);
  }

  lemma SameDelete(c: Config, d: Db, all: Db, p: Purges, id: Id, now: int)
    requires Related(c, d, all, p)
    ensures DoDelete(d, id, now).1 == DoDelete(all, id, now).1
    ensures Related(c, DoDelete(d, id, now).0, DoDelete(all, id, now).0, p)
  {
  }

  /** No purge takes a row that a transaction so far behind it would still have used. */
  predicate Spares(c: Config, lag: int, skew: int) {
    c.window + lag <= c.retention + c.ttl + 1 && lag <= c.retention + 1 && skew <= 1
  }

  /** Both runs answer alike, and stay related. */
  lemma SameAnswer(c: Config, d: Db, all: Db, p: Purges, op: Op, lag: int, skew: int)
    requires Related(c, d, all, p) && !op.Purge?() && OnTime(op, p, lag, skew) && Spares(c, lag, skew)
    requires op.RequestLogin? ==> op.hash !in all.tokens
    requires op.Issue? ==> op.hash !in all.sessions
    ensures Step(c, d, op).1 == Step(c, all, op).1
    ensures Related(c, Step(c, d, op).0, Step(c, all, op).0, p)
  {
    match op
    case RequestLogin(email, hash, now) => SameRequestLogin(c, d, all, p, email, hash, now, lag);
    case CompleteLogin(hash, newId, now) => SameCompleteLogin(c, d, all, p, hash, newId, now, lag);
    case Issue(id, hash, now) =>
    case Lookup(hash, now) => SameLookup(c, d, all, p, hash, now, lag);
    case Revoke(hash, now) => SameRevoke(c, d, all, p, hash, now, lag);
    case Claim(id, handle, now) => SameClaim(c, d, all, p, id, handle, now, skew);
    case Explain(id, now) =>
    case Delete(id, now) => SameDelete(c, d, all, p, id, now);
  }

  /** The clean run starts related and draws no secret twice, so both runs answer alike throughout. */
  lemma {:induction false} SameAnswers(
      c: Config, d: Db, all: Db, p: Purges, ops: seq<Op>, lag: int, skew: int, tokens: set<Hash>, sessions: set<Hash>)
    requires Related(c, d, all, p) && all.tokens.Keys <= tokens && all.sessions.Keys <= sessions
    requires FreshSecrets(ops, tokens, sessions) && Punctual(ops, p, lag, skew) && Spares(c, lag, skew)
    ensures Answers(c, d, ops) == Answers(c, all, WithoutPurges(ops))
    decreases |ops|
  {
    if ops != [] {
      var op, rest := ops[0], ops[1..];
      var tokens', sessions' := tokens + Secret(op, op.RequestLogin?), sessions + Secret(op, op.Issue?);
      hide Related, Spares, OnTime, Step;
      if op.Purge?() {
        PurgeKeepsRelated(c, d, all, p, op);
        SameAnswers(c, Step(c, d, op).0, all, Noted(p, op), rest, lag, skew, tokens', sessions');
      } else {
        SameAnswer(c, d, all, p, op, lag, skew);
        DrawsOnlyItsSecret(c, all, op);
        SameAnswers(c, Step(c, d, op).0, Step(c, all, op).0, p, rest, lag, skew, tokens', sessions');
        assert WithoutPurges(ops)[0] == op && WithoutPurges(ops)[1..] == WithoutPurges(rest);
      }
    }
  }

  lemma DrawsOnlyItsSecret(c: Config, db: Db, op: Op)
    ensures Step(c, db, op).0.tokens.Keys <= db.tokens.Keys + Secret(op, op.RequestLogin?)
    ensures Step(c, db, op).0.sessions.Keys <= db.sessions.Keys + Secret(op, op.Issue?)
  {
  }

  /** Inserting purges changes no answer, on readings that lag and skew so much. */
  ghost predicate PurgesUnobservable(c: Config, lag: int, skew: int) {
    forall ops: seq<Op> | FreshSecrets(ops, {}, {}) && Punctual(ops, NONE_YET, lag, skew) ::
      Answers(c, EMPTY, ops) == Answers(c, EMPTY, WithoutPurges(ops))
  }

  lemma PurgesAreUnobservable(c: Config, lag: int, skew: int)
    requires Spares(c, lag, skew)
    ensures PurgesUnobservable(c, lag, skew)
  {
    forall ops: seq<Op> | FreshSecrets(ops, {}, {}) && Punctual(ops, NONE_YET, lag, skew)
      ensures Answers(c, EMPTY, ops) == Answers(c, EMPTY, WithoutPurges(ops))
    {
      SameAnswers(c, EMPTY, EMPTY, NONE_YET, ops, lag, skew, {}, {});
    }
  }

  /** The same under one clock for everything that never runs backwards. */
  ghost predicate PurgesUnobservableInOrder(c: Config) {
    forall ops: seq<Op>, t: int | FreshSecrets(ops, {}, {}) && Clocked(ops, t) ::
      Answers(c, EMPTY, ops) == Answers(c, EMPTY, WithoutPurges(ops))
  }

  lemma {:induction false} ClockedIsPunctual(ops: seq<Op>, p: Purges, t: int)
    requires Clocked(ops, t) && Behind(p.tokens, t, 0) && Behind(p.sessions, t, 0) && Behind(p.handles, t, 0)
    ensures Punctual(ops, p, 0, 0)
    decreases |ops|
  {
    if ops != [] {
      ClockedIsPunctual(ops[1..], Noted(p, ops[0]), ops[0].now);
    }
  }

  // The condition is exact: keep spent links any shorter and the sign-in budget forgets them.

  lemma MintsNext(c: Config, tokens: map<Hash, Token>, keys: set<Hash>, email: string, hash: Hash, rest: seq<Op>)
    requires tokens.Keys == keys && |keys| <= 2 && hash !in keys
    ensures
      var tokens' := Invalidated(tokens, email, 0)[hash := Token(email, 0, c.ttl, None)];
      Answers(c, EMPTY.(tokens := tokens), [RequestLogin(email, hash, 0)] + rest)
      == [Minted(hash)] + Answers(c, EMPTY.(tokens := tokens'), rest)
  {
    AtMostTwo(tokens, email, 0 - c.window, keys);
    AnswersFirst(c, EMPTY.(tokens := tokens), RequestLogin(email, hash, 0), rest);
  }

  lemma ThreeAreMinted(c: Config, email: string, rest: seq<Op>)
    ensures Answers(c, EMPTY, Three(email, rest))
         == [Minted(1)] + ([Minted(2)] + ([Minted(3)] + Answers(c, EMPTY.(tokens := ThreeTokens(c, email)), rest)))
  {
    var last := [RequestLogin(email, 3, 0)] + rest;
    TokensMinted(c, email);
    MintsNext(c, EMPTY.tokens, {}, email, 1, [RequestLogin(email, 2, 0)] + last);
    MintsNext(c, OneToken(c, email), {1}, email, 2, last);
    MintsNext(c, TwoTokens(c, email), {1, 2}, email, 3, rest);
  }

  lemma AnswersFirst(c: Config, db: Db, op: Op, rest: seq<Op>)
    ensures Answers(c, db, [op] + rest)
         == (if op.Purge?() then [] else [Step(c, db, op).1]) + Answers(c, Step(c, db, op).0, rest)
  {
    assert ([op] + rest)[0] == op && ([op] + rest)[1..] == rest;
  }

  lemma CleanRunRefuses(c: Config, email: string, t: int)
    requires 0 - c.window <= t - c.window < 0
    ensures Answers(c, EMPTY, Three(email, [RequestLogin(email, 4, t)]))
         == [Minted(1), Minted(2), Minted(3), OverBudget]
  {
    var db, ask := EMPTY.(tokens := ThreeTokens(c, email)), RequestLogin(email, 4, t);
    assert RecentTokens(db.tokens, email, t - c.window) == {1, 2, 3};
    AnswersFirst(c, db, ask, []);
    assert [ask] + [] == [ask];
    ThreeAreMinted(c, email, [ask]);
  }

  lemma PurgedRunMints(c: Config, email: string, t: int)
    requires t == c.retention + c.ttl + 1
    ensures Answers(c, EMPTY, Three(email, [PurgeTokens(t), RequestLogin(email, 4, t)]))
         == [Minted(1), Minted(2), Minted(3), Minted(4)]
  {
    var db, purge, ask := EMPTY.(tokens := ThreeTokens(c, email)), PurgeTokens(t), RequestLogin(email, 4, t);
    var none: seq<Op> := [];
    assert Answers(c, Step(c, EMPTY, ask).0, none) == [];
    hide Step;
    ThreeArePurged(c, email, t);
    MintsOnEmpty(c, email, 4, t);
    AnswersFirst(c, db, purge, [ask]);
    AnswersFirst(c, EMPTY, ask, none);
    assert [purge] + [ask] == [purge, ask] && [ask] + [] == [ask];
    ThreeAreMinted(c, email, [purge, ask]);
  }

  lemma ThreeArePurged(c: Config, email: string, t: int)
    requires t == c.retention + c.ttl + 1
    ensures Step(c, EMPTY.(tokens := ThreeTokens(c, email)), PurgeTokens(t)).0 == EMPTY
  {
    assert PurgedTokens(c, ThreeTokens(c, email), t) == map[];
  }

  lemma MintsOnEmpty(c: Config, email: string, hash: Hash, t: int)
    ensures Step(c, EMPTY, RequestLogin(email, hash, t)).1 == Minted(hash)
  {
    AtMostTwo(EMPTY.tokens, email, t - c.window, {});
  }

  lemma ShortRetentionShows(c: Config, email: string)
    requires c.window > c.retention + c.ttl + 1
    ensures !PurgesUnobservableInOrder(c)
  {
    var t := c.retention + c.ttl + 1;
    var purge, ask := PurgeTokens(t), RequestLogin(email, 4, t);
    var ops := Three(email, [purge, ask]);
    CleanRunRefuses(c, email, t);
    PurgedRunMints(c, email, t);
    ExampleIsInOrder(email, t, purge, ask);
    ExampleWithoutPurges(email, purge, ask);
    assert Answers(c, EMPTY, ops)[3] != Answers(c, EMPTY, WithoutPurges(ops))[3];
  }

  lemma ExampleIsInOrder(email: string, t: int, purge: Op, ask: Op)
    requires t >= 0 && purge == PurgeTokens(t) && ask == RequestLogin(email, 4, t)
    ensures FreshSecrets(Three(email, [purge, ask]), {}, {}) && Clocked(Three(email, [purge, ask]), 0)
  {
    var a, b, d := RequestLogin(email, 1, 0), RequestLogin(email, 2, 0), RequestLogin(email, 3, 0);
    var s := Three(email, [purge, ask]);
    assert s == [a, b, d, purge, ask];
    assert s[1..] == [b, d, purge, ask] && s[1..][1..] == [d, purge, ask];
    assert s[1..][1..][1..] == [purge, ask] && s[1..][1..][1..][1..] == [ask] && [ask][1..] == [];
    assert Clocked([ask], t) && Clocked([purge, ask], 0);
    assert FreshSecrets([ask], {} + {1} + {2} + {3}, {});
    assert FreshSecrets([purge, ask], {} + {1} + {2} + {3}, {});
  }

  lemma ExampleWithoutPurges(email: string, purge: Op, ask: Op)
    requires purge.PurgeTokens? && ask.RequestLogin?
    ensures WithoutPurges(Three(email, [purge, ask])) == Three(email, [ask])
  {
    var a, b, d := RequestLogin(email, 1, 0), RequestLogin(email, 2, 0), RequestLogin(email, 3, 0);
    var s := Three(email, [purge, ask]);
    assert s == [a, b, d, purge, ask];
    assert s[1..] == [b, d, purge, ask] && [b, d, purge, ask][1..] == [d, purge, ask];
    assert [d, purge, ask][1..] == [purge, ask] && [purge, ask][1..] == [ask] && [ask][1..] == [];
    assert WithoutPurges([ask]) == [ask];
    assert WithoutPurges([purge, ask]) == [ask];
    assert WithoutPurges([d, purge, ask]) == [d, ask];
    assert WithoutPurges([b, d, purge, ask]) == [b, d, ask];
  }

  /**
   Main result, in order: a run answers RequestLogin, CompleteLogin, Issue, Lookup, Revoke,
   Claim, Explain and Delete as it would with every purge left out, exactly when a purged
   link is too old for the sign-in budget to count.
   */
  lemma PurgesUnobservableIff(c: Config)
    ensures PurgesUnobservableInOrder(c) <==> c.window <= c.retention + c.ttl + 1
  {
    if c.window <= c.retention + c.ttl + 1 {
      PurgesAreUnobservable(c, 0, 0);
      forall ops: seq<Op>, t: int | FreshSecrets(ops, {}, {}) && Clocked(ops, t)
        ensures Answers(c, EMPTY, ops) == Answers(c, EMPTY, WithoutPurges(ops))
      {
        ClockedIsPunctual(ops, NONE_YET, t);
      }
    } else {
      ShortRetentionShows(c, "a@b.c");
    }
  }
}
