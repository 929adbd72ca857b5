/**
 The per-key token bucket limiter.

 Arithmetic is exact: a bucket holds `credit` in clock ticks, and one token is
 worth one refill interval, so "tokens" of the program is credit / refill.
 */
module RateLimiter {
  import opened Common

  // How many entries one call inspects for expiry.
  const REAP_SAMPLE := 8

  datatype Bucket = Bucket(credit: int, last: int)

  type Buckets<K> = map<K, Bucket>

  /** `full` is what a full bucket holds: burst x refill. */
  datatype Config = Config(full: int, refill: int, idleTTL: nat, maxBuckets: nat) {
    predicate Valid() {
      full >= refill >= 1
    }
  }

  function NewConfig(burst: nat, refill: int, idleTTL: nat, maxBuckets: nat): Config {
    Config(burst * refill, refill, idleTTL, maxBuckets)
  }

  /** What one call does to the bucket of its key, absent buckets included. */
  function Spend(c: Config, b: Option<Bucket>, now: int): (Bucket, bool) {
    match b
    case None => (Bucket(c.full - c.refill, now), true)
    case Some(b) =>
      var credit := Min(c.full, b.credit + (now - b.last));
      if credit < c.refill then (Bucket(credit, now), false) else (Bucket(credit - c.refill, now), true)
  }

  function Find<K>(m: Buckets<K>, key: K): Option<Bucket> {
    if key in m then Some(m[key]) else None
  }

  /** The reference limiter: no capacity, no eviction. */
  function Charge<K>(c: Config, m: Buckets<K>, key: K, now: int): (Buckets<K>, bool) {
    var s := Spend(c, Find(m, key), now);
    (m[key := s.0], s.1)
  }

  // ---------------------------------------------------------------- one call

  predicate Expired(c: Config, b: Bucket, now: int) {
    now - b.last > c.idleTTL
  }

  /** The expired entries among those inspected. */
  ghost function Stale<K>(c: Config, m: Buckets<K>, seen: set<K>, now: int): set<K>
    requires seen <= m.Keys
  {
    set k | k in seen && Expired(c, m[k], now)
  }

  /** `dropped` is a possible outcome of one sweep over `m`, which inspects eight entries, or all if there are fewer. */
  ghost predicate CanReap<K>(c: Config, m: Buckets<K>, now: int, dropped: set<K>) {
    exists seen: set<K> | seen <= m.Keys && |seen| == Min(REAP_SAMPLE, |m|) :: dropped == Stale(c, m, seen, now)
  }

  predicate AtCapacity<K>(c: Config, m: Buckets<K>, key: K) {
    key !in m && |m| >= c.maxBuckets
  }

  /** The bounded limiter, after its sweep. */
  function Decide<K>(c: Config, m: Buckets<K>, key: K, now: int): (Buckets<K>, bool) {
    if AtCapacity(c, m, key) then (m, false) else Charge(c, m, key, now)
  }

  class Limiter<K(==)> {
    const config: Config
    var buckets: Buckets<K>

    constructor (burst: nat, refill: int, idleTTL: nat, maxBuckets: nat)
      ensures config == NewConfig(burst, refill, idleTTL, maxBuckets)
      ensures buckets == map[]
    {
      config := NewConfig(burst, refill, idleTTL, maxBuckets);
      buckets := map[];
    }

    /** Deletes the expired ones among eight entries, visited in no particular order, or among all if fewer. */
    method Reap(now: int) returns (ghost dropped: set<K>)
      modifies this`buckets
      ensures CanReap(config, old(buckets), now, dropped)
      ensures buckets == old(buckets) - dropped
    {
      var n, pending := 0, buckets.Keys;
      ghost var seen := {};
      dropped := {};
      while pending != {} && n < REAP_SAMPLE
        invariant 0 <= n <= REAP_SAMPLE && n == |seen|
        invariant pending == old(buckets).Keys - seen && seen <= old(buckets).Keys
        invariant dropped == Stale(config, old(buckets), seen, now)
        invariant buckets == old(buckets) - dropped
        decreases pending
      {
        var key :| key in pending;
        if Expired(config, buckets[key], now) {
          buckets := buckets - {key};
          dropped := dropped + {key};
        }
        pending, seen := pending - {key}, seen + {key};
        n := n + 1;
      }
      SubsetIsNoLarger(seen, old(buckets).Keys);
      if pending == {} {
        assert seen == old(buckets).Keys;
      }
    }

    /** One request by `key`, with the clock reading `now` taken before the lock. */
    method Allow(key: K, now: int) returns (ok: bool, ghost dropped: set<K>)
      modifies this`buckets
      ensures CanReap(config, old(buckets), now, dropped)
      ensures buckets == Decide(config, old(buckets) - dropped, key, now).0
      ensures ok == Decide(config, old(buckets) - dropped, key, now).1
      ensures |old(buckets)| <= config.maxBuckets ==> |buckets| <= config.maxBuckets
    {
      hide CanReap;
      dropped := Reap(now);
      SubmapIsNoLarger(buckets, old(buckets));
      if key !in buckets {
        if |buckets| >= config.maxBuckets {
          return false, dropped;
        }
        buckets := buckets[key := Bucket(config.full - config.refill, now)];
        return true, dropped;
      }
      var b := buckets[key];
      var credit := Min(config.full, b.credit + (now - b.last));
      buckets := buckets[key := Bucket(credit, now)];
      if credit < config.refill {
        return false, dropped;
      }
      buckets := buckets[key := Bucket(credit - config.refill, now)];
      return true, dropped;
    }
  }

  /** So at most eight entries go, and only expired ones. */
  lemma ReapedAreStale<K>(c: Config, m: Buckets<K>, now: int, dropped: set<K>)
    requires CanReap(c, m, now, dropped)
    ensures dropped <= m.Keys && |dropped| <= REAP_SAMPLE && forall k <- dropped :: Expired(c, m[k], now)
  {
    var seen: set<K> :| seen <= m.Keys && |seen| == Min(REAP_SAMPLE, |m|) && dropped == Stale(c, m, seen, now);
    SubsetIsNoLarger(dropped, seen);
  }

  lemma SomeOf<T>(s: set<T>, n: nat) returns (part: set<T>)
    requires n <= |s|
    ensures part <= s && |part| == n
  {
    if n == 0 {
      part := {};
    } else {
      var x :| x in s;
      part := SomeOf(s - {x}, n - 1);
      part := part + {x};
    }
  }

  /** Nothing has expired, so a sweep finds nothing. */
  ghost predicate Quiet<K>(c: Config, m: Buckets<K>, now: int) {
    forall k <- m :: !Expired(c, m[k], now)
  }

  lemma QuietReap<K>(c: Config, m: Buckets<K>, now: int)
    requires Quiet(c, m, now)
    ensures CanReap(c, m, now, {})
  {
    assert |m| == |m.Keys|;
    var seen := SomeOf(m.Keys, Min(REAP_SAMPLE, |m|));
    assert Stale(c, m, seen, now) == {};
  }

  lemma OnlyEntryIsReaped<K>(c: Config, key: K, b: Bucket, now: int)
    requires Expired(c, b, now)
    ensures CanReap(c, map[key := b], now, {key})
  {
    var m := map[key := b];
    assert m.Keys == {key} && |m| == |m.Keys| == 1;
    assert Stale(c, m, {key}, now) == {key};
  }

  lemma SubmapIsNoLarger<K, V>(small: map<K, V>, large: map<K, V>)
    requires small.Keys <= large.Keys
    ensures |small| <= |large|
  {
    SubsetIsNoLarger(small.Keys, large.Keys);
  }

  // -------------------------------------------------------------------- runs

  /** One call in lock order: its key, its clock reading, and what its sweep dropped. */
  datatype Call<K> = Call(key: K, now: int, dropped: set<K>)

  ghost predicate Legal<K>(c: Config, m: Buckets<K>, calls: seq<Call<K>>)
    decreases |calls|
  {
    calls == [] ||
    (CanReap(c, m, calls[0].now, calls[0].dropped) && Legal(c, Next(c, m, calls[0]), calls[1..]))
  }

  ghost function Next<K>(c: Config, m: Buckets<K>, call: Call<K>): Buckets<K> {
    Decide(c, m - call.dropped, call.key, call.now).0
  }

  ghost predicate RefusedForCapacity<K>(c: Config, m: Buckets<K>, call: Call<K>) {
    AtCapacity(c, m - call.dropped, call.key)
  }

  ghost function After<K>(c: Config, m: Buckets<K>, calls: seq<Call<K>>): Buckets<K>
    decreases |calls|
  {
    if calls == [] then m else After(c, Next(c, m, calls[0]), calls[1..])
  }

  /**
   The clock is read before the lock is taken, so readings reach the lock out of
   order: each at most `lag` behind the latest one so far, which is `t` to begin with.
   */
  ghost predicate Lagging<K>(lag: nat, t: int, calls: seq<Call<K>>)
    decreases |calls|
  {
    calls == [] || (t - lag <= calls[0].now && Lagging(lag, Max(t, calls[0].now), calls[1..]))
  }

  ghost function Latest<K>(t: int, calls: seq<Call<K>>): int
    decreases |calls|
  {
    if calls == [] then t else Latest(Max(t, calls[0].now), calls[1..])
  }

  /** Clock readings that never run backwards. */
  ghost predicate Nondecreasing<K>(t: int, calls: seq<Call<K>>) {
    Lagging(0, t, calls)
  }

  /** The calls that were not refused for capacity, and their answers. */
  ghost function Heard<K>(c: Config, m: Buckets<K>, calls: seq<Call<K>>): seq<Call<K>>
    decreases |calls|
  {
    if calls == [] then [] else
      var later := Heard(c, Next(c, m, calls[0]), calls[1..]);
      if RefusedForCapacity(c, m, calls[0]) then later else [calls[0]] + later
  }

  ghost function Answers<K>(c: Config, m: Buckets<K>, calls: seq<Call<K>>): seq<bool>
    decreases |calls|
  {
    if calls == [] then [] else
      var later := Answers(c, Next(c, m, calls[0]), calls[1..]);
      if RefusedForCapacity(c, m, calls[0]) then later
      else [Decide(c, m - calls[0].dropped, calls[0].key, calls[0].now).1] + later
  }

  /** What the reference limiter answers to the same calls. */
  ghost function ReferenceAnswers<K>(c: Config, u: Buckets<K>, calls: seq<Call<K>>): seq<bool>
    decreases |calls|
  {
    if calls == [] then [] else
      var r := Charge(c, u, calls[0].key, calls[0].now);
      [r.1] + ReferenceAnswers(c, r.0, calls[1..])
  }

  ghost function ReferenceAfter<K>(c: Config, u: Buckets<K>, calls: seq<Call<K>>): Buckets<K>
    decreases |calls|
  {
    if calls == [] then u else ReferenceAfter(c, Charge(c, u, calls[0].key, calls[0].now).0, calls[1..])
  }

  // Runs compose.

  lemma {:induction false} LegalAppend<K>(c: Config, m: Buckets<K>, xs: seq<Call<K>>, ys: seq<Call<K>>)
    ensures Legal(c, m, xs + ys) <==> Legal(c, m, xs) && Legal(c, After(c, m, xs), ys)
    decreases |xs|
  {
    if xs == [] {
      assert xs + ys == ys;
    } else {
      var m' := Next(c, m, xs[0]);
      assert (xs + ys)[0] == xs[0] && (xs + ys)[1..] == xs[1..] + ys;
      LegalAppend(c, m', xs[1..], ys);
    }
  }

  lemma {:induction false} AnswersAppend<K>(c: Config, m: Buckets<K>, xs: seq<Call<K>>, ys: seq<Call<K>>)
    ensures Answers(c, m, xs + ys) == Answers(c, m, xs) + Answers(c, After(c, m, xs), ys)
    decreases |xs|
  {
    if xs == [] {
      assert xs + ys == ys;
    } else {
      var m', all := Next(c, m, xs[0]), xs + ys;
      assert all[0] == xs[0] && all[1..] == xs[1..] + ys;
      AnswersAppend(c, m', xs[1..], ys);
      var front, back := Answers(c, m', xs[1..]), Answers(c, After(c, m, xs), ys);
      assert Answers(c, m', all[1..]) == front + back;
      if !RefusedForCapacity(c, m, xs[0]) {
        ConsAppend(Answers(c, m, xs)[0], front, back);
      }
    }
  }

  lemma {:induction false} HeardAppend<K>(c: Config, m: Buckets<K>, xs: seq<Call<K>>, ys: seq<Call<K>>)
    ensures Heard(c, m, xs + ys) == Heard(c, m, xs) + Heard(c, After(c, m, xs), ys)
    decreases |xs|
  {
    if xs == [] {
      assert xs + ys == ys;
    } else {
      var m', all := Next(c, m, xs[0]), xs + ys;
      assert all[0] == xs[0] && all[1..] == xs[1..] + ys;
      HeardAppend(c, m', xs[1..], ys);
      var front, back := Heard(c, m', xs[1..]), Heard(c, After(c, m, xs), ys);
      assert Heard(c, m', all[1..]) == front + back;
      if !RefusedForCapacity(c, m, xs[0]) {
        ConsAppend(Heard(c, m, xs)[0], front, back);
      }
    }
  }

  lemma ConsAppend<T>(x: T, a: seq<T>, b: seq<T>)
    ensures [x] + (a + b) == ([x] + a) + b
  {
  }

  lemma {:induction false} ReferenceAppend<K>(c: Config, u: Buckets<K>, xs: seq<Call<K>>, ys: seq<Call<K>>)
    ensures ReferenceAnswers(c, u, xs + ys)
         == ReferenceAnswers(c, u, xs) + ReferenceAnswers(c, ReferenceAfter(c, u, xs), ys)
    ensures ReferenceAfter(c, u, xs + ys) == ReferenceAfter(c, ReferenceAfter(c, u, xs), ys)
    decreases |xs|
  {
    if xs == [] {
      assert xs + ys == ys;
    } else {
      assert (xs + ys)[0] == xs[0] && (xs + ys)[1..] == xs[1..] + ys;
      ReferenceAppend(c, Charge(c, u, xs[0].key, xs[0].now).0, xs[1..], ys);
    }
  }

  lemma {:induction false} AfterAppend<K>(c: Config, m: Buckets<K>, xs: seq<Call<K>>, ys: seq<Call<K>>)
    ensures After(c, m, xs + ys) == After(c, After(c, m, xs), ys)
    decreases |xs|
  {
    if xs == [] {
      assert xs + ys == ys;
    } else {
      hide Next;
      assert (xs + ys)[0] == xs[0] && (xs + ys)[1..] == xs[1..] + ys;
      AfterAppend(c, Next(c, m, xs[0]), xs[1..], ys);
    }
  }

  lemma {:induction false} LaggingAppend<K>(lag: nat, t: int, xs: seq<Call<K>>, ys: seq<Call<K>>)
    ensures Lagging(lag, t, xs + ys) <==> Lagging(lag, t, xs) && Lagging(lag, Latest(t, xs), ys)
    ensures Latest(t, xs + ys) == Latest(Latest(t, xs), ys)
    decreases |xs|
  {
    if xs == [] {
      assert xs + ys == ys;
    } else {
      assert (xs + ys)[0] == xs[0] && (xs + ys)[1..] == xs[1..] + ys;
      LaggingAppend(lag, Max(t, xs[0].now), xs[1..], ys);
    }
  }

  lemma {:induction false} LatestIsLast<K>(t: int, calls: seq<Call<K>>)
    requires Nondecreasing(t, calls)
    ensures Latest(t, calls) == if calls == [] then t else calls[|calls| - 1].now
    decreases |calls|
  {
    if calls != [] {
      LatestIsLast(calls[0].now, calls[1..]);
    }
  }

  // ------------------------------------------------- eviction is unobservable

  /** No bucket was ever charged more than its readings lagged. */
  ghost predicate Sane<K>(c: Config, m: Buckets<K>, t: int, lag: nat) {
    forall k <- m ::
      && 0 - lag <= m[k].credit <= c.full && m[k].last <= t
      && m[k].credit - m[k].last >= -t
  }

  /**
   The bounded map `m` agrees with the reference map `u`, and every bucket that
   `m` no longer holds would be full at any reading that may still come.
   */
  ghost predicate Coupled<K>(c: Config, m: Buckets<K>, u: Buckets<K>, t: int, lag: nat) {
    && Sane(c, u, t, lag)
    && (forall k <- m :: k in u && u[k] == m[k])
    && (forall k <- u :: k in m || u[k].credit + (t - lag - u[k].last) >= c.full)
  }

  lemma CoupledReap<K>(c: Config, m: Buckets<K>, u: Buckets<K>, t: int, lag: nat, now: int, dropped: set<K>)
    requires c.full + 2 * lag <= c.idleTTL + 1
    requires Coupled(c, m, u, t, lag) && CanReap(c, m, now, dropped)
    ensures Coupled(c, m - dropped, u, Max(t, now), lag)
  {
    ReapedAreStale(c, m, now, dropped);
    hide CanReap;
    forall k <- u ensures k in m - dropped || u[k].credit + (Max(t, now) - lag - u[k].last) >= c.full {
      if k in dropped {
        assert u[k] == m[k] && Expired(c, m[k], now);
      }
    }
  }

  /** What a call leaves in its bucket is sane, whatever it found there. */
  lemma SpendIsSane(c: Config, b: Option<Bucket>, now: int, t: int, lag: nat)
    requires c.Valid() && t - lag <= now <= t
    requires b.Some? ==> b.value.credit - b.value.last >= -t
    ensures
      var s := Spend(c, b, now).0;
      0 - lag <= s.credit <= c.full && s.last == now && s.credit - s.last >= -t
  {
  }

  lemma CoupledDecide<K>(c: Config, m: Buckets<K>, u: Buckets<K>, t: int, lag: nat, key: K, now: int)
    requires c.Valid() && Coupled(c, m, u, t, lag) && t - lag <= now <= t && !AtCapacity(c, m, key)
    ensures Charge(c, u, key, now).1 == Charge(c, m, key, now).1
    ensures Coupled(c, Charge(c, m, key, now).0, Charge(c, u, key, now).0, t, lag)
  {
    if key !in m && key in u {
      // The reference still holds the bucket, but a full one.
      assert Min(c.full, u[key].credit + (now - u[key].last)) == c.full;
    }
    assert Spend(c, Find(m, key), now) == Spend(c, Find(u, key), now);
    SpendIsSane(c, Find(u, key), now, t, lag);
  }

  lemma {:induction false} EvictionIsUnobservableFrom<K>(
      c: Config, m: Buckets<K>, u: Buckets<K>, t: int, lag: nat, calls: seq<Call<K>>)
    requires c.Valid() && c.full + 2 * lag <= c.idleTTL + 1
    requires Coupled(c, m, u, t, lag)
    requires Legal(c, m, calls) && Lagging(lag, t, calls)
    ensures Answers(c, m, calls) == ReferenceAnswers(c, u, Heard(c, m, calls))
    decreases |calls|
  {
    if calls != [] {
      var call, rest := calls[0], calls[1..];
      var m', t' := Next(c, m, call), Max(t, call.now);
      CoupledReap(c, m, u, t, lag, call.now, call.dropped);
      if RefusedForCapacity(c, m, call) {
        EvictionIsUnobservableFrom(c, m', u, t', lag, rest);
      } else {
        CoupledDecide(c, m - call.dropped, u, t', lag, call.key, call.now);
        var heard := Heard(c, m', rest);
        var u' := Charge(c, u, call.key, call.now).0;
        EvictionIsUnobservableFrom(c, m', u', t', lag, rest);
        assert ([call] + heard)[1..] == heard;
      }
    }
  }

  /** On readings that lag at most so much, the limiter answers every call it hears as the reference does. */
  ghost predicate EvictionUnobservable<K(!new)>(c: Config, lag: nat) {
    forall calls: seq<Call<K>>, start: int | Legal(c, map[], calls) && Lagging(lag, start, calls) ::
      Answers(c, map[], calls) == ReferenceAnswers(c, map[], Heard(c, map[], calls))
  }

  lemma EvictionIsUnobservable<K(!new)>(c: Config, lag: nat)
    requires c.Valid() && c.full + 2 * lag <= c.idleTTL + 1
    ensures EvictionUnobservable<K>(c, lag)
  {
    forall calls: seq<Call<K>>, start: int | Legal(c, map[], calls) && Lagging(lag, start, calls)
      ensures Answers(c, map[], calls) == ReferenceAnswers(c, map[], Heard(c, map[], calls))
    {
      EvictionIsUnobservableFrom(c, map[], map[], start, lag, calls);
    }
  }

  // The condition is exact: with a shorter idle TTL some run tells the difference.

  /** What n admissions take out of a bucket. */
  ghost function Cost(c: Config, n: nat): int {
    if n == 0 then 0 else c.refill + Cost(c, n - 1)
  }

  lemma {:induction false} CostIsProduct(c: Config, n: nat)
    ensures Cost(c, n) == n * c.refill
  {
    if n > 0 {
      CostIsProduct(c, n - 1);
      OneMoreToken(n - 1, c.refill);
    }
  }

  lemma OneMoreToken(n: nat, refill: int)
    ensures (n + 1) * refill == n * refill + refill
  {
  }

  lemma CostIsNotNegative(c: Config, n: nat)
    requires c.refill >= 0
    ensures Cost(c, n) >= 0
  {
  }

  /** n calls by one key at one instant, none of which evicts anything. */
  ghost function Burst<K>(key: K, now: int, n: nat): (calls: seq<Call<K>>)
    ensures |calls| == n
  {
    if n == 0 then [] else [Call(key, now, {})] + Burst(key, now, n - 1)
  }

  ghost function Yes(n: nat): (s: seq<bool>)
    ensures |s| == n
  {
    if n == 0 then [] else [true] + Yes(n - 1)
  }

  /** A call that is not refused for capacity, and what comes after it. */
  lemma HeardFirst<K>(c: Config, m: Buckets<K>, call: Call<K>, rest: seq<Call<K>>)
    requires CanReap(c, m, call.now, call.dropped) && !RefusedForCapacity(c, m, call)
    ensures
      var calls, m' := [call] + rest, Next(c, m, call);
      && (Legal(c, m, calls) <==> Legal(c, m', rest))
      && Answers(c, m, calls) == [Admitted(c, m, call)] + Answers(c, m', rest)
      && Heard(c, m, calls) == [call] + Heard(c, m', rest)
      && After(c, m, calls) == After(c, m', rest)
  {
    var calls := [call] + rest;
    assert calls[0] == call && calls[1..] == rest;
  }

  lemma ReferenceFirst<K>(c: Config, u: Buckets<K>, call: Call<K>, rest: seq<Call<K>>)
    ensures
      var calls, r := [call] + rest, Charge(c, u, call.key, call.now);
      && ReferenceAnswers(c, u, calls) == [r.1] + ReferenceAnswers(c, r.0, rest)
      && ReferenceAfter(c, u, calls) == ReferenceAfter(c, r.0, rest)
  {
    var calls := [call] + rest;
    assert calls[0] == call && calls[1..] == rest;
  }

  lemma LaggingFirst<K>(lag: nat, t: int, call: Call<K>, rest: seq<Call<K>>)
    ensures Lagging(lag, t, [call] + rest) <==> t - lag <= call.now && Lagging(lag, Max(t, call.now), rest)
    ensures Latest(t, [call] + rest) == Latest(Max(t, call.now), rest)
  {
    var calls := [call] + rest;
    assert calls[0] == call && calls[1..] == rest;
  }

  lemma GrantedOnce<K>(c: Config, m: Buckets<K>, key: K, now: int)
    requires c.Valid() && key in m && m[key].last == now && c.refill <= m[key].credit <= c.full && Quiet(c, m, now)
    ensures
      var call, m1 := Call(key, now, {}), m[key := Bucket(m[key].credit - c.refill, now)];
      && Quiet(c, m1, now)
      && CanReap(c, m, now, call.dropped) && !RefusedForCapacity(c, m, call) && Admitted(c, m, call)
      && Next(c, m, call) == m1 && Charge(c, m, key, now) == (m1, true)
  {
    QuietReap(c, m, now);
    assert m - {} == m;
  }

  lemma BurstUnfolds<K>(key: K, now: int, n: nat)
    requires n > 0
    ensures Burst(key, now, n) == [Call(key, now, {})] + Burst(key, now, n - 1)
    ensures Yes(n) == [true] + Yes(n - 1)
  {
  }

  lemma {:induction false} BurstLags<K>(lag: nat, t: int, key: K, now: int, n: nat)
    requires t - lag <= now <= t
    ensures Lagging(lag, t, Burst(key, now, n)) && Latest(t, Burst(key, now, n)) == t
    decreases n
  {
    if n > 0 {
      BurstUnfolds(key, now, n);
      LaggingFirst(lag, t, Call(key, now, {}), Burst(key, now, n - 1));
      BurstLags(lag, t, key, now, n - 1);
    }
  }

  lemma CostUnfolds(c: Config, n: nat)
    requires c.Valid() && n > 0
    ensures Cost(c, n) == c.refill + Cost(c, n - 1)
    ensures Cost(c, n - 1) >= 0 && c.refill > 0
  {
    CostIsNotNegative(c, n - 1);
  }

  lemma NoBurst<K>(c: Config, m: Buckets<K>, key: K, now: int)
    requires key in m && m[key].last == now
    ensures
      var calls := Burst(key, now, 0);
      && Legal(c, m, calls) && Answers(c, m, calls) == Yes(0) && Heard(c, m, calls) == calls
      && After(c, m, calls) == m == m[key := Bucket(m[key].credit - Cost(c, 0), now)]
  {
    assert m[key] == Bucket(m[key].credit, now);
  }

  /** Enough credit for n admissions: the limiter grants them. */
  lemma {:induction false} BurstIsGranted<K>(c: Config, m: Buckets<K>, key: K, now: int, n: nat)
    requires c.Valid() && key in m && m[key].last == now && Cost(c, n) <= m[key].credit <= c.full && Quiet(c, m, now)
    ensures
      var calls := Burst(key, now, n);
      && Legal(c, m, calls) && Answers(c, m, calls) == Yes(n) && Heard(c, m, calls) == calls
      && After(c, m, calls) == m[key := Bucket(m[key].credit - Cost(c, n), now)]
    decreases n
  {
    hide *;
    if n == 0 {
      NoBurst(c, m, key, now);
    } else {
      CostUnfolds(c, n);
      GrantedOnce(c, m, key, now);
      BurstUnfolds(key, now, n);
      var call, m1 := Call(key, now, {}), m[key := Bucket(m[key].credit - c.refill, now)];
      BurstIsGranted(c, m1, key, now, n - 1);
      HeardFirst(c, m, call, Burst(key, now, n - 1));
      assert m1[key := Bucket(m1[key].credit - Cost(c, n - 1), now)]
          == m[key := Bucket(m[key].credit - Cost(c, n), now)];
    }
  }

  /** So does the reference. */
  lemma {:induction false} ReferenceGrantsBurst<K>(c: Config, m: Buckets<K>, key: K, now: int, n: nat)
    requires c.Valid() && key in m && m[key].last == now && Cost(c, n) <= m[key].credit <= c.full
    ensures ReferenceAfter(c, m, Burst(key, now, n)) == m[key := Bucket(m[key].credit - Cost(c, n), now)]
    decreases n
  {
    if n > 0 {
      CostUnfolds(c, n);
      var m1 := m[key := Bucket(m[key].credit - c.refill, now)];
      assert Charge(c, m, key, now) == (m1, true);
      hide Charge;
      BurstUnfolds(key, now, n);
      ReferenceGrantsBurst(c, m1, key, now, n - 1);
      ReferenceFirst(c, m, Call(key, now, {}), Burst(key, now, n - 1));
      assert m1[key := Bucket(m1[key].credit - Cost(c, n - 1), now)]
          == m[key := Bucket(m[key].credit - Cost(c, n), now)];
    }
  }

  /** And it grants no more than the credit covers. */
  lemma {:induction false} ReferenceBurst<K>(c: Config, u: Buckets<K>, key: K, now: int, n: nat)
    requires key in u && u[key].last <= now
    requires ReferenceAnswers(c, u, Burst(key, now, n)) == Yes(n)
    ensures n == 0 || Cost(c, n) <= u[key].credit + (now - u[key].last)
    decreases n
  {
    if n > 0 {
      var r := Charge(c, u, key, now);
      BurstUnfolds(key, now, n);
      ReferenceFirst(c, u, Call(key, now, {}), Burst(key, now, n - 1));
      var all := ReferenceAnswers(c, u, Burst(key, now, n));
      assert all[0] == r.1 && Yes(n)[0];
      assert all[1..] == ReferenceAnswers(c, r.0, Burst(key, now, n - 1)) && Yes(n)[1..] == Yes(n - 1);
      ReferenceBurst(c, r.0, key, now, n - 1);
    }
  }

  /** A call that makes a bucket, and the rest of a full burst. */
  ghost function Drain<K>(first: Call<K>, n: nat): (calls: seq<Call<K>>)
    ensures |calls| == n + 1
  {
    [first] + Burst(first.key, first.now, n)
  }

  lemma NewBucketDrains<K>(c: Config, m: Buckets<K>, m1: Buckets<K>, first: Call<K>, n: nat)
    requires c.Valid() && c.full == Cost(c, n + 1)
    requires CanReap(c, m, first.now, first.dropped) && !RefusedForCapacity(c, m, first) && Admitted(c, m, first)
    requires Next(c, m, first) == m1 && first.key in m1 && m1[first.key] == Bucket(c.full - c.refill, first.now)
    requires Quiet(c, m1, first.now)
    ensures
      var calls := Drain(first, n);
      && Legal(c, m, calls) && Answers(c, m, calls) == Yes(n + 1) && Heard(c, m, calls) == calls
      && After(c, m, calls) == m1[first.key := Bucket(0, first.now)]
  {
    CostUnfolds(c, n + 1);
    assert Yes(n + 1) == [true] + Yes(n);
    assert Drain(first, n) == [first] + Burst(first.key, first.now, n);
    hide *;
    BurstIsGranted(c, m1, first.key, first.now, n);
    HeardFirst(c, m, first, Burst(first.key, first.now, n));
  }

  lemma DrainLags<K>(lag: nat, t: int, first: Call<K>, n: nat)
    requires t - lag <= first.now
    ensures Lagging(lag, t, Drain(first, n)) && Latest(t, Drain(first, n)) == Max(t, first.now)
  {
    LaggingFirst(lag, t, first, Burst(first.key, first.now, n));
    BurstLags(lag, Max(t, first.now), first.key, first.now, n);
  }

  /** The first call of all makes its bucket. */
  lemma FirstCall<K>(c: Config, first: Call<K>)
    requires c.Valid() && c.maxBuckets >= 1 && first.dropped == {}
    ensures
      var empty: Buckets<K> := map[];
      var born := map[first.key := Bucket(c.full - c.refill, first.now)];
      && CanReap(c, empty, first.now, first.dropped)
      && !RefusedForCapacity(c, empty, first) && Admitted(c, empty, first)
      && Next(c, empty, first) == born && Charge(c, empty, first.key, first.now) == (born, true)
      && Quiet(c, born, first.now)
  {
    var empty: Buckets<K> := map[];
    QuietReap(c, empty, first.now);
    assert empty - {} == empty;
  }

  lemma OneBucket<K>(key: K, b: Bucket, b': Bucket)
    ensures map[key := b][key := b'] == map[key := b']
  {
  }

  /** From nothing, both limiters end with an empty bucket. */
  lemma FirstBurstDrains<K>(c: Config, first: Call<K>, n: nat)
    requires c.Valid() && c.full == Cost(c, n + 1) && c.maxBuckets >= 1 && first.dropped == {}
    ensures
      var calls := Drain(first, n);
      var empty: Buckets<K> := map[];
      && Legal(c, empty, calls) && Answers(c, empty, calls) == Yes(n + 1) && Heard(c, empty, calls) == calls
      && After(c, empty, calls) == map[first.key := Bucket(0, first.now)] == ReferenceAfter(c, empty, calls)
  {
    var empty: Buckets<K> := map[];
    var born := map[first.key := Bucket(c.full - c.refill, first.now)];
    CostUnfolds(c, n + 1);
    DrainIs(first, n);
    hide *;
    FirstCall(c, first);
    OneBucket(first.key, born[first.key], Bucket(0, first.now));
    NewBucketDrains(c, empty, born, first, n);
    ReferenceGrantsBurst(c, born, first.key, first.now, n);
    ReferenceFirst(c, empty, first, Burst(first.key, first.now, n));
  }

  lemma DrainIs<K>(first: Call<K>, n: nat)
    ensures Drain(first, n) == [first] + Burst(first.key, first.now, n)
  {
  }

  /** The reference refuses some call of a burst that the bucket's credit does not cover. */
  lemma ReferenceRefusesBurst<K>(c: Config, u: Buckets<K>, first: Call<K>, n: nat)
    requires first.key in u && u[first.key].last <= first.now
    requires u[first.key].credit + (first.now - u[first.key].last) < Cost(c, n + 1)
    ensures ReferenceAnswers(c, u, Drain(first, n)) != Yes(n + 1)
  {
    var again := Burst(first.key, first.now, n + 1);
    BurstUnfolds(first.key, first.now, n + 1);
    ReferenceFirst(c, u, first, Burst(first.key, first.now, n));
    ReferenceFirst(c, u, Call(first.key, first.now, {}), Burst(first.key, first.now, n));
    assert ReferenceAnswers(c, u, Drain(first, n)) == ReferenceAnswers(c, u, again);
    if ReferenceAnswers(c, u, again) == Yes(n + 1) {
      ReferenceBurst(c, u, first.key, first.now, n + 1);
      assert false;
    }
  }

  /** After the same calls, a burst that one limiter grants and the other does not tells them apart. */
  lemma BurstShows<K(!new)>(c: Config, lag: nat, t: int, before: seq<Call<K>>, burst: seq<Call<K>>)
    requires Legal(c, map[], before) && Heard(c, map[], before) == before && Lagging(lag, t, before)
    requires
      var m, u := After(c, map[], before), ReferenceAfter(c, map[], before);
      && Legal(c, m, burst) && Heard(c, m, burst) == burst && Lagging(lag, Latest(t, before), burst)
      && Answers(c, m, burst) != ReferenceAnswers(c, u, burst)
      && |Answers(c, m, burst)| == |ReferenceAnswers(c, u, burst)|
    ensures !EvictionUnobservable<K>(c, lag)
  {
    hide *;
    LegalAppend(c, map[], before, burst);
    LaggingAppend(lag, t, before, burst);
    AnswersAppend(c, map[], before, burst);
    HeardAppend(c, map[], before, burst);
    ReferenceAppend(c, map[], before, burst);
    var m, u := After(c, map[], before), ReferenceAfter(c, map[], before);
    TailsDiffer(Answers(c, map[], before), Answers(c, m, burst),
                ReferenceAnswers(c, map[], before), ReferenceAnswers(c, u, burst));
    RunShows(c, lag, t, before + burst);
  }

  lemma RunShows<K(!new)>(c: Config, lag: nat, t: int, calls: seq<Call<K>>)
    requires Legal(c, map[], calls) && Lagging(lag, t, calls)
    requires Answers(c, map[], calls) != ReferenceAnswers(c, map[], Heard(c, map[], calls))
    ensures !EvictionUnobservable<K>(c, lag)
  {
  }

  lemma TailsDiffer<T>(a: seq<T>, x: seq<T>, b: seq<T>, y: seq<T>)
    requires |x| == |y| && x != y
    ensures a + x != b + y
  {
    if a + x == b + y {
      SameTail(a, x, b, y);
    }
  }

  lemma SameTail<T>(a: seq<T>, x: seq<T>, b: seq<T>, y: seq<T>)
    requires |x| == |y| && a + x == b + y
    ensures x == y
  {
    assert x == (a + x)[|a|..] && y == (b + y)[|b|..];
  }

  lemma {:induction false} OneAnswerPerCall<K>(c: Config, u: Buckets<K>, calls: seq<Call<K>>)
    ensures |ReferenceAnswers(c, u, calls)| == |calls|
    decreases |calls|
  {
    if calls != [] {
      OneAnswerPerCall(c, Charge(c, u, calls[0].key, calls[0].now).0, calls[1..]);
    }
  }

  /** In order, one key is enough: drain the bucket at 0, expire it before it is full, drain it again. */
  lemma ShortTTLIsObservable<K(!new)>(c: Config, key: K, n: nat)
    requires c.Valid() && c.maxBuckets >= 1 && c.full == Cost(c, n + 1) && c.idleTTL + 1 < c.full
    ensures !EvictionUnobservable<K>(c, 0)
  {
    var at := c.idleTTL + 1;
    var first, again := Call(key, 0, {}), Call(key, at, {key});
    var spent, born := map[key := Bucket(0, 0)], map[key := Bucket(c.full - c.refill, at)];
    var empty: Buckets<K> := map[];
    assert spent - {key} == empty && empty[key := Bucket(c.full - c.refill, at)] == born;
    assert Next(c, spent, again) == born;
    FirstBurstDrains(c, first, n);
    NewBucketDrains(c, spent, born, again, n);
    ReferenceRefusesBurst(c, spent, again, n);
    OneAnswerPerCall(c, spent, Drain(again, n));
    DrainLags(0, 0, first, n);
    DrainLags(0, 0, again, n);
    hide *;
    BurstShows(c, 0, 0, Drain(first, n), Drain(again, n));
  }

  lemma OldReadingOverdraws<K>(c: Config, a: K, lag: nat)
    requires c.Valid()
    ensures
      var spent, late, m := map[a := Bucket(0, lag)], Call(a, 0, {}), map[a := Bucket(0 - lag, 0)];
      && CanReap(c, spent, 0, late.dropped) && !RefusedForCapacity(c, spent, late)
      && Next(c, spent, late) == m == Charge(c, spent, a, 0).0
  {
    var spent, m := map[a := Bucket(0, lag)], map[a := Bucket(0 - lag, 0)];
    QuietReap(c, spent, 0);
    assert spent - {} == spent && spent[a := Bucket(0 - lag, 0)] == m;
    assert Spend(c, Find(spent, a), 0).0 == Bucket(0 - lag, 0);
  }

  lemma OtherKeySweeps<K>(c: Config, a: K, b: K, idle: Bucket, at: int)
    requires c.Valid() && c.maxBuckets >= 1 && a != b && Expired(c, idle, at)
    ensures
      var m, sweep, born := map[a := idle], Call(b, at, {a}), Bucket(c.full - c.refill, at);
      && CanReap(c, m, at, sweep.dropped) && !RefusedForCapacity(c, m, sweep)
      && Next(c, m, sweep) == map[b := born] && Charge(c, m, b, at).0 == m[b := born]
  {
    var empty: Buckets<K> := map[];
    OnlyEntryIsReaped(c, a, idle, at);
    hide CanReap;
    assert map[a := idle] - {a} == empty;
    assert empty[b := Bucket(c.full - c.refill, at)] == map[b := Bucket(c.full - c.refill, at)];
  }

  /**
   Out of order, a second key helps: drain the bucket at the latest reading, charge it at
   the oldest reading, expire it from there, and drain it again at the oldest one that may come.
   */
  ghost function LagPrefix<K>(a: K, b: K, lag: nat, at: int, n: nat): seq<Call<K>> {
    Drain(Call(a, lag, {}), n) + ([Call(a, 0, {})] + ([Call(b, at, {a})] + []))
  }

  lemma LagPrefixRuns<K>(c: Config, a: K, b: K, lag: nat, at: int, n: nat)
    requires c.Valid() && c.maxBuckets >= 1 && a != b && c.idleTTL < at && 0 <= at && c.full == Cost(c, n + 1)
    ensures
      var calls := LagPrefix(a, b, lag, at, n);
      var born := Bucket(c.full - c.refill, at);
      && Legal(c, map[], calls) && Heard(c, map[], calls) == calls
      && Lagging(lag, lag, calls) && Latest(lag, calls) == Max(lag, at)
      && After(c, map[], calls) == map[b := born]
      && ReferenceAfter(c, map[], calls) == map[a := Bucket(0 - lag, 0)][b := born]
  {
    var xs := Drain(Call(a, lag, {}), n);
    var late, sweep := Call(a, 0, {}), Call(b, at, {a});
    var none: seq<Call<K>> := [];
    var spent, m := map[a := Bucket(0, lag)], map[a := Bucket(0 - lag, 0)];
    var m2 := map[b := Bucket(c.full - c.refill, at)];
    assert LagPrefix(a, b, lag, at, n) == xs + ([late] + ([sweep] + none));
    assert Legal(c, m2, none) && Heard(c, m2, none) == none && After(c, m2, none) == m2;
    assert ReferenceAfter(c, m[b := m2[b]], none) == m[b := m2[b]];
    assert Lagging(lag, Max(lag, at), none) && Latest(Max(lag, at), none) == Max(lag, at);
    hide *;
    FirstBurstDrains(c, Call(a, lag, {}), n);
    DrainLags(lag, lag, Call(a, lag, {}), n);
    OldReadingOverdraws(c, a, lag);
    OtherKeySweeps(c, a, b, Bucket(0 - lag, 0), at);
    HeardFirst(c, m, sweep, none);
    HeardFirst(c, spent, late, [sweep] + none);
    ReferenceFirst(c, m, sweep, none);
    ReferenceFirst(c, spent, late, [sweep] + none);
    LaggingFirst(lag, lag, sweep, none);
    LaggingFirst(lag, lag, late, [sweep] + none);
    LegalAppend(c, map[], xs, [late] + ([sweep] + none));
    HeardAppend(c, map[], xs, [late] + ([sweep] + none));
    AfterAppend(c, map[], xs, [late] + ([sweep] + none));
    ReferenceAppend(c, map[], xs, [late] + ([sweep] + none));
    LaggingAppend(lag, lag, xs, [late] + ([sweep] + none));
  }

  /** The key whose bucket was evicted drains a fresh one, though what it owes is still due. */
  lemma LagEvicts<K>(c: Config, a: K, b: K, lag: nat, at: int, n: nat)
    requires c.Valid() && c.maxBuckets >= 2 && a != b && c.full == Cost(c, n + 1)
    requires c.idleTTL < at && 0 <= at
    ensures
      var prefix, again := LagPrefix(a, b, lag, at, n), Call(a, Max(lag, at) - lag, {});
      var m, burst := After(c, map[], prefix), Drain(again, n);
      && Legal(c, map[], prefix) && Heard(c, map[], prefix) == prefix
      && Legal(c, m, burst) && Heard(c, m, burst) == burst && Answers(c, m, burst) == Yes(n + 1)
      && Legal(c, map[], prefix + burst) && Lagging(lag, lag, prefix + burst)
      && ReferenceAfter(c, map[], prefix) == map[a := Bucket(0 - lag, 0)][b := Bucket(c.full - c.refill, at)]
  {
    var again := Call(a, Max(lag, at) - lag, {});
    var m := map[b := Bucket(c.full - c.refill, at)];
    var m1 := m[a := Bucket(c.full - c.refill, again.now)];
    assert m - {} == m && |m| == 1;
    QuietReap(c, m, again.now);
    assert Next(c, m, again) == m1 && Quiet(c, m1, again.now);
    assert Admitted(c, m, again) && !RefusedForCapacity(c, m, again);
    hide *;
    LagPrefixRuns(c, a, b, lag, at, n);
    NewBucketDrains(c, m, m1, again, n);
    DrainLags(lag, Max(lag, at), again, n);
    LegalAppend(c, map[], LagPrefix(a, b, lag, at, n), Drain(again, n));
    LaggingAppend(lag, lag, LagPrefix(a, b, lag, at, n), Drain(again, n));
  }

  lemma LagIsObservable<K(!new)>(c: Config, a: K, b: K, lag: nat, n: nat)
    requires c.Valid() && c.maxBuckets >= 2 && a != b
    requires c.full == Cost(c, n + 1) && c.idleTTL + 1 < c.full + 2 * lag
    ensures !EvictionUnobservable<K>(c, lag)
  {
    var at := c.idleTTL + 1;
    var prefix, again := LagPrefix(a, b, lag, at, n), Call(a, Max(lag, at) - lag, {});
    var u := map[a := Bucket(0 - lag, 0)][b := Bucket(c.full - c.refill, at)];
    LagEvicts(c, a, b, lag, at, n);
    ReferenceRefusesBurst(c, u, again, n);
    OneAnswerPerCall(c, u, Drain(again, n));
    hide *;
    LaggingAppend(lag, lag, prefix, Drain(again, n));
    BurstShows(c, lag, lag, prefix, Drain(again, n));
  }

  /** Main result, in order: eviction cannot be observed exactly when a bucket that expires has had time to fill. */
  lemma EvictionUnobservableIff<K(!new)>(burst: nat, refill: int, idleTTL: nat, maxBuckets: nat, key: K)
    requires burst >= 1 && refill >= 1 && maxBuckets >= 1
    ensures
      var c := NewConfig(burst, refill, idleTTL, maxBuckets);
      EvictionUnobservable<K>(c, 0) <==> burst * refill <= idleTTL + 1
  {
    var c := NewConfig(burst, refill, idleTTL, maxBuckets);
    CostIsProduct(c, burst);
    FullBucketIsValid(burst, refill, idleTTL, maxBuckets);
    if c.full <= c.idleTTL + 1 {
      EvictionIsUnobservable<K>(c, 0);
    } else {
      ShortTTLIsObservable(c, key, burst - 1);
    }
  }

  /**
   Main result, in any order: on readings that lag by at most `lag`, eviction cannot be
   observed exactly when the idle TTL leaves room for that lag twice, once for the
   reading a bucket was last charged at and once for the one it is charged at next.
   */
  lemma LaggingEvictionIff<K(!new)>(
      burst: nat, refill: int, idleTTL: nat, maxBuckets: nat, lag: nat, a: K, b: K)
    requires burst >= 1 && refill >= 1 && maxBuckets >= 2 && a != b
    ensures
      var c := NewConfig(burst, refill, idleTTL, maxBuckets);
      EvictionUnobservable<K>(c, lag) <==> burst * refill + 2 * lag <= idleTTL + 1
  {
    var c := NewConfig(burst, refill, idleTTL, maxBuckets);
    CostIsProduct(c, burst);
    FullBucketIsValid(burst, refill, idleTTL, maxBuckets);
    if c.full + 2 * lag <= c.idleTTL + 1 {
      EvictionIsUnobservable<K>(c, lag);
    } else {
      LagIsObservable(c, a, b, lag, burst - 1);
    }
  }

  /** So no idle TTL hides eviction from readings that may lag without bound. */
  lemma OutOfOrderEvictionShows<K(!new)>(burst: nat, refill: int, idleTTL: nat, maxBuckets: nat, a: K, b: K)
    requires burst >= 1 && refill >= 1 && maxBuckets >= 2 && a != b
    ensures exists lag :: !EvictionUnobservable<K>(NewConfig(burst, refill, idleTTL, maxBuckets), lag)
  {
    var lag := idleTTL + 1;
    FullBucketIsValid(burst, refill, idleTTL, maxBuckets);
    LaggingEvictionIff(burst, refill, idleTTL, maxBuckets, lag, a, b);
  }

  // -------------------------------------------------------- capacity over runs

  lemma {:induction false} MapStaysBounded<K>(c: Config, m: Buckets<K>, calls: seq<Call<K>>)
    requires |m| <= c.maxBuckets
    ensures |After(c, m, calls)| <= c.maxBuckets
    decreases |calls|
  {
    if calls != [] {
      var m1, key := m - calls[0].dropped, calls[0].key;
      SubmapIsNoLarger(m1, m);
      var m' := Next(c, m, calls[0]);
      assert m'.Keys <= m1.Keys + {key};
      if key in m1 {
        SubsetIsNoLarger(m'.Keys, m1.Keys);
      } else if !AtCapacity(c, m1, key) {
        SubsetIsNoLarger(m'.Keys, m1.Keys + {key});
      }
      MapStaysBounded(c, m', calls[1..]);
    }
  }

  /** A key is only turned away for want of room when as many other keys have called before. */
  lemma RefusedAmongMany<K>(c: Config, calls: seq<Call<K>>, call: Call<K>)
    requires Legal(c, map[], calls) && RefusedForCapacity(c, After(c, map[], calls), call)
    ensures |(set other | other in calls && other.key != call.key :: other.key)| >= c.maxBuckets
  {
    var m := After(c, map[], calls) - call.dropped;
    var others := set other | other in calls && other.key != call.key :: other.key;
    KeysHaveCalled(c, map[], calls);
    assert m.Keys <= others;
    SubsetIsNoLarger(m.Keys, others);
    assert |m| == |m.Keys|;
  }

  lemma {:induction false} KeysHaveCalled<K>(c: Config, m: Buckets<K>, calls: seq<Call<K>>)
    ensures forall k <- After(c, m, calls) :: k in m || exists call <- calls :: call.key == k
    decreases |calls|
  {
    if calls != [] {
      KeysHaveCalled(c, Next(c, m, calls[0]), calls[1..]);
      assert forall k <- Next(c, m, calls[0]) :: k in m || k == calls[0].key;
      forall k <- After(c, m, calls) ensures k in m || exists call <- calls :: call.key == k {
        if exists call <- calls[1..] :: call.key == k {
          var call :| call in calls[1..] && call.key == k;
          assert call in calls;
        } else if k !in m {
          assert calls[0].key == k;
        }
      }
    }
  }

  /**
   Some sweep turns a new key away exactly when the map is full and holds eight entries
   that have not expired, or nothing but such entries. There may well be expired ones besides.
   */
  lemma NewKeyMayBeRefusedIff<K>(c: Config, m: Buckets<K>, key: K, now: int)
    requires key !in m && |m| <= c.maxBuckets
    ensures (exists dropped: set<K> | dropped <= m.Keys ::
               CanReap(c, m, now, dropped) && RefusedForCapacity(c, m, Call(key, now, dropped)))
            <==> |m| == c.maxBuckets && |m.Keys - Stale(c, m, m.Keys, now)| >= Min(REAP_SAMPLE, |m|)
  {
    var busy := m.Keys - Stale(c, m, m.Keys, now);
    assert |m.Keys| == |m|;
    if |m| == c.maxBuckets && |busy| >= Min(REAP_SAMPLE, |m|) {
      var seen := SomeOf(busy, Min(REAP_SAMPLE, |m|));
      assert Stale(c, m, seen, now) == {};
      assert m - {} == m;
      assert CanReap(c, m, now, {}) && RefusedForCapacity(c, m, Call(key, now, {}));
    }
    forall dropped: set<K> |
      && dropped <= m.Keys
      && CanReap(c, m, now, dropped) && RefusedForCapacity(c, m, Call(key, now, dropped))
      ensures |m| == c.maxBuckets && |busy| >= Min(REAP_SAMPLE, |m|)
    {
      RefusedSeesNothingStale(c, m, key, now, dropped);
    }
  }

  lemma RefusedSeesNothingStale<K>(c: Config, m: Buckets<K>, key: K, now: int, dropped: set<K>)
    requires |m| <= c.maxBuckets && CanReap(c, m, now, dropped) && RefusedForCapacity(c, m, Call(key, now, dropped))
    ensures |m| == c.maxBuckets && |m.Keys - Stale(c, m, m.Keys, now)| >= Min(REAP_SAMPLE, |m|)
  {
    ReapedAreStale(c, m, now, dropped);
    var left := m - dropped;
    assert left.Keys == m.Keys - dropped && |left.Keys| == |left| && |m.Keys| == |m|;
    assert |m.Keys - dropped| == |m.Keys| - |dropped|;
    assert dropped == {};
    var seen: set<K> :| seen <= m.Keys && |seen| == Min(REAP_SAMPLE, |m|) && dropped == Stale(c, m, seen, now);
    assert forall k <- seen :: k !in Stale(c, m, seen, now);
    SubsetIsNoLarger(seen, m.Keys - Stale(c, m, m.Keys, now));
  }

  /** A key is not evicted, and so not refused for capacity, while all readings stay within the idle TTL of its own. */
  lemma {:induction false} ActiveKeyKeepsItsBucket<K>(c: Config, m: Buckets<K>, calls: seq<Call<K>>, key: K, t: int)
    requires Legal(c, m, calls)
    requires key in m && t <= m[key].last
    requires forall i | 0 <= i < |calls| :: t <= calls[i].now <= t + c.idleTTL
    ensures key in After(c, m, calls) && t <= After(c, m, calls)[key].last
    decreases |calls|
  {
    if calls != [] {
      var m' := Next(c, m, calls[0]);
      assert t <= calls[0].now <= t + c.idleTTL && key !in calls[0].dropped;
      assert key in m' && (m'[key] == m[key] || m'[key].last == calls[0].now);
      ActiveKeyKeepsItsBucket(c, m', calls[1..], key, t);
    }
  }

  /** So every call of such a key is heard, however full the map. */
  lemma ActiveKeyIsHeard<K>(c: Config, m: Buckets<K>, calls: seq<Call<K>>, key: K, t: int, i: nat)
    requires Legal(c, m, calls) && i < |calls| && calls[i].key == key
    requires key in m && t <= m[key].last
    requires forall j | 0 <= j < |calls| :: t <= calls[j].now <= t + c.idleTTL
    ensures !RefusedForCapacity(c, After(c, m, calls[..i]), calls[i])
  {
    var m1 := After(c, m, calls[..i]);
    assert calls[..i] + calls[i..] == calls;
    LegalAppend(c, m, calls[..i], calls[i..]);
    assert CanReap(c, m1, calls[i].now, calls[i].dropped);
    ActiveKeyKeepsItsBucket(c, m, calls[..i], key, t);
    ReapedAreStale(c, m1, calls[i].now, calls[i].dropped);
    hide CanReap, After, Legal;
  }

  // ----------------------------------------------------------- admission bound

  ghost predicate Admitted<K>(c: Config, m: Buckets<K>, call: Call<K>) {
    Decide(c, m - call.dropped, call.key, call.now).1
  }

  /** How many of the calls by `key` are admitted. */
  ghost function Admissions<K>(c: Config, m: Buckets<K>, calls: seq<Call<K>>, key: K): nat
    decreases |calls|
  {
    if calls == [] then 0 else
      var later := Admissions(c, Next(c, m, calls[0]), calls[1..], key);
      if calls[0].key == key && Admitted(c, m, calls[0]) then later + 1 else later
  }

  ghost function ReferenceAdmissions<K>(c: Config, u: Buckets<K>, calls: seq<Call<K>>, key: K): nat
    decreases |calls|
  {
    if calls == [] then 0 else
      var r := Charge(c, u, calls[0].key, calls[0].now);
      var later := ReferenceAdmissions(c, r.0, calls[1..], key);
      if calls[0].key == key && r.1 then later + 1 else later
  }

  /** The same, priced: one refill interval per admission. */
  ghost function Paid<K>(c: Config, m: Buckets<K>, calls: seq<Call<K>>, key: K): int
    decreases |calls|
  {
    if calls == [] then 0 else
      var later := Paid(c, Next(c, m, calls[0]), calls[1..], key);
      if calls[0].key == key && Admitted(c, m, calls[0]) then later + c.refill else later
  }

  ghost function ReferencePaid<K>(c: Config, u: Buckets<K>, calls: seq<Call<K>>, key: K): int
    decreases |calls|
  {
    if calls == [] then 0 else
      var r := Charge(c, u, calls[0].key, calls[0].now);
      var later := ReferencePaid(c, r.0, calls[1..], key);
      if calls[0].key == key && r.1 then later + c.refill else later
  }

  lemma {:induction false} PaidPerAdmission<K>(c: Config, m: Buckets<K>, calls: seq<Call<K>>, key: K)
    ensures Paid(c, m, calls, key) == Cost(c, Admissions(c, m, calls, key))
    decreases |calls|
  {
    hide Next, Admitted;
    if calls != [] {
      PaidPerAdmission(c, Next(c, m, calls[0]), calls[1..], key);
    }
  }

  lemma {:induction false} ReferencePaidPerAdmission<K>(c: Config, u: Buckets<K>, calls: seq<Call<K>>, key: K)
    ensures ReferencePaid(c, u, calls, key) == Cost(c, ReferenceAdmissions(c, u, calls, key))
    decreases |calls|
  {
    if calls != [] {
      ReferencePaidPerAdmission(c, Charge(c, u, calls[0].key, calls[0].now).0, calls[1..], key);
    }
  }

  /**
   A key's allowance measured against a fixed instant: it only ever falls, by
   one token per admission. An absent bucket counts as one that is full at t.
   */
  ghost function Potential<K>(c: Config, m: Buckets<K>, key: K, t: int): int {
    if key in m then m[key].credit - m[key].last else c.full - t
  }

  lemma {:induction false} ReferencePotentialFalls<K>(c: Config, u: Buckets<K>, calls: seq<Call<K>>, key: K)
    requires key in u
    ensures key in ReferenceAfter(c, u, calls)
    ensures Potential(c, ReferenceAfter(c, u, calls), key, 0) + ReferencePaid(c, u, calls, key)
         <= Potential(c, u, key, 0)
    decreases |calls|
  {
    if calls != [] {
      var r := Charge(c, u, calls[0].key, calls[0].now);
      assert key in r.0;
      ReferencePotentialFalls(c, r.0, calls[1..], key);
    }
  }

  /** A stretch of calls that begins and ends with calls by `key`. */
  ghost predicate Window<K>(calls: seq<Call<K>>, key: K) {
    |calls| >= 2 && calls[0].key == key == calls[|calls| - 1].key
  }

  /**
   Without eviction the bound needs nothing of the clock: readings may reach the
   lock in any order, and the run may start from any state.
   */
  lemma ReferenceAdmissionBound<K>(burst: nat, refill: int, u: Buckets<K>, calls: seq<Call<K>>, key: K)
    requires burst >= 1 && refill >= 1
    requires Window(calls, key)
    requires
      var c := NewConfig(burst, refill, 0, 0);
      Charge(c, ReferenceAfter(c, u, calls[..|calls| - 1]), key, calls[|calls| - 1].now).1
    ensures ReferenceAdmissions(NewConfig(burst, refill, 0, 0), u, calls, key) * refill
         <= burst * refill + calls[|calls| - 1].now - calls[0].now
  {
    var c := NewConfig(burst, refill, 0, 0);
    var n := |calls| - 1;
    var front, last := calls[..n], calls[n];
    var u1 := Charge(c, u, key, calls[0].now).0;
    var un := ReferenceAfter(c, u, front);
    FullBucketIsValid(burst, refill, 0, 0);
    assert front[0] == calls[0];
    ReferencePotentialFalls(c, u1, front[1..], key);
    assert calls == front + [last];
    ReferencePaidAppend(c, u, front, [last], key);
    ReferencePaidPerAdmission(c, u, calls, key);
    CostIsProduct(c, ReferenceAdmissions(c, u, calls, key));
    assert ReferencePaid(c, un, [last], key) == c.refill;
    assert key in un;
    assert 0 <= Charge(c, un, key, last.now).0[key].credit;
  }

  lemma {:induction false} ReferencePaidAppend<K>(c: Config, u: Buckets<K>, xs: seq<Call<K>>, ys: seq<Call<K>>, key: K)
    ensures ReferencePaid(c, u, xs + ys, key)
         == ReferencePaid(c, u, xs, key) + ReferencePaid(c, ReferenceAfter(c, u, xs), ys, key)
    decreases |xs|
  {
    if xs == [] {
      assert xs + ys == ys;
    } else {
      assert (xs + ys)[0] == xs[0] && (xs + ys)[1..] == xs[1..] + ys;
      ReferencePaidAppend(c, Charge(c, u, xs[0].key, xs[0].now).0, xs[1..], ys, key);
    }
  }

  lemma SaneStep<K>(c: Config, m: Buckets<K>, t: int, lag: nat, call: Call<K>)
    requires c.Valid() && Sane(c, m, t, lag) && t - lag <= call.now
    ensures Sane(c, Next(c, m, call), Max(t, call.now), lag)
  {
    SpendIsSane(c, Find(m - call.dropped, call.key), call.now, Max(t, call.now), lag);
  }

  lemma {:induction false} SaneRun<K>(c: Config, m: Buckets<K>, t: int, lag: nat, calls: seq<Call<K>>)
    requires c.Valid() && Sane(c, m, t, lag) && Lagging(lag, t, calls)
    ensures Sane(c, After(c, m, calls), Latest(t, calls), lag)
    decreases |calls|
  {
    if calls != [] {
      hide Sane, Next;
      SaneStep(c, m, t, lag, calls[0]);
      SaneRun(c, Next(c, m, calls[0]), Max(t, calls[0].now), lag, calls[1..]);
    }
  }

  lemma PotentialStep<K>(c: Config, m: Buckets<K>, t: int, lag: nat, call: Call<K>, key: K)
    requires c.Valid() && c.full + 2 * lag <= c.idleTTL + 1
    requires Sane(c, m, t, lag) && t - lag <= call.now && CanReap(c, m, call.now, call.dropped)
    ensures Potential(c, Next(c, m, call), key, Max(t, call.now) - lag)
            + (if call.key == key && Admitted(c, m, call) then c.refill else 0)
         <= Potential(c, m, key, t - lag)
  {
    var m1 := m - call.dropped;
    assert Potential(c, m1, key, Max(t, call.now) - lag) <= Potential(c, m, key, t - lag) by {
      if key in call.dropped {
        assert Expired(c, m[key], call.now);
      }
    }
  }

  lemma {:induction false} PotentialFalls<K>(c: Config, m: Buckets<K>, t: int, lag: nat, calls: seq<Call<K>>, key: K)
    requires c.Valid() && c.full + 2 * lag <= c.idleTTL + 1
    requires Sane(c, m, t, lag) && Lagging(lag, t, calls) && Legal(c, m, calls)
    ensures Potential(c, After(c, m, calls), key, Latest(t, calls) - lag) + Paid(c, m, calls, key)
         <= Potential(c, m, key, t - lag)
    decreases |calls|
  {
    if calls != [] {
      hide Sane, Next, Admitted, Potential;
      PotentialStep(c, m, t, lag, calls[0], key);
      SaneStep(c, m, t, lag, calls[0]);
      PotentialFalls(c, Next(c, m, calls[0]), Max(t, calls[0].now), lag, calls[1..], key);
    }
  }

  /**
   The time a stretch of calls takes, for what it admits: from its first reading to its
   last if the last call is admitted, else to the latest so far. If there was no room
   for the first call, it may have been ahead of the next one by the lag.
   */
  ghost function Elapsed<K>(c: Config, m: Buckets<K>, t: int, lag: nat, calls: seq<Call<K>>): int
    requires calls != []
  {
    var n := |calls| - 1;
    var end := if Admitted(c, After(c, m, calls[..n]), calls[n]) then calls[n].now else Latest(t, calls);
    end - calls[0].now + if RefusedForCapacity(c, m, calls[0]) then lag else 0
  }

  /** After a call by a key, what it holds is at most a full bucket less the token just spent. */
  lemma WindowStart<K>(c: Config, m: Buckets<K>, t: int, lag: nat, call: Call<K>)
    requires c.Valid() && Sane(c, m, t, lag) && t - lag <= call.now
    ensures Potential(c, Next(c, m, call), call.key, Max(t, call.now) - lag)
            + (if Admitted(c, m, call) then c.refill else 0)
         <= c.full - call.now + (if RefusedForCapacity(c, m, call) then lag else 0)
  {
  }

  /** And it never falls below the end of the stretch. */
  lemma WindowEnd<K>(c: Config, m: Buckets<K>, t: int, lag: nat, calls: seq<Call<K>>, key: K)
    requires c.Valid() && Sane(c, m, t, lag) && Lagging(lag, t, calls) && calls != []
    requires calls[|calls| - 1].key == key
    ensures
      var n := |calls| - 1;
      var end := if Admitted(c, After(c, m, calls[..n]), calls[n]) then calls[n].now else Latest(t, calls);
      Potential(c, After(c, m, calls), key, Latest(t, calls) - lag) >= -end
  {
    hide *;
    var n := |calls| - 1;
    SaneRun(c, m, t, lag, calls);
    LastCallEnds(c, m, calls);
    if Admitted(c, After(c, m, calls[..n]), calls[n]) {
      AdmittedLeavesCredit(c, After(c, m, calls[..n]), calls[n], Latest(t, calls) - lag);
    } else {
      SanePotential(c, After(c, m, calls), Latest(t, calls), lag, key);
    }
  }

  lemma LastCallEnds<K>(c: Config, m: Buckets<K>, calls: seq<Call<K>>)
    requires calls != []
    ensures
      var n := |calls| - 1;
      After(c, m, calls) == Next(c, After(c, m, calls[..n]), calls[n])
  {
    hide Next;
    var n := |calls| - 1;
    SplitLast(calls);
    AfterAppend(c, m, calls[..n], [calls[n]]);
    AfterOne(c, After(c, m, calls[..n]), calls[n]);
    hide After;
  }

  lemma SplitLast<T>(s: seq<T>)
    requires s != []
    ensures s[..|s| - 1] + [s[|s| - 1]] == s
  {
  }

  lemma AfterOne<K>(c: Config, m: Buckets<K>, call: Call<K>)
    ensures After(c, m, [call]) == Next(c, m, call)
  {
    assert After(c, Next(c, m, call), [call][1..]) == Next(c, m, call);
  }

  lemma SanePotential<K>(c: Config, m: Buckets<K>, t: int, lag: nat, key: K)
    requires c.Valid() && Sane(c, m, t, lag)
    ensures Potential(c, m, key, t - lag) >= -t
  {
  }

  lemma AdmittedLeavesCredit<K>(c: Config, m: Buckets<K>, call: Call<K>, t: int)
    requires c.Valid() && Admitted(c, m, call)
    ensures Potential(c, Next(c, m, call), call.key, t) >= -call.now
  {
  }

  lemma WindowCost<K>(c: Config, m: Buckets<K>, t: int, lag: nat, calls: seq<Call<K>>, key: K)
    requires c.Valid() && c.full + 2 * lag <= c.idleTTL + 1
    requires Sane(c, m, t, lag) && Lagging(lag, t, calls) && Legal(c, m, calls) && Window(calls, key)
    ensures Paid(c, m, calls, key) <= c.full + Elapsed(c, m, t, lag, calls)
  {
    hide Sane, Next, Admitted, Potential, RefusedForCapacity;
    var m1, rest, t1 := Next(c, m, calls[0]), calls[1..], Max(t, calls[0].now);
    WindowStart(c, m, t, lag, calls[0]);
    SaneStep(c, m, t, lag, calls[0]);
    WindowEnd(c, m, t, lag, calls, key);
    PotentialFalls(c, m1, t1, lag, rest, key);
  }

  /**
   Main result: the evicting, bounded limiter admits a key at most burst + elapsed / refill
   times in every window of every run from the start, on readings that lag.
   */
  lemma LaggingAdmissionBound<K>(burst: nat, refill: int, idleTTL: nat, maxBuckets: nat, lag: nat,
                                 before: seq<Call<K>>, calls: seq<Call<K>>, key: K, start: int)
    requires burst >= 1 && refill >= 1 && burst * refill + 2 * lag <= idleTTL + 1
    requires Window(calls, key)
    requires Legal(NewConfig(burst, refill, idleTTL, maxBuckets), map[], before + calls)
    requires Lagging(lag, start, before + calls)
    ensures
      var c := NewConfig(burst, refill, idleTTL, maxBuckets);
      var m := After(c, map[], before);
      Admissions(c, m, calls, key) * refill <= burst * refill + Elapsed(c, m, Latest(start, before), lag, calls)
  {
    var c := NewConfig(burst, refill, idleTTL, maxBuckets);
    FullBucketIsValid(burst, refill, idleTTL, maxBuckets);
    var m := After(c, map[], before);
    LegalAppend(c, map[], before, calls);
    LaggingAppend(lag, start, before, calls);
    SaneRun(c, map[], start, lag, before);
    WindowCost(c, m, Latest(start, before), lag, calls, key);
    PaidPerAdmission(c, m, calls, key);
    CostIsProduct(c, Admissions(c, m, calls, key));
  }

  /** In particular, with readings in order, from the window's first reading to its last. */
  lemma AdmissionBound<K>(burst: nat, refill: int, idleTTL: nat, maxBuckets: nat,
                          before: seq<Call<K>>, calls: seq<Call<K>>, key: K, start: int)
    requires burst >= 1 && refill >= 1 && burst * refill <= idleTTL + 1
    requires Window(calls, key)
    requires Legal(NewConfig(burst, refill, idleTTL, maxBuckets), map[], before + calls)
    requires Nondecreasing(start, before + calls)
    ensures
      var c := NewConfig(burst, refill, idleTTL, maxBuckets);
      Admissions(c, After(c, map[], before), calls, key) * refill
      <= burst * refill + calls[|calls| - 1].now - calls[0].now
  {
    LaggingAdmissionBound(burst, refill, idleTTL, maxBuckets, 0, before, calls, key, start);
    LaggingAppend(0, start, before, calls);
    LatestIsLast(Latest(start, before), calls);
  }

  // That condition is exact too: what lets eviction show lets a key past the bound.

  /** The bound of one window, with the calls before it. */
  ghost predicate WithinBound<K>(c: Config, lag: nat, before: seq<Call<K>>, calls: seq<Call<K>>, key: K, start: int)
    requires calls != []
  {
    var m := After(c, map[], before);
    Admissions(c, m, calls, key) * c.refill <= c.full + Elapsed(c, m, Latest(start, before), lag, calls)
  }

  /** Every window of every run from the start keeps the bound. */
  ghost predicate AdmissionBounded<K(!new)>(c: Config, lag: nat) {
    forall before: seq<Call<K>>, calls: seq<Call<K>>, key, start
      | Window(calls, key) && Legal(c, map[], before + calls) && Lagging(lag, start, before + calls)
      :: WithinBound(c, lag, before, calls, key, start)
  }

  lemma {:induction false} AdmissionsAppend<K>(c: Config, m: Buckets<K>, xs: seq<Call<K>>, ys: seq<Call<K>>, key: K)
    ensures Admissions(c, m, xs + ys, key) == Admissions(c, m, xs, key) + Admissions(c, After(c, m, xs), ys, key)
    decreases |xs|
  {
    hide Next, Admitted;
    if xs == [] {
      assert xs + ys == ys;
    } else {
      assert (xs + ys)[0] == xs[0] && (xs + ys)[1..] == xs[1..] + ys;
      AdmissionsAppend(c, Next(c, m, xs[0]), xs[1..], ys, key);
    }
  }

  lemma {:induction false} AtMostOneAnswerPerCall<K>(c: Config, m: Buckets<K>, calls: seq<Call<K>>)
    ensures |Answers(c, m, calls)| <= |calls|
    decreases |calls|
  {
    hide Next, RefusedForCapacity;
    if calls != [] {
      AtMostOneAnswerPerCall(c, Next(c, m, calls[0]), calls[1..]);
    }
  }

  /** A burst that is granted whole is admitted call by call. */
  lemma {:induction false} GrantedIsAdmitted<K>(c: Config, m: Buckets<K>, key: K, calls: seq<Call<K>>)
    requires forall i | 0 <= i < |calls| :: calls[i].key == key
    requires Answers(c, m, calls) == Yes(|calls|)
    ensures Admissions(c, m, calls, key) == |calls|
    ensures calls != [] ==> var n := |calls| - 1; Admitted(c, After(c, m, calls[..n]), calls[n])
    decreases |calls|
  {
    hide Next, RefusedForCapacity, Decide;
    if calls != [] {
      var m', rest, n := Next(c, m, calls[0]), calls[1..], |calls| - 1;
      AtMostOneAnswerPerCall(c, m', rest);
      assert Yes(|calls|) == [true] + Yes(n) && Answers(c, m, calls)[0];
      assert Answers(c, m', rest) == Answers(c, m, calls)[1..];
      GrantedIsAdmitted(c, m', key, rest);
      if rest != [] {
        assert calls[..n][0] == calls[0] && calls[..n][1..] == rest[..n - 1];
      }
    }
  }

  lemma {:induction false} BurstKeys<K>(key: K, now: int, n: nat)
    ensures forall call <- Burst(key, now, n) :: call.key == key && call.now == now
  {
    if n > 0 {
      BurstKeys(key, now, n - 1);
    }
  }

  lemma DrainKeys<K>(first: Call<K>, n: nat)
    ensures forall i | 0 <= i < |Drain(first, n)| :: Drain(first, n)[i].key == first.key
    ensures Drain(first, n)[n].now == first.now
  {
    BurstKeys(first.key, first.now, n);
  }

  /** The run that shows eviction admits its key twice a full bucket. */
  lemma LagPrefixAdmits<K>(c: Config, a: K, b: K, lag: nat, at: int, n: nat)
    requires c.Valid() && c.maxBuckets >= 1 && c.full == Cost(c, n + 1)
    ensures Admissions(c, map[], LagPrefix(a, b, lag, at, n), a) >= n + 1
    ensures !RefusedForCapacity(c, map[], LagPrefix(a, b, lag, at, n)[0])
  {
    var first := Call(a, lag, {});
    var rest := [Call(a, 0, {})] + ([Call(b, at, {a})] + []);
    assert LagPrefix(a, b, lag, at, n) == Drain(first, n) + rest && Drain(first, n)[0] == first;
    assert !RefusedForCapacity(c, map[], first) by {
      var empty: Buckets<K> := map[];
      assert empty - {} == empty;
    }
    hide *;
    FirstBurstDrains(c, first, n);
    DrainKeys(first, n);
    GrantedIsAdmitted(c, map[], a, Drain(first, n));
    AdmissionsAppend(c, map[], Drain(first, n), rest, a);
  }

  /** A run and then a granted burst by the key the run starts with: how long they take, and what they admit. */
  lemma BurstEndsWindow<K>(c: Config, t: int, lag: nat, prefix: seq<Call<K>>, first: Call<K>, n: nat)
    requires prefix != [] && !RefusedForCapacity(c, map[], prefix[0]) && prefix[0].key == first.key
    requires Answers(c, After(c, map[], prefix), Drain(first, n)) == Yes(n + 1)
    ensures
      var calls := prefix + Drain(first, n);
      && Window(calls, first.key)
      && Elapsed(c, map[], t, lag, calls) == first.now - prefix[0].now
      && Admissions(c, map[], calls, first.key) == Admissions(c, map[], prefix, first.key) + n + 1
  {
    var burst := Drain(first, n);
    var calls := prefix + burst;
    var k := |calls| - 1;
    hide Next, Admitted, RefusedForCapacity, Drain, After, Admissions, Answers;
    DrainKeys(first, n);
    GrantedIsAdmitted(c, After(c, map[], prefix), first.key, burst);
    AdmissionsAppend(c, map[], prefix, burst, first.key);
    assert calls[..k] == prefix + burst[..n];
    AfterAppend(c, map[], prefix, burst[..n]);
    assert calls[k] == burst[n] && calls[0] == prefix[0];
  }

  /** The whole run: at `at` the bucket of `a` is swept, and its owner comes back at the oldest reading possible. */
  ghost function LagRun<K>(a: K, b: K, lag: nat, at: int, n: nat): seq<Call<K>> {
    LagPrefix(a, b, lag, at, n) + Drain(Call(a, Max(lag, at) - lag, {}), n)
  }

  lemma LagRunKeys<K>(a: K, b: K, lag: nat, at: int, n: nat)
    ensures |LagRun(a, b, lag, at, n)| == 2 * n + 4
    ensures forall call <- LagRun(a, b, lag, at, n) :: call.key in {a, b}
  {
    BurstKeys(a, lag, n);
    BurstKeys(a, Max(lag, at) - lag, n);
  }

  lemma LagRunBreaksBound<K>(c: Config, a: K, b: K, lag: nat, n: nat)
    requires c.Valid() && c.maxBuckets >= 2 && a != b
    requires c.full == Cost(c, n + 1) && c.idleTTL + 1 < c.full + 2 * lag
    ensures
      var run := LagRun(a, b, lag, c.idleTTL + 1, n);
      && Window(run, a) && Legal(c, map[], run) && Lagging(lag, lag, run)
      && Admissions(c, map[], run, a) * c.refill > c.full + Elapsed(c, map[], lag, lag, run)
  {
    var at := c.idleTTL + 1;
    var prefix, again := LagPrefix(a, b, lag, at, n), Call(a, Max(lag, at) - lag, {});
    assert prefix[0] == Call(a, lag, {}) by {
      assert Drain(Call(a, lag, {}), n)[0] == Call(a, lag, {});
    }
    LagEvicts(c, a, b, lag, at, n);
    LagPrefixAdmits(c, a, b, lag, at, n);
    BurstEndsWindow(c, lag, lag, prefix, again, n);
    TwiceFull(c, Admissions(c, map[], LagRun(a, b, lag, at, n), a), n);
  }

  lemma TwiceFull(c: Config, admissions: nat, n: nat)
    requires c.Valid() && c.full == Cost(c, n + 1) && admissions >= 2 * (n + 1)
    ensures admissions * c.refill >= 2 * c.full
  {
    CostIsProduct(c, n + 1);
    assert admissions * c.refill >= (2 * (n + 1)) * c.refill == 2 * ((n + 1) * c.refill);
  }

  lemma WindowBreaksBound<K(!new)>(c: Config, lag: nat, start: int, calls: seq<Call<K>>, key: K)
    requires Window(calls, key) && Legal(c, map[], calls) && Lagging(lag, start, calls)
    requires Admissions(c, map[], calls, key) * c.refill > c.full + Elapsed(c, map[], start, lag, calls)
    ensures !AdmissionBounded<K>(c, lag)
  {
    var none: seq<Call<K>> := [];
    assert none + calls == calls;
    assert !WithinBound(c, lag, none, calls, key, start);
  }

  /**
   Main result: on readings that lag by at most `lag`, every window of every run keeps the
   bound exactly when the idle TTL leaves room for that lag twice.
   */
  lemma AdmissionBoundIff<K(!new)>(
      burst: nat, refill: int, idleTTL: nat, maxBuckets: nat, lag: nat, a: K, b: K)
    requires burst >= 1 && refill >= 1 && maxBuckets >= 2 && a != b
    ensures
      var c := NewConfig(burst, refill, idleTTL, maxBuckets);
      AdmissionBounded<K>(c, lag) <==> burst * refill + 2 * lag <= idleTTL + 1
  {
    var c := NewConfig(burst, refill, idleTTL, maxBuckets);
    FullBucketIsValid(burst, refill, idleTTL, maxBuckets);
    CostIsProduct(c, burst);
    if burst * refill + 2 * lag <= idleTTL + 1 {
      forall before: seq<Call<K>>, calls: seq<Call<K>>, key, start
        | Window(calls, key) && Legal(c, map[], before + calls) && Lagging(lag, start, before + calls)
        ensures WithinBound(c, lag, before, calls, key, start)
      {
        LaggingAdmissionBound(burst, refill, idleTTL, maxBuckets, lag, before, calls, key, start);
      }
    } else {
      LagRunBreaksBound(c, a, b, lag, burst - 1);
      WindowBreaksBound(c, lag, lag, LagRun(a, b, lag, c.idleTTL + 1, burst - 1), a);
    }
  }

  lemma FullBucketIsValid(burst: nat, refill: int, idleTTL: nat, maxBuckets: nat)
    requires burst >= 1 && refill >= 1
    ensures NewConfig(burst, refill, idleTTL, maxBuckets).Valid()
  {
  }
}
