/**
 The limiter's answers, said in terms of the calls and the earlier answers alone:
 a call is refused exactly when, since some earlier call by its key, more would have
 been granted than a full bucket and the time since then pay for.
 */
module LimiterAnswers {
  import opened Common
  import opened RateLimiter

  /** How many of the calls i, i + 1, ..., j - 1 are by `key` and granted. */
  ghost function Granted<K>(calls: seq<Call<K>>, answers: seq<bool>, key: K, i: nat, j: nat): nat
    requires i <= j <= |calls| && j <= |answers|
    decreases j - i
  {
    if i == j then 0 else
      Granted(calls, answers, key, i, j - 1) + (if calls[j - 1].key == key && answers[j - 1] then 1 else 0)
  }

  /** Granting call j would take more than a full bucket and the time since call i, both by one key, pay for. */
  ghost predicate Overdraws<K>(burst: nat, refill: int, calls: seq<Call<K>>, answers: seq<bool>, i: nat, j: nat)
    requires i <= j < |calls| && j <= |answers|
  {
    && calls[i].key == calls[j].key
    && burst * refill + calls[j].now - calls[i].now < (Granted(calls, answers, calls[j].key, i, j) + 1) * refill
  }

  /** A call is granted unless it overdraws, counted from some call before it or from itself. */
  ghost predicate Fair<K>(burst: nat, refill: int, calls: seq<Call<K>>, answers: seq<bool>) {
    && |answers| == |calls|
    && forall j | 0 <= j < |calls| ::
         answers[j] <==> forall i | 0 <= i <= j :: !Overdraws(burst, refill, calls, answers, i, j)
  }

  // ------------------------------------------------------ looking at prefixes

  lemma {:induction false} GrantedSees<K>(
      calls: seq<Call<K>>, answers: seq<bool>, more: seq<Call<K>>, others: seq<bool>, key: K, i: nat, j: nat)
    requires i <= j <= |calls| && j <= |answers|
    requires j <= |more| && j <= |others| && calls[..j] == more[..j] && answers[..j] == others[..j]
    ensures Granted(calls, answers, key, i, j) == Granted(more, others, key, i, j)
    decreases j - i
  {
    if i < j {
      assert calls[j - 1] == calls[..j][j - 1] == more[j - 1] && answers[j - 1] == answers[..j][j - 1] == others[j - 1];
      assert calls[..j - 1] == calls[..j][..j - 1] && more[..j - 1] == more[..j][..j - 1];
      assert answers[..j - 1] == answers[..j][..j - 1] && others[..j - 1] == others[..j][..j - 1];
      GrantedSees(calls, answers, more, others, key, i, j - 1);
    }
  }

  /** Fair answers are settled one by one, so there is only one way to answer fairly. */
  lemma {:induction false} FairIsUnique<K>(
      burst: nat, refill: int, calls: seq<Call<K>>, a: seq<bool>, b: seq<bool>, n: nat)
    requires Fair(burst, refill, calls, a) && Fair(burst, refill, calls, b) && n <= |calls|
    ensures a[..n] == b[..n]
    decreases n
  {
    if n > 0 {
      var j := n - 1;
      FairIsUnique(burst, refill, calls, a, b, j);
      forall i | 0 <= i <= j
        ensures Overdraws(burst, refill, calls, a, i, j) <==> Overdraws(burst, refill, calls, b, i, j)
      {
        GrantedSees(calls, a, calls, b, calls[j].key, i, j);
      }
      assert a[..n] == a[..j] + [a[j]] && b[..n] == b[..j] + [b[j]];
    }
  }

  // -------------------------------------------------------- the reference limiter

  /** What the bucket of `key` holds after some calls: the least of what each call by its key allows. */
  ghost predicate Holds<K>(c: Config, calls: seq<Call<K>>, answers: seq<bool>, key: K, b: Option<Bucket>)
    requires |answers| == |calls|
  {
    var n := |calls|;
    match b
    case None => forall i | 0 <= i < n :: calls[i].key != key
    case Some(b) =>
      && (forall i | 0 <= i < n && calls[i].key == key ::
            b.credit - b.last <= c.full - calls[i].now - Cost(c, Granted(calls, answers, key, i, n)))
      && (exists i :: 0 <= i < n && calls[i].key == key
            && b.credit - b.last == c.full - calls[i].now - Cost(c, Granted(calls, answers, key, i, n)))
  }

  /** One more call: what is granted since an earlier one, and since this one. */
  lemma GrantedGrows<K>(calls: seq<Call<K>>, answers: seq<bool>, call: Call<K>, answer: bool, key: K, i: nat)
    requires |answers| == |calls| && i <= |calls|
    ensures
      var n, more, others := |calls|, calls + [call], answers + [answer];
      Granted(more, others, key, i, n + 1)
      == Granted(calls, answers, key, i, n) + (if call.key == key && answer then 1 else 0)
  {
    var n, more, others := |calls|, calls + [call], answers + [answer];
    assert more[..n] == calls[..n] && others[..n] == answers[..n];
    GrantedSees(calls, answers, more, others, key, i, n);
  }

  lemma OtherKeyHolds<K>(c: Config, calls: seq<Call<K>>, answers: seq<bool>, key: K, b: Option<Bucket>,
                         call: Call<K>, answer: bool)
    requires |answers| == |calls| && Holds(c, calls, answers, key, b) && call.key != key
    ensures Holds(c, calls + [call], answers + [answer], key, b)
  {
    var n := |calls|;
    forall i | 0 <= i < n
      ensures Granted(calls + [call], answers + [answer], key, i, n + 1) == Granted(calls, answers, key, i, n)
      ensures (calls + [call])[i] == calls[i]
    {
      GrantedGrows(calls, answers, call, answer, key, i);
    }
    if b.Some? {
      var i :| 0 <= i < |calls| && calls[i].key == key
        && b.value.credit - b.value.last == c.full - calls[i].now - Cost(c, Granted(calls, answers, key, i, |calls|));
      assert (calls + [call])[i].key == key;
    }
  }

  /** The least allowance decides, and the bucket goes on holding it. */
  lemma SpendHolds<K>(c: Config, calls: seq<Call<K>>, answers: seq<bool>, b: Option<Bucket>, call: Call<K>)
    requires c.Valid() && |answers| == |calls| && Holds(c, calls, answers, call.key, b)
    ensures
      var s := Spend(c, b, call.now);
      Holds(c, calls + [call], answers + [s.1], call.key, Some(s.0))
  {
    var s, n, key := Spend(c, b, call.now), |calls|, call.key;
    var more, others := calls + [call], answers + [s.1];
    forall i | 0 <= i <= n
      ensures Granted(more, others, key, i, n + 1) == Granted(calls, answers, key, i, n) + (if s.1 then 1 else 0)
      ensures Cost(c, Granted(more, others, key, i, n + 1))
           == Cost(c, Granted(calls, answers, key, i, n)) + (if s.1 then c.refill else 0)
    {
      GrantedGrows(calls, answers, call, s.1, key, i);
    }
    assert Granted(calls, answers, key, n, n) == 0 && Cost(c, 0) == 0;
    assert more[n] == call && forall i | 0 <= i < n :: more[i] == calls[i];
    var spent := s.0.credit - s.0.last;
    var mine := c.full - call.now - Cost(c, Granted(more, others, key, n, n + 1));
    if b.None? {
      assert spent == mine;
    } else {
      var i :| 0 <= i < n && calls[i].key == key
        && b.value.credit - b.value.last == c.full - calls[i].now - Cost(c, Granted(calls, answers, key, i, n));
      assert more[i].key == key;
      var theirs := c.full - more[i].now - Cost(c, Granted(more, others, key, i, n + 1));
      assert spent == Min(mine, theirs);
    }
  }

  /** And a call is refused exactly when some allowance is less than a token. */
  lemma SpendRefusesIff<K>(burst: nat, refill: int, c: Config, calls: seq<Call<K>>, answers: seq<bool>,
                           b: Option<Bucket>, call: Call<K>)
    requires burst >= 1 && refill >= 1 && c.full == burst * refill && c.refill == refill
    requires |answers| == |calls| && Holds(c, calls, answers, call.key, b)
    ensures
      var n, more := |calls|, calls + [call];
      Spend(c, b, call.now).1 <==> forall i | 0 <= i <= n :: !Overdraws(burst, refill, more, answers, i, n)
  {
    var n, more, key := |calls|, calls + [call], call.key;
    forall i | 0 <= i <= n
      ensures Overdraws(burst, refill, more, answers, i, n) <==>
                more[i].key == key
                && c.full + call.now - more[i].now < Cost(c, Granted(calls, answers, key, i, n)) + refill
    {
      GrantedSees(calls, answers, more, answers, key, i, n);
      CostIsProduct(c, Granted(calls, answers, key, i, n));
      OneMoreToken(Granted(calls, answers, key, i, n), refill);
    }
    assert Granted(calls, answers, key, n, n) == 0 && Cost(c, 0) == 0;
    assert more[n] == call && forall i | 0 <= i < n :: more[i] == calls[i];
    assert c.full >= refill;
    assert !Overdraws(burst, refill, more, answers, n, n);
    if b.Some? {
      var i :| 0 <= i < n && calls[i].key == key
        && b.value.credit - b.value.last == c.full - calls[i].now - Cost(c, Granted(calls, answers, key, i, n));
      assert more[i].key == key;
    }
  }

  /** Main result: the reference limiter answers fairly, whatever order its clock is read in. */
  lemma ReferenceIsFair<K(!new)>(burst: nat, refill: int, idleTTL: nat, maxBuckets: nat, calls: seq<Call<K>>)
    requires burst >= 1 && refill >= 1
    ensures Fair(burst, refill, calls, ReferenceAnswers(NewConfig(burst, refill, idleTTL, maxBuckets), map[], calls))
  {
    FullBucketIsValid(burst, refill, idleTTL, maxBuckets);
    ReferenceRunsFair(burst, refill, NewConfig(burst, refill, idleTTL, maxBuckets), calls);
  }

  /** Every bucket holds what the calls so far allow. */
  ghost predicate AllHold<K(!new)>(c: Config, calls: seq<Call<K>>, answers: seq<bool>, u: Buckets<K>) {
    |answers| == |calls| && forall key :: BucketHolds(c, calls, answers, u, key)
  }

  ghost predicate BucketHolds<K>(c: Config, calls: seq<Call<K>>, answers: seq<bool>, u: Buckets<K>, key: K)
    requires |answers| == |calls|
  {
    Holds(c, calls, answers, key, Find(u, key))
  }

  lemma {:induction false} ReferenceRunsFair<K(!new)>(burst: nat, refill: int, c: Config, calls: seq<Call<K>>)
    requires burst >= 1 && refill >= 1 && c.Valid() && c.full == burst * refill && c.refill == refill
    ensures Fair(burst, refill, calls, ReferenceAnswers(c, map[], calls))
    ensures AllHold(c, calls, ReferenceAnswers(c, map[], calls), ReferenceAfter(c, map[], calls))
    decreases |calls|
  {
    if calls != [] {
      var n := |calls| - 1;
      var front, call := calls[..n], calls[n];
      var u, answers := ReferenceAfter(c, map[], front), ReferenceAnswers(c, map[], front);
      ReferenceRunsFair(burst, refill, c, front);
      assert calls == front + [call];
      LastAnswer(c, front, call);
      assert BucketHolds(c, front, answers, u, call.key);
      SpendRefusesIff(burst, refill, c, front, answers, Find(u, call.key), call);
      OneMoreIsFair(burst, refill, front, answers, call, Spend(c, Find(u, call.key), call.now).1);
      OneMoreHolds(c, front, answers, u, call);
    }
  }

  lemma LastAnswer<K>(c: Config, front: seq<Call<K>>, call: Call<K>)
    ensures
      var u, all := ReferenceAfter(c, map[], front), front + [call];
      var s := Spend(c, Find(u, call.key), call.now);
      && ReferenceAnswers(c, map[], all) == ReferenceAnswers(c, map[], front) + [s.1]
      && ReferenceAfter(c, map[], all) == u[call.key := s.0]
  {
    var none: seq<Call<K>> := [];
    var u := ReferenceAfter(c, map[], front);
    assert [call] + none == [call];
    ReferenceAppend(c, map[], front, [call]);
    ReferenceFirst(c, u, call, none);
  }

  lemma OneMoreIsFair<K>(burst: nat, refill: int, front: seq<Call<K>>, answers: seq<bool>, call: Call<K>, answer: bool)
    requires Fair(burst, refill, front, answers)
    requires answer <==> forall i | 0 <= i <= |front| :: !Overdraws(burst, refill, front + [call], answers, i, |front|)
    ensures Fair(burst, refill, front + [call], answers + [answer])
  {
    var n, all, others := |front|, front + [call], answers + [answer];
    forall i: nat, j: nat | i <= j < n
      ensures Overdraws(burst, refill, all, others, i, j) <==> Overdraws(burst, refill, front, answers, i, j)
    {
      assert all[..j] == front[..j] && others[..j] == answers[..j];
      GrantedSees(front, answers, all, others, front[j].key, i, j);
    }
    forall i | 0 <= i <= n
      ensures Overdraws(burst, refill, all, others, i, n) <==> Overdraws(burst, refill, all, answers, i, n)
    {
      assert others[..n] == answers[..n];
      GrantedSees(all, answers, all, others, call.key, i, n);
    }
  }

  lemma OneMoreHolds<K(!new)>(c: Config, front: seq<Call<K>>, answers: seq<bool>, u: Buckets<K>, call: Call<K>)
    requires c.Valid() && AllHold(c, front, answers, u)
    ensures
      var s := Spend(c, Find(u, call.key), call.now);
      AllHold(c, front + [call], answers + [s.1], u[call.key := s.0])
  {
    var s := Spend(c, Find(u, call.key), call.now);
    var all, others, after := front + [call], answers + [s.1], u[call.key := s.0];
    forall key ensures BucketHolds(c, all, others, after, key) {
      assert BucketHolds(c, front, answers, u, key);
      if key == call.key {
        SpendHolds(c, front, answers, Find(u, key), call);
      } else {
        OtherKeyHolds(c, front, answers, key, Find(u, key), call, s.1);
      }
    }
  }

  // ---------------------------------------------------------- the bounded limiter

  /** On readings that lag at most so much, the calls that the limiter hears are answered fairly. */
  ghost predicate AnswersFairly<K(!new)>(burst: nat, refill: int, c: Config, lag: nat) {
    forall calls: seq<Call<K>>, start: int | Legal(c, map[], calls) && Lagging(lag, start, calls) ::
      Fair(burst, refill, Heard(c, map[], calls), Answers(c, map[], calls))
  }

  /** Main result: so does the bounded limiter, evictions and all, exactly when nobody can see them. */
  lemma AnswersFairlyIff<K(!new)>(
      burst: nat, refill: int, idleTTL: nat, maxBuckets: nat, lag: nat, a: K, b: K)
    requires burst >= 1 && refill >= 1 && maxBuckets >= 2 && a != b
    ensures
      var c := NewConfig(burst, refill, idleTTL, maxBuckets);
      AnswersFairly<K>(burst, refill, c, lag) <==> burst * refill + 2 * lag <= idleTTL + 1
  {
    var c := NewConfig(burst, refill, idleTTL, maxBuckets);
    LaggingEvictionIff(burst, refill, idleTTL, maxBuckets, lag, a, b);
    FairIffUnobservable<K>(burst, refill, idleTTL, maxBuckets, lag);
  }

  lemma FairIffUnobservable<K(!new)>(burst: nat, refill: int, idleTTL: nat, maxBuckets: nat, lag: nat)
    requires burst >= 1 && refill >= 1
    ensures
      var c := NewConfig(burst, refill, idleTTL, maxBuckets);
      AnswersFairly<K>(burst, refill, c, lag) <==> EvictionUnobservable<K>(c, lag)
  {
    var c := NewConfig(burst, refill, idleTTL, maxBuckets);
    forall calls: seq<Call<K>>
      ensures Fair(burst, refill, Heard(c, map[], calls), Answers(c, map[], calls)) <==>
                Answers(c, map[], calls) == ReferenceAnswers(c, map[], Heard(c, map[], calls))
    {
      FairIffReference(burst, refill, idleTTL, maxBuckets, Heard(c, map[], calls), Answers(c, map[], calls));
    }
  }

  lemma FairIffReference<K(!new)>(burst: nat, refill: int, idleTTL: nat, maxBuckets: nat,
                                  calls: seq<Call<K>>, answers: seq<bool>)
    requires burst >= 1 && refill >= 1
    ensures Fair(burst, refill, calls, answers) <==>
              answers == ReferenceAnswers(NewConfig(burst, refill, idleTTL, maxBuckets), map[], calls)
  {
    var other := ReferenceAnswers(NewConfig(burst, refill, idleTTL, maxBuckets), map[], calls);
    ReferenceIsFair(burst, refill, idleTTL, maxBuckets, calls);
    if Fair(burst, refill, calls, answers) {
      FairIsUnique(burst, refill, calls, answers, other, |calls|);
      assert answers[..|calls|] == answers && other[..|calls|] == other;
    }
  }

  // ------------------------------------------------------------- steady clients

  /** Calls by `key` are at least a refill interval apart. */
  ghost predicate Spaced<K>(refill: int, calls: seq<Call<K>>, key: K) {
    forall i, j | 0 <= i < j < |calls| && calls[i].key == key == calls[j].key :: calls[j].now >= calls[i].now + refill
  }

  lemma {:induction false} SpacedPays<K>(
      refill: int, calls: seq<Call<K>>, answers: seq<bool>, key: K, i: nat, j: nat, t: int)
    requires refill >= 1 && Spaced(refill, calls, key)
    requires i < j <= |calls| && |answers| == |calls| && calls[i].key == key
    requires forall k | i <= k < j && calls[k].key == key :: t >= calls[k].now + refill
    ensures Granted(calls, answers, key, i, j) * refill <= t - calls[i].now
    decreases j - i
  {
    var g := Granted(calls, answers, key, i, j - 1);
    OneMoreToken(g, refill);
    if j == i + 1 {
      assert g == 0;
    } else if calls[j - 1].key == key {
      SpacedPays(refill, calls, answers, key, i, j - 1, calls[j - 1].now);
    } else {
      SpacedPays(refill, calls, answers, key, i, j - 1, t);
    }
  }

  /** A client that asks no more often than a token comes back is never refused. */
  lemma SteadyClientIsServed<K>(burst: nat, refill: int, calls: seq<Call<K>>, answers: seq<bool>, j: nat)
    requires burst >= 1 && refill >= 1 && Fair(burst, refill, calls, answers) && j < |calls|
    requires Spaced(refill, calls, calls[j].key)
    ensures answers[j]
  {
    forall i | 0 <= i <= j ensures !Overdraws(burst, refill, calls, answers, i, j) {
      if calls[i].key == calls[j].key {
        if i < j {
          SpacedPays(refill, calls, answers, calls[j].key, i, j, calls[j].now);
        }
        var g := Granted(calls, answers, calls[j].key, i, j);
        OneMoreToken(g, refill);
        assert burst * refill >= refill;
      }
    }
  }
}
