/**
 How requests are mapped to buckets, and the two limiters POST /login is chained through.
 */
module LoginLimits {
  import opened RateLimiter
  import LimiterAnswers

  const SECOND := 1_000_000_000
  const IDLE_TTL := 600 * SECOND
  const MAX_BUCKETS := 65536

  // Per-client writes, the card image, and one login bucket per network.
  const WRITES := NewConfig(5, 20 * SECOND, IDLE_TTL, MAX_BUCKETS)
  const IMAGES := NewConfig(30, 5 * SECOND, IDLE_TTL, MAX_BUCKETS)
  const LOGINS := NewConfig(20, 10 * SECOND, IDLE_TTL, MAX_BUCKETS)

  /** How far readings may lag before eviction shows: the exact figures of the deployed limiters. */
  lemma DeployedLimitersHideEviction(lag: nat)
    ensures EvictionUnobservable<Key>(WRITES, lag) <==> lag <= 250 * SECOND
    ensures EvictionUnobservable<Key>(IMAGES, lag) <==> lag <= 225 * SECOND
    ensures EvictionUnobservable<Key>(LOGINS, lag) <==> lag <= 200 * SECOND
  {
    var a, b := Host(0), Host(1);
    LaggingEvictionIff(5, 20 * SECOND, IDLE_TTL, MAX_BUCKETS, lag, a, b);
    LaggingEvictionIff(30, 5 * SECOND, IDLE_TTL, MAX_BUCKETS, lag, a, b);
    LaggingEvictionIff(20, 10 * SECOND, IDLE_TTL, MAX_BUCKETS, lag, a, b);
  }

  /** Up to that lag, and no further, a call is refused exactly when it would overdraw its key's allowance. */
  lemma DeployedLimitersAnswerFairly(lag: nat)
    ensures LimiterAnswers.AnswersFairly<Key>(5, 20 * SECOND, WRITES, lag) <==> lag <= 250 * SECOND
    ensures LimiterAnswers.AnswersFairly<Key>(30, 5 * SECOND, IMAGES, lag) <==> lag <= 225 * SECOND
    ensures LimiterAnswers.AnswersFairly<Key>(20, 10 * SECOND, LOGINS, lag) <==> lag <= 200 * SECOND
  {
    var a, b := Host(0), Host(1);
    LimiterAnswers.AnswersFairlyIff(5, 20 * SECOND, IDLE_TTL, MAX_BUCKETS, lag, a, b);
    LimiterAnswers.AnswersFairlyIff(30, 5 * SECOND, IDLE_TTL, MAX_BUCKETS, lag, a, b);
    LimiterAnswers.AnswersFairlyIff(20, 10 * SECOND, IDLE_TTL, MAX_BUCKETS, lag, a, b);
  }

  // --------------------------------------------------------------------- keys

  const TWO_32 := 0x1_0000_0000
  const TWO_48 := 0x1_0000_0000_0000
  const TWO_64 := 0x1_0000_0000_0000_0000
  const TWO_80 := 0x1_0000_0000_0000_0000_0000
  const TWO_128 := 0x1_0000_0000_0000_0000_0000_0000_0000_0000

  type Word32 = n: int | 0 <= n < TWO_32
  type Word128 = n: int | 0 <= n < TWO_128

  /** The address a request is charged to; Unparsed is a peer whose text is not an address. */
  datatype Peer = Unparsed(text: string) | V4(v4: Word32) | V6(v6: Word128)

  /** Bucket keys; the program's strings name exactly these. */
  datatype Key = Raw(text: string) | Host(v4: int) | Block(bits: int, prefix: int)

  // ::ffff:a.b.c.d is the IPv4 address a.b.c.d.
  function Unmap(p: Peer): Peer {
    if p.V6? && p.v6 / TWO_32 == 0xFFFF then V4(p.v6 % TWO_32) else p
  }

  function Key64(p: Peer): Key {
    match Unmap(p)
    case Unparsed(text) => Raw(text)
    case V4(a) => Host(a)
    case V6(a) => Block(64, a / TWO_64)
  }

  function Key48(p: Peer): Key {
    match Unmap(p)
    case Unparsed(text) => Raw(text)
    case V4(a) => Host(a)
    case V6(a) => Block(48, a / TWO_80)
  }

  /** A client never straddles two networks: the fine key determines the coarse one. */
  lemma ClientLiesInOneNetwork(p: Peer, q: Peer)
    requires Key64(p) == Key64(q)
    ensures Key48(p) == Key48(q)
  {
    var a, b := Unmap(p), Unmap(q);
    if a.V6? {
      assert a.v6 / TWO_80 == (a.v6 / TWO_64) / 65536;
      assert b.v6 / TWO_80 == (b.v6 / TWO_64) / 65536;
    }
  }

  /** Not an IPv4 address in IPv6 form, ::ffff:a.b.c.d. */
  predicate Native(a: Word128) {
    a < 0xFFFF * TWO_32 || a >= 0x1_0000 * TWO_32
  }

  /** An IPv4 address is its own client and its own network, in either form. */
  lemma HostsStandAlone(a: Word32, b: Word32)
    ensures Key64(V4(a)) == Key64(V4(b)) <==> a == b
    ensures Key48(V4(a)) == Key48(V4(b)) <==> a == b
    ensures Key64(V6(0xFFFF * TWO_32 + a)) == Key64(V4(a)) && Key48(V6(0xFFFF * TWO_32 + a)) == Key48(V4(a))
  {
    assert (0xFFFF * TWO_32 + a) / TWO_32 == 0xFFFF && (0xFFFF * TWO_32 + a) % TWO_32 == a;
  }

  /** Two IPv6 addresses are one client when their first 64 bits agree, and one network when their first 48 do. */
  lemma BlocksAreShared(a: Word128, b: Word128)
    requires Native(a) && Native(b)
    ensures Key64(V6(a)) == Key64(V6(b)) <==> a / TWO_64 == b / TWO_64
    ensures Key48(V6(a)) == Key48(V6(b)) <==> a / TWO_80 == b / TWO_80
  {
    NativeStaysV6(a);
    NativeStaysV6(b);
  }

  lemma NativeStaysV6(a: Word128)
    requires Native(a)
    ensures Unmap(V6(a)) == V6(a)
  {
  }

  /** Addresses of different kinds, and peers that are none, never share a bucket. */
  lemma KindsStandApart(host: Word32, a: Word128, text: string, other: string)
    requires Native(a)
    ensures Key64(V4(host)) != Key64(V6(a)) && Key48(V4(host)) != Key48(V6(a))
    ensures Key64(Unparsed(text)) !in {Key64(V4(host)), Key64(V6(a))}
    ensures Key48(Unparsed(text)) !in {Key48(V4(host)), Key48(V6(a))}
    ensures Key64(Unparsed(text)) == Key64(Unparsed(other)) <==> text == other
    ensures Key48(Unparsed(text)) == Key48(Unparsed(other)) <==> text == other
  {
    NativeStaysV6(a);
  }

  // -------------------------------------------------------- the chained limiters

  /**
   Requests take the first limiter's lock as they come. A login that it admits goes on
   to the second one, whose lock it may take much later and after logins that came later.
   */
  datatype Event =
    | Enter(id: nat, login: bool, peer: Peer, now: int, dropped: set<Key>)
    | Cross(id: nat, now: int, dropped: set<Key>)

  /** `waiting` are the logins between the two limiters. */
  datatype Chain = Chain(first: Buckets<Key>, second: Buckets<Key>, waiting: map<nat, Peer>)

  const START := Chain(map[], map[], map[])

  predicate Enabled(s: Chain, e: Event) {
    match e
    case Enter(id, _, _, _, _) => id !in s.waiting
    case Cross(id, _, _) => id in s.waiting
  }

  /** The call that an event makes at the limiter whose lock it takes. */
  ghost function CallOf(s: Chain, e: Event): Call<Key>
    requires Enabled(s, e)
  {
    match e
    case Enter(_, _, peer, now, dropped) => Call(Key64(peer), now, dropped)
    case Cross(id, now, dropped) => Call(Key48(s.waiting[id]), now, dropped)
  }

  ghost function Apply(c: Config, c48: Config, s: Chain, e: Event): Chain
    requires Enabled(s, e)
  {
    var call := CallOf(s, e);
    match e
    case Enter(id, login, peer, _, _) =>
      var waiting := if login && Admitted(c, s.first, call) then s.waiting[id := peer] else s.waiting;
      s.(first := Next(c, s.first, call), waiting := waiting)
    case Cross(id, _, _) =>
      s.(second := Next(c48, s.second, call), waiting := s.waiting - {id})
  }

  ghost predicate Possible(c: Config, c48: Config, s: Chain, events: seq<Event>)
    decreases |events|
  {
    events == [] || (Enabled(s, events[0]) && Possible(c, c48, Apply(c, c48, s, events[0]), events[1..]))
  }

  ghost function AfterEvents(c: Config, c48: Config, s: Chain, events: seq<Event>): Chain
    requires Possible(c, c48, s, events)
    decreases |events|
  {
    if events == [] then s else AfterEvents(c, c48, Apply(c, c48, s, events[0]), events[1..])
  }

  /** The calls that the second limiter gets to see, in its own lock order. */
  ghost function Seen(c: Config, c48: Config, s: Chain, events: seq<Event>): seq<Call<Key>>
    requires Possible(c, c48, s, events)
    decreases |events|
  {
    if events == [] then [] else
      var later := Seen(c, c48, Apply(c, c48, s, events[0]), events[1..]);
      if events[0].Cross? then [CallOf(s, events[0])] + later else later
  }

  /** How many logins of one network get through both limiters. */
  ghost function Passed(c: Config, c48: Config, s: Chain, events: seq<Event>, network: Key): nat
    requires Possible(c, c48, s, events)
    decreases |events|
  {
    if events == [] then 0 else
      var call := CallOf(s, events[0]);
      var later := Passed(c, c48, Apply(c, c48, s, events[0]), events[1..], network);
      if events[0].Cross? && call.key == network && Admitted(c48, s.second, call) then later + 1 else later
  }

  lemma {:induction false} PassedIsAdmissions(c: Config, c48: Config, s: Chain, events: seq<Event>, network: Key)
    requires Possible(c, c48, s, events)
    ensures Passed(c, c48, s, events, network) == Admissions(c48, s.second, Seen(c, c48, s, events), network)
    ensures AfterEvents(c, c48, s, events).second == After(c48, s.second, Seen(c, c48, s, events))
    decreases |events|
  {
    if events != [] {
      hide Next, Admitted, CallOf;
      var later := Seen(c, c48, Apply(c, c48, s, events[0]), events[1..]);
      PassedIsAdmissions(c, c48, Apply(c, c48, s, events[0]), events[1..], network);
      if events[0].Cross? {
        assert ([CallOf(s, events[0])] + later)[1..] == later;
      }
    }
  }

  lemma Uncons<T>(s: seq<T>)
    requires s != []
    ensures s == [s[0]] + s[1..]
  {
  }

  lemma NilAppend<T>(s: seq<T>)
    ensures [] + s == s
  {
  }

  /** The logins of a client that the first limiter admits. */
  ghost function Arrivals(c: Config, c48: Config, s: Chain, events: seq<Event>, client: Key): nat
    requires Possible(c, c48, s, events)
    decreases |events|
  {
    if events == [] then 0 else
      var e, later := events[0], Arrivals(c, c48, Apply(c, c48, s, events[0]), events[1..], client);
      if e.Enter? && e.login && Key64(e.peer) == client && Admitted(c, s.first, CallOf(s, e)) then later + 1 else later
  }

  /** The logins of a client that take the second limiter's lock. */
  ghost function Crossings(c: Config, c48: Config, s: Chain, events: seq<Event>, client: Key): nat
    requires Possible(c, c48, s, events)
    decreases |events|
  {
    if events == [] then 0 else
      var e, later := events[0], Crossings(c, c48, Apply(c, c48, s, events[0]), events[1..], client);
      if e.Cross? && Key64(s.waiting[e.id]) == client then later + 1 else later
  }

  /** The client's logins between the two limiters. */
  ghost function Between(waiting: map<nat, Peer>, client: Key): set<nat> {
    set id | id in waiting && Key64(waiting[id]) == client
  }

  lemma BetweenGrows(waiting: map<nat, Peer>, client: Key, id: nat, peer: Peer)
    requires id !in waiting
    ensures Between(waiting[id := peer], client) == Between(waiting, client) + Mine(peer, client, id)
  {
    hide Key64;
  }

  lemma BetweenShrinks(waiting: map<nat, Peer>, client: Key, id: nat)
    requires id in waiting
    ensures Between(waiting, client) == Between(waiting - {id}, client) + Mine(waiting[id], client, id)
  {
    hide Key64;
  }

  ghost function Mine(peer: Peer, client: Key, id: nat): set<nat> {
    if Key64(peer) == client then {id} else {}
  }

  lemma NotBetween(waiting: map<nat, Peer>, client: Key, id: nat)
    requires id !in waiting
    ensures id !in Between(waiting, client)
  {
    hide Key64;
  }

  lemma BetweenChanges(waiting: map<nat, Peer>, client: Key, id: nat, peer: Peer)
    ensures id !in waiting ==>
              |Between(waiting[id := peer], client)|
              == |Between(waiting, client)| + if Key64(peer) == client then 1 else 0
    ensures id in waiting ==>
              |Between(waiting, client)|
              == |Between(waiting - {id}, client)| + if Key64(waiting[id]) == client then 1 else 0
  {
    hide Key64, Between;
    if id !in waiting {
      BetweenGrows(waiting, client, id, peer);
      NotBetween(waiting, client, id);
    } else {
      BetweenShrinks(waiting, client, id);
      NotBetween(waiting - {id}, client, id);
    }
  }

  /** Logins are conserved: of each client's, those and only those that the first limiter admits go on to the second. */
  lemma {:induction false} LoginsConserved(c: Config, c48: Config, s: Chain, events: seq<Event>, client: Key)
    requires Possible(c, c48, s, events)
    ensures Crossings(c, c48, s, events, client) + |Between(AfterEvents(c, c48, s, events).waiting, client)|
         == |Between(s.waiting, client)| + Arrivals(c, c48, s, events, client)
    decreases |events|
  {
    if events != [] {
      hide Between, Key64, Key48, Next, Admitted;
      var e := events[0];
      LoginsConserved(c, c48, Apply(c, c48, s, e), events[1..], client);
      BetweenChanges(s.waiting, client, e.id, if e.Enter? then e.peer else s.waiting[e.id]);
    }
  }

  /** An event and what comes after it. */
  lemma EventsFirst(c: Config, c48: Config, s: Chain, e: Event, rest: seq<Event>)
    ensures Possible(c, c48, s, [e] + rest) <==> Enabled(s, e) && Possible(c, c48, Apply(c, c48, s, e), rest)
    ensures Possible(c, c48, s, [e] + rest) ==>
      var s', all := Apply(c, c48, s, e), [e] + rest;
      && AfterEvents(c, c48, s, all) == AfterEvents(c, c48, s', rest)
      && Seen(c, c48, s, all) == (if e.Cross? then [CallOf(s, e)] else []) + Seen(c, c48, s', rest)
  {
    hide Enabled, CallOf, Apply;
    var all := [e] + rest;
    assert all[0] == e && all[1..] == rest;
  }

  lemma {:induction false} EventsAppend(c: Config, c48: Config, s: Chain, xs: seq<Event>, ys: seq<Event>)
    requires Possible(c, c48, s, xs + ys)
    ensures Possible(c, c48, s, xs) && Possible(c, c48, AfterEvents(c, c48, s, xs), ys)
    ensures Seen(c, c48, s, xs + ys) == Seen(c, c48, s, xs) + Seen(c, c48, AfterEvents(c, c48, s, xs), ys)
    decreases |xs|
  {
    if xs == [] {
      assert xs + ys == ys;
    } else {
      hide *;
      var e, rest := xs[0], xs[1..];
      Uncons(xs);
      ConsAppend(e, rest, ys);
      EventsFirst(c, c48, s, e, rest + ys);
      EventsFirst(c, c48, s, e, rest);
      var s' := Apply(c, c48, s, e);
      EventsAppend(c, c48, s', rest, ys);
      if e.Cross? {
        ConsAppend(CallOf(s, e), Seen(c, c48, s', rest), Seen(c, c48, AfterEvents(c, c48, s', rest), ys));
      } else {
        NilAppend(Seen(c, c48, s', rest));
        NilAppend(Seen(c, c48, s', rest + ys));
      }
    }
  }

  lemma NetworkWindowBound(before: seq<Call<Key>>, window: seq<Call<Key>>, network: Key, lag: nat, start: int)
    requires lag <= 200 * SECOND
    requires Legal(LOGINS, map[], before + window) && Lagging(lag, start, before + window)
    requires Window(window, network)
    ensures
      var m := After(LOGINS, map[], before);
      Admissions(LOGINS, m, window, network) * (10 * SECOND)
      <= 20 * (10 * SECOND) + Elapsed(LOGINS, m, Latest(start, before), lag, window)
  {
    LaggingAdmissionBound(20, 10 * SECOND, IDLE_TTL, MAX_BUCKETS, lag, before, window, network, start);
  }

  /**
   Main result: however a network splits its logins over clients, whatever the first
   limiter is, whatever else those clients do, and in whatever order logins cross to the
   second limiter, the network gets at most 20 + elapsed / 10 s of them through in any
   window, while readings lag by at most 200 s.
   */
  lemma NetworkLoginBound(c: Config, before: seq<Event>, events: seq<Event>, network: Key, lag: nat, start: int)
    requires lag <= 200 * SECOND && Possible(c, LOGINS, START, before + events)
    requires
      var seen := Seen(c, LOGINS, START, before + events);
      Legal(LOGINS, map[], seen) && Lagging(lag, start, seen)
    requires Possible(c, LOGINS, START, before)
    requires
      var s := AfterEvents(c, LOGINS, START, before);
      Possible(c, LOGINS, s, events) && Window(Seen(c, LOGINS, s, events), network)
    ensures
      var s := AfterEvents(c, LOGINS, START, before);
      var t := Latest(start, Seen(c, LOGINS, START, before));
      Passed(c, LOGINS, s, events, network) * (10 * SECOND)
      <= 20 * (10 * SECOND) + Elapsed(LOGINS, s.second, t, lag, Seen(c, LOGINS, s, events))
  {
    assert START.second == map[];
    hide *;
    var s := AfterEvents(c, LOGINS, START, before);
    EventsAppend(c, LOGINS, START, before, events);
    PassedIsAdmissions(c, LOGINS, START, before, network);
    PassedIsAdmissions(c, LOGINS, s, events, network);
    NetworkWindowBound(Seen(c, LOGINS, START, before), Seen(c, LOGINS, s, events), network, lag, start);
  }

  // 200 s is exact: past it, some run lets a network through more often.

  /** The bound of one window of a run, with the events before it. */
  ghost predicate Bounded(c: Config, lag: nat, before: seq<Event>, events: seq<Event>, network: Key, start: int) {
    && Possible(c, LOGINS, START, before)
    && var s, t := AfterEvents(c, LOGINS, START, before), Latest(start, Seen(c, LOGINS, START, before));
       && Possible(c, LOGINS, s, events)
       && var seen := Seen(c, LOGINS, s, events);
          Window(seen, network) ==>
            Passed(c, LOGINS, s, events, network) * (10 * SECOND)
            <= 20 * (10 * SECOND) + Elapsed(LOGINS, s.second, t, lag, seen)
  }

  /** What the second limiter sees is a run of its own, and its readings lag by at most `lag`. */
  ghost predicate Runs(c: Config, lag: nat, events: seq<Event>, start: int) {
    && Possible(c, LOGINS, START, events)
    && var seen := Seen(c, LOGINS, START, events);
       Legal(LOGINS, map[], seen) && Lagging(lag, start, seen)
  }

  ghost predicate NetworkBounded(c: Config, lag: nat) {
    forall before: seq<Event>, events: seq<Event>, network, start | Runs(c, lag, before + events, start) ::
      Bounded(c, lag, before, events, network, start)
  }

  /** Clients of two networks: each request comes from a client of its own. */
  function Client(network: Key, id: nat): Peer
    requires id < 65536
  {
    V6((if network == Block(48, 0) then id else 65536 + id) * TWO_64)
  }

  lemma ClientKeys(network: Key, id: nat)
    requires network in {Block(48, 0), Block(48, 1)} && id < 65536
    ensures Key48(Client(network, id)) == network
    ensures Key64(Client(network, id)) == Block(64, if network == Block(48, 0) then id else 65536 + id)
  {
    var prefix := if network == Block(48, 0) then id else 65536 + id;
    assert (prefix * TWO_64) / TWO_32 == prefix * TWO_32;
    assert (prefix * TWO_64) / TWO_64 == prefix;
    assert (prefix * TWO_64) / TWO_80 == prefix / 65536;
  }

  /** Logins that make the given calls at the second limiter, one after the other. */
  ghost function Logins(calls: seq<Call<Key>>, id: nat): seq<Event>
    requires id + |calls| <= 65536
  {
    if calls == [] then [] else
      [Enter(id, true, Client(calls[0].key, id), 0, {}), Cross(id, calls[0].now, calls[0].dropped)]
      + Logins(calls[1..], id + 1)
  }

  /** The first limiter has seen the clients up to `id`. */
  ghost predicate Served(first: Buckets<Key>, id: nat) {
    |first| <= id && forall key <- first :: key.Block? && key.prefix % 65536 < id
  }

  lemma NewKeyEnters(c: Config, first: Buckets<Key>, key: Key)
    requires key !in first && |first| < c.maxBuckets
    ensures
      var call := Call(key, 0, {});
      Admitted(c, first, call) && Next(c, first, call).Keys == first.Keys + {key}
    ensures |Next(c, first, Call(key, 0, {}))| == |first| + 1
  {
    assert first - {} == first;
    var next := Next(c, first, Call(key, 0, {}));
    assert |next| == |next.Keys| && |first| == |first.Keys|;
  }

  lemma NewClientEnters(c: Config, first: Buckets<Key>, network: Key, id: nat)
    requires network in {Block(48, 0), Block(48, 1)} && id < 65536 && id < c.maxBuckets && Served(first, id)
    ensures
      var call := Call(Key64(Client(network, id)), 0, {});
      Admitted(c, first, call) && Served(Next(c, first, call), id + 1)
  {
    hide Client, Key64, Key48, Next, Admitted;
    ClientKeys(network, id);
    var key := Key64(Client(network, id));
    assert key.prefix % 65536 == id && key !in first;
    NewKeyEnters(c, first, key);
    assert forall k <- Next(c, first, Call(key, 0, {})) :: k in first || k == key;
  }

  lemma LoginTakesTwoSteps(c: Config, s: Chain, call: Call<Key>, id: nat, rest: seq<Event>)
    requires s.waiting == map[] && call.key in {Block(48, 0), Block(48, 1)} && id < 65536
    requires Admitted(c, s.first, Call(Key64(Client(call.key, id)), 0, {}))
    ensures
      var events := [Enter(id, true, Client(call.key, id), 0, {}), Cross(id, call.now, call.dropped)] + rest;
      var s' := Chain(Next(c, s.first, Call(Key64(Client(call.key, id)), 0, {})), Next(LOGINS, s.second, call), map[]);
      && (Possible(c, LOGINS, s', rest) ==>
            Possible(c, LOGINS, s, events) && Seen(c, LOGINS, s, events) == [call] + Seen(c, LOGINS, s', rest))
  {
    hide Next, Admitted, Key64, Key48, Client;
    ClientKeys(call.key, id);
    var enter, cross := Enter(id, true, Client(call.key, id), 0, {}), Cross(id, call.now, call.dropped);
    var events := [enter, cross] + rest;
    var s1 := Apply(c, LOGINS, s, enter);
    assert events[0] == enter && events[1..] == [cross] + rest;
    assert ([cross] + rest)[0] == cross && ([cross] + rest)[1..] == rest;
    assert s1.waiting - {id} == map[];
    assert CallOf(s1, cross) == call;
  }

  lemma LoginsUnfold(calls: seq<Call<Key>>, id: nat)
    requires calls != [] && id + |calls| <= 65536
    ensures
      var call := calls[0];
      && calls == [call] + calls[1..]
      && Logins(calls, id) == [Enter(id, true, Client(call.key, id), 0, {}), Cross(id, call.now, call.dropped)]
                            + Logins(calls[1..], id + 1)
  {
    hide Client;
  }

  lemma NoLogins(c: Config, s: Chain, id: nat)
    requires id <= 65536
    ensures
      var none: seq<Call<Key>> := [];
      Possible(c, LOGINS, s, Logins(none, id)) && Seen(c, LOGINS, s, Logins(none, id)) == none
  {
  }

  lemma {:induction false} LoginsAreSeen(c: Config, s: Chain, calls: seq<Call<Key>>, id: nat)
    requires id + |calls| <= 65536 && id + |calls| <= c.maxBuckets
    requires s.waiting == map[] && Served(s.first, id)
    requires forall call <- calls :: call.key in {Block(48, 0), Block(48, 1)}
    ensures Possible(c, LOGINS, s, Logins(calls, id)) && Seen(c, LOGINS, s, Logins(calls, id)) == calls
    decreases |calls|
  {
    hide *;
    if calls == [] {
      NoLogins(c, s, id);
    } else {
      var call := calls[0];
      var first := Next(c, s.first, Call(Key64(Client(call.key, id)), 0, {}));
      LoginsUnfold(calls, id);
      NewClientEnters(c, s.first, call.key, id);
      LoginsAreSeen(c, Chain(first, Next(LOGINS, s.second, call), map[]), calls[1..], id + 1);
      LoginTakesTwoSteps(c, s, call, id, Logins(calls[1..], id + 1));
    }
  }

  lemma LoginsBreakBound(c: Config, lag: nat, start: int, calls: seq<Call<Key>>, network: Key)
    requires |calls| <= 65536 && |calls| <= c.maxBuckets
    requires forall call <- calls :: call.key in {Block(48, 0), Block(48, 1)}
    requires Window(calls, network) && Legal(LOGINS, map[], calls) && Lagging(lag, start, calls)
    requires Admissions(LOGINS, map[], calls, network) * (10 * SECOND)
           > 20 * (10 * SECOND) + Elapsed(LOGINS, map[], start, lag, calls)
    ensures !NetworkBounded(c, lag)
  {
    hide Next, Admitted, Legal, Lagging, Elapsed, Admissions, Window, LOGINS;
    var none: seq<Event>, events := [], Logins(calls, 0);
    LoginsAreSeen(c, START, calls, 0);
    PassedIsAdmissions(c, LOGINS, START, events, network);
    assert none + events == events;
    assert Runs(c, lag, none + events, start);
    assert !Bounded(c, lag, none, events, network, start);
  }

  lemma RunIsBounded(c: Config, lag: nat, before: seq<Event>, events: seq<Event>, network: Key, start: int)
    requires lag <= 200 * SECOND && Runs(c, lag, before + events, start)
    ensures Bounded(c, lag, before, events, network, start)
  {
    hide Possible, Seen, Passed, AfterEvents, Elapsed, Legal, Lagging, Window, Latest, LOGINS;
    EventsAppend(c, LOGINS, START, before, events);
    if Window(Seen(c, LOGINS, AfterEvents(c, LOGINS, START, before), events), network) {
      NetworkLoginBound(c, before, events, network, lag, start);
    }
  }

  lemma RunsAreBounded(c: Config, lag: nat)
    requires lag <= 200 * SECOND
    ensures NetworkBounded(c, lag)
  {
    hide Runs, Bounded, Possible, AfterEvents, LOGINS;
    forall before: seq<Event>, events: seq<Event>, network, start | Runs(c, lag, before + events, start)
      ensures Bounded(c, lag, before, events, network, start)
    {
      RunIsBounded(c, lag, before, events, network, start);
    }
  }

  /** Main result: with any first limiter that has room for 42 clients, 200 s is the exact figure. */
  lemma NetworkLoginBoundIff(c: Config, lag: nat)
    requires c.maxBuckets >= 42
    ensures NetworkBounded(c, lag) <==> lag <= 200 * SECOND
    ensures AdmissionBounded<Key>(LOGINS, lag) <==> lag <= 200 * SECOND
  {
    hide NetworkBounded, AdmissionBounded, Window, Legal, Lagging, Admissions, Elapsed;
    AdmissionBoundIff(20, 10 * SECOND, IDLE_TTL, MAX_BUCKETS, lag, Block(48, 0), Block(48, 1));
    if lag <= 200 * SECOND {
      RunsAreBounded(c, lag);
    } else {
      CostIsProduct(LOGINS, 20);
      LagRunBreaksBound(LOGINS, Block(48, 0), Block(48, 1), lag, 19);
      LagRunKeys(Block(48, 0), Block(48, 1), lag, IDLE_TTL + 1, 19);
      LoginsBreakBound(c, lag, lag, LagRun(Block(48, 0), Block(48, 1), lag, IDLE_TTL + 1, 19), Block(48, 0));
    }
  }
}
