/**
 Runs of the account store, with a log of what happened: every link minted, every
 link spent, every account deleted, every handle released. Nothing in the log
 influences the store.
 */
module AccountWorld {
  import opened Common
  import opened AccountModel

  datatype Mint = Mint(email: string, at: int)

  datatype World = World(
    db: Db,
    mints: map<Hash, Mint>,        // every link ever minted
    erased: set<Hash>,             // links minted before their account was deleted
    last: map<string, Hash>,       // per address, the link minted last since then
    spends: seq<Hash>,             // links that completed a login, in order
    tokenPurge: Option<int>,       // the latest clock reading of a token purge
    linkPurges: map<Hash, int>,    // per link, the latest one since it was minted
    ids: set<Id>,                  // every account id ever given out
    released: map<string, int>,    // lower-case handle -> when its holder was last deleted
    handlePurges: map<string, int>,  // per released handle, the latest reading of a reservation purge since
    issued: map<Hash, Id>)         // every session ever issued

  const START := World(EMPTY, map[], {}, map[], [], None, map[], {}, map[], map[], map[])

  /** The latest reading for each key, now that there is one more for all of them. */
  function Touched<K>(keys: set<K>, latest: map<K, int>, now: int): map<K, int> {
    map k | k in keys :: if k in latest then Max(latest[k], now) else now
  }

  predicate SameAddress(email: string, other: string) {
    Lower(email) == Lower(other)
  }

  ghost function Erase(w: World, id: Id, now: int): World
    requires id in w.db.users
  {
    var u := w.db.users[id];
    w.(erased := w.erased + (set h | h in w.mints && SameAddress(w.mints[h].email, u.email)),
       last := map e | e in w.last && !SameAddress(e, u.email) :: w.last[e],
       released := if u.handle.Some? then w.released[Lower(u.handle.value) := now] else w.released,
       handlePurges := if u.handle.Some? then w.handlePurges - {Lower(u.handle.value)} else w.handlePurges)
  }

  /** The log entry of one transaction with answer `a`. */
  ghost function Record(w: World, op: Op, a: Answer): World {
    match op
    case RequestLogin(email, hash, now) =>
      if a.Minted? then w.(mints := w.mints[hash := Mint(email, now)], last := w.last[email := hash]) else w
    case CompleteLogin(hash, newId, now) =>
      if a.SignedIn? then w.(spends := w.spends + [hash], ids := w.ids + {a.id}) else w
    case Issue(id, hash, now) =>
      if a.Issued? then w.(issued := w.issued[hash := id]) else w
    case Delete(id, now) =>
      if id in w.db.users then Erase(w, id, now) else w
    case PurgeTokens(now) =>
      w.(tokenPurge := Later(w.tokenPurge, now), linkPurges := Touched(w.mints.Keys, w.linkPurges, now))
    case PurgeHandles(now) => w.(handlePurges := Touched(w.released.Keys, w.handlePurges, now))
    case _ => w
  }

  ghost function Next(c: Config, w: World, op: Op): World {
    var r := Step(c, w.db, op);
    Record(w, op, r.1).(db := r.0)
  }

  ghost function Run(c: Config, w: World, ops: seq<Op>): World
    decreases |ops|
  {
    if ops == [] then w else Run(c, Next(c, w, ops[0]), ops[1..])
  }

  /** Random tokens, session secrets and account ids never repeat. */
  predicate Fresh(w: World, op: Op) {
    && (op.RequestLogin? ==> op.hash !in w.mints)
    && (op.CompleteLogin? ==> op.newId !in w.ids)
    && (op.Issue? ==> op.hash !in w.issued)
  }

  ghost predicate FreshRun(c: Config, w: World, ops: seq<Op>)
    decreases |ops|
  {
    ops == [] || (Fresh(w, ops[0]) && FreshRun(c, Next(c, w, ops[0]), ops[1..]))
  }
}
