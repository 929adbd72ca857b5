/**
 The life of photo files across disk and database: uploads, removals and account
 deletions run concurrently, one step of one request at a time, and may crash
 between any two steps.
 */
module PhotoProtocol {
  import opened Common

  type Key = string
  type Id = nat
  type Req = nat

  // -------------------------------------------------- calendar days, at UTC-3

  const DAY := 86400
  const OFFSET := 3 * 3600

  function Day(t: int): int {
    (t - OFFSET) / DAY
  }

  /** Midnight of t's day. */
  function DayStart(t: int): int {
    Day(t) * DAY + OFFSET
  }

  lemma DayStartIsBoundary(t: int, u: int)
    ensures DayStart(t) <= t < DayStart(t) + DAY
    ensures u < DayStart(t) <==> Day(u) < Day(t)
  {
  }

  /** The day begins three hours after midnight UTC: the evening before still belongs to the day before. */
  lemma DayBeginsAtThree(k: int)
    ensures Day(k * DAY + 3 * 3600 - 1) == Day(k * DAY - 1) == k - 1
    ensures Day(k * DAY + 3 * 3600) == k
  {
  }

  // -------------------------------------------------------------------- state

  datatype Row = Row(photo: Option<Key>, uploadedAt: Option<int>, allowed: bool)

  /** The early check of the upload handler. */
  predicate UploadedPhotoOn(row: Row, now: int) {
    row.uploadedAt.Some? && Day(row.uploadedAt.value) == Day(now)
  }

  /** The condition of the statement that sets a photo. */
  predicate Accepts(row: Row, now: int) {
    row.allowed && (row.uploadedAt.None? || row.uploadedAt.value < DayStart(now))
  }

  /** Where a request is. Saving is Renamed then Saved: the directory is synced in between. */
  datatype Stage =
    | Waiting(id: Id, now: int)
    | Processing(id: Id, now: int)
    | Processed(id: Id, now: int)
    | Renamed(id: Id, now: int, key: Key)
    | Saved(id: Id, now: int, key: Key)
    | Removing(key: Key)
  {
    function Owns(): Option<Key> {
      if Renamed? || Saved? || Removing? then Some(key) else None
    }
  }

  /** Names in the directory; those certain to survive a power cut; and removed ones that might come back. */
  datatype Disk = Disk(files: set<Key>, synced: set<Key>, unlinked: set<Key>) {
    function Rename(key: Key): Disk {
      this.(files := files + {key})
    }

    function Sync(): Disk {
      Disk(files, files, {})
    }

    function Unlink(key: Key): Disk {
      Disk(files - {key}, synced - {key}, unlinked + {key})
    }

    /** Names that were never synced may be lost, removed ones may be back. */
    function PowerCut(kept: set<Key>, back: set<Key>): Disk {
      var left := files * (synced + kept) + unlinked * back;
      Disk(left, left, {})
    }
  }

  datatype Owner = ByRow(id: Id) | ByRequest(req: Req) | ByNobody

  datatype State = State(
    disk: Disk,
    rows: map<Id, Row>,
    inflight: map<Req, Stage>,
    slot: Option<Req>,
    // the log; nothing in it influences a step's outcome
    owner: map<Key, Owner>,
    leaked: set<Key>,
    usedKeys: set<Key>,
    usedIds: set<Id>,
    uploads: map<Id, seq<int>>,
    // crashed requests, failed removals, saves that failed after the rename, files a power cut brought back
    mishaps: nat)

  const START := State(Disk({}, {}, {}), map[], map[], None, map[], {}, {}, {}, map[], 0)

  datatype Step =
    | CreateAccount(id: Id)
    | SetAllowed(id: Id, allowed: bool)
    | BeginUpload(r: Req, id: Id, now: int)
    | TakeSlot(r: Req)
    | GiveUp(r: Req)
    | Process(r: Req, ok: bool)
    | SaveFails(r: Req)
    | RenameFile(r: Req, key: Key)
    | SyncDir(r: Req, synced: bool, ok: bool)  // closing the directory may fail after the sync took effect
    | Commit(r: Req, dbError: bool)
    | RemoveFile(r: Req, ok: bool)
    | RemovePhoto(r: Req, id: Id)
    | DeleteAccount(r: Req, id: Id)
    | Crash(r: Req)
    | PowerCut(kept: set<Key>, back: set<Key>)

  predicate Enabled(s: State, step: Step) {
    match step
    case CreateAccount(id) => id !in s.usedIds
    case SetAllowed(id, _) => id in s.rows
    case BeginUpload(r, id, now) =>
      r !in s.inflight && id in s.rows && s.rows[id].allowed && !UploadedPhotoOn(s.rows[id], now)
    case TakeSlot(r) => r in s.inflight && s.inflight[r].Waiting? && s.slot.None?
    case GiveUp(r) => r in s.inflight && s.inflight[r].Waiting?
    case Process(r, _) => r in s.inflight && s.inflight[r].Processing?
    case SaveFails(r) => r in s.inflight && s.inflight[r].Processed?
    case RenameFile(r, key) => r in s.inflight && s.inflight[r].Processed? && key !in s.usedKeys
    case SyncDir(r, synced, ok) => r in s.inflight && s.inflight[r].Renamed? && (ok ==> synced)
    case Commit(r, _) => r in s.inflight && s.inflight[r].Saved?
    case RemoveFile(r, _) => r in s.inflight && s.inflight[r].Removing?
    case RemovePhoto(r, id) => r !in s.inflight && id in s.rows
    case DeleteAccount(r, id) => r !in s.inflight && id in s.rows
    case Crash(r) => r in s.inflight
    case PowerCut(_, _) => s.inflight == map[]
  }

  function Finish(s: State, r: Req): State {
    s.(inflight := s.inflight - {r})
  }

  function Advance(s: State, r: Req, stage: Stage): State {
    s.(inflight := s.inflight[r := stage])
  }

  /** A file nobody will ever delete. */
  function Leak(s: State, key: Key): State {
    s.(owner := s.owner[key := ByNobody], leaked := s.leaked + {key}, mishaps := s.mishaps + 1)
  }

  /** The old photo of a row becomes the request's to delete, if there was one. */
  function HandOver(s: State, r: Req, photo: Option<Key>): State {
    match photo
    case None => Finish(s, r)
    case Some(key) => Advance(s, r, Removing(key)).(owner := s.owner[key := ByRequest(r)])
  }

  function DoCommit(s: State, r: Req, dbError: bool): State
    requires r in s.inflight && s.inflight[r].Saved?
  {
    var p := s.inflight[r];
    if dbError || p.id !in s.rows || !Accepts(s.rows[p.id], p.now) then
      Advance(s, r, Removing(p.key))
    else
      var row := s.rows[p.id];
      var committed := s.(
        rows := s.rows[p.id := row.(photo := Some(p.key), uploadedAt := Some(p.now))],
        owner := s.owner[p.key := ByRow(p.id)],
        uploads := s.uploads[p.id := History(s, p.id) + [p.now]]);
      HandOver(committed, r, row.photo)
  }

  function DoCrash(s: State, r: Req): State
    requires r in s.inflight
  {
    var freed := Finish(s, r).(slot := if s.slot == Some(r) then None else s.slot);
    match s.inflight[r].Owns()
    case None => freed.(mishaps := s.mishaps + 1)
    case Some(key) => Leak(freed, key)
  }

  function DoPowerCut(s: State, kept: set<Key>, back: set<Key>): State {
    var disk := s.disk.PowerCut(kept, back);
    var returned := s.disk.unlinked * back;
    s.(disk := disk,
       owner := map k | k in disk.files :: if k in s.owner then s.owner[k] else ByNobody,
       leaked := s.leaked * disk.files + returned,
       mishaps := s.mishaps + |returned|)
  }

  /** The times at which an account's uploads succeeded, in commit order. */
  function History(s: State, id: Id): seq<int> {
    if id in s.uploads then s.uploads[id] else []
  }

  function Apply(s: State, step: Step): State
    requires Enabled(s, step)
  {
    match step
    case CreateAccount(id) =>
      s.(rows := s.rows[id := Row(None, None, false)], usedIds := s.usedIds + {id}, uploads := s.uploads[id := []])
    case SetAllowed(id, allowed) => s.(rows := s.rows[id := s.rows[id].(allowed := allowed)])
    case BeginUpload(r, id, now) => Advance(s, r, Waiting(id, now))
    case TakeSlot(r) => Advance(s, r, Processing(s.inflight[r].id, s.inflight[r].now)).(slot := Some(r))
    case GiveUp(r) => Finish(s, r)
    case Process(r, ok) =>
      var freed := s.(slot := None);
      if ok then Advance(freed, r, Processed(s.inflight[r].id, s.inflight[r].now)) else Finish(freed, r)
    case SaveFails(r) => Finish(s, r)
    case RenameFile(r, key) =>
      Advance(s, r, Renamed(s.inflight[r].id, s.inflight[r].now, key)).(
        disk := s.disk.Rename(key), owner := s.owner[key := ByRequest(r)], usedKeys := s.usedKeys + {key})
    case SyncDir(r, synced, ok) =>
      var p, d := s.inflight[r], if synced then s.(disk := s.disk.Sync()) else s;
      if ok then Advance(d, r, Saved(p.id, p.now, p.key)) else Leak(Finish(d, r), p.key)
    case Commit(r, dbError) => DoCommit(s, r, dbError)
    case RemoveFile(r, ok) =>
      var key := s.inflight[r].key;
      if ok then Finish(s, r).(disk := s.disk.Unlink(key), owner := s.owner - {key}) else Leak(Finish(s, r), key)
    case RemovePhoto(r, id) =>
      HandOver(s.(rows := s.rows[id := s.rows[id].(photo := None)]), r, s.rows[id].photo)
    case DeleteAccount(r, id) =>
      HandOver(s.(rows := s.rows - {id}), r, s.rows[id].photo)
    case Crash(r) => DoCrash(s, r)
    case PowerCut(kept, back) => DoPowerCut(s, kept, back)
  }

  ghost predicate Legal(s: State, steps: seq<Step>)
    decreases |steps|
  {
    steps == [] || (Enabled(s, steps[0]) && Legal(Apply(s, steps[0]), steps[1..]))
  }

  ghost function Run(s: State, steps: seq<Step>): State
    requires Legal(s, steps)
    decreases |steps|
  {
    if steps == [] then s else Run(Apply(s, steps[0]), steps[1..])
  }
}
