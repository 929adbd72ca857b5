/**
 What every step of the photo protocol keeps: every key a row holds names a file
 that is on disk and survives a power cut, and no file is unaccounted for.
 */
module PhotoSafety {
  import opened Common
  import opened PhotoProtocol

  // ------------------------------------------------------------ the invariant

  ghost predicate RowsOwn(s: State) {
    && (forall id <- s.rows | s.rows[id].photo.Some? ::
          s.rows[id].photo.value in s.owner && s.owner[s.rows[id].photo.value] == ByRow(id))
    && (forall k <- s.owner | s.owner[k].ByRow? ::
          s.owner[k].id in s.rows && s.rows[s.owner[k].id].photo == Some(k))
  }

  ghost predicate RequestsOwn(s: State) {
    && (forall r <- s.inflight | s.inflight[r].Owns().Some? ::
          s.inflight[r].Owns().value in s.owner && s.owner[s.inflight[r].Owns().value] == ByRequest(r))
    && (forall k <- s.owner | s.owner[k].ByRequest? ::
          s.owner[k].req in s.inflight && s.inflight[s.owner[k].req].Owns() == Some(k))
  }

  ghost predicate LeaksCounted(s: State) {
    && (forall k :: k in s.leaked <==> k in s.owner && s.owner[k].ByNobody?)
    && |s.leaked| <= s.mishaps
  }

  ghost predicate DiskAccounted(s: State) {
    && s.disk.files == s.owner.Keys
    && s.disk.synced <= s.disk.files
    && s.disk.files !! s.disk.unlinked
    && s.disk.files + s.disk.unlinked <= s.usedKeys
  }

  /** Nothing reaches a row before its name is safe. */
  ghost predicate SyncedFirst(s: State) {
    && (forall r <- s.inflight | s.inflight[r].Saved? :: s.inflight[r].key in s.disk.synced)
    && (forall id <- s.rows | s.rows[id].photo.Some? :: s.rows[id].photo.value in s.disk.synced)
  }

  ghost predicate SlotHeld(s: State) {
    forall r :: s.slot == Some(r) <==> r in s.inflight && s.inflight[r].Processing?
  }

  ghost predicate KnownIds(s: State) {
    s.rows.Keys <= s.usedIds
  }

  ghost predicate Valid(s: State) {
    && RowsOwn(s) && RequestsOwn(s) && LeaksCounted(s) && DiskAccounted(s)
    && SyncedFirst(s) && SlotHeld(s) && KnownIds(s)
  }

  // ----------------------------------------------------- every step keeps it

  /** Steps that move a request along and leave files, rows and owners alone. */
  lemma QuietStepKeeps(s: State, step: Step)
    requires Valid(s) && Enabled(s, step)
    requires step.SetAllowed? || step.BeginUpload? || step.GiveUp? || step.SaveFails? || step.TakeSlot?
    ensures Valid(Apply(s, step))
  {
    var t := Apply(s, step);
    assert t.owner == s.owner && t.disk == s.disk && t.leaked == s.leaked && t.mishaps == s.mishaps;
    assert RowsOwn(t) && LeaksCounted(t) && DiskAccounted(t) && KnownIds(t);
    assert RequestsOwn(t);
    assert SyncedFirst(t) && SlotHeld(t);
  }

  lemma CreateAccountKeeps(s: State, step: Step)
    requires Valid(s) && Enabled(s, step) && step.CreateAccount?
    ensures Valid(Apply(s, step))
  {
  }

  lemma ProcessKeeps(s: State, step: Step)
    requires Valid(s) && Enabled(s, step) && step.Process?
    ensures Valid(Apply(s, step))
  {
    var t := Apply(s, step);
    assert s.slot == Some(step.r);
    assert SlotHeld(t) by {
      forall r ensures !(r in t.inflight && t.inflight[r].Processing?) {
        assert r in s.inflight && s.inflight[r].Processing? ==> s.slot == Some(r);
      }
    }
    assert RequestsOwn(t);
  }

  lemma RenameFileKeeps(s: State, step: Step)
    requires Valid(s) && Enabled(s, step) && step.RenameFile?
    ensures Valid(Apply(s, step))
  {
    var t := Apply(s, step);
    assert step.key !in s.owner;
    assert RowsOwn(t) && RequestsOwn(t);
  }

  /** A request that owns a file ends without deleting it. */
  lemma LeakKeeps(s: State, r: Req, key: Key)
    requires Valid(s) && r in s.inflight && s.inflight[r].Owns() == Some(key)
    ensures Valid(Leak(Finish(s, r), key))
  {
    var t := Leak(Finish(s, r), key);
    assert key !in s.leaked && |t.leaked| == |s.leaked| + 1;
    assert RowsOwn(t);
    assert RequestsOwn(t);
    assert SyncedFirst(t) && SlotHeld(t);
  }

  lemma SyncKeeps(s: State)
    requires Valid(s)
    ensures Valid(s.(disk := s.disk.Sync()))
  {
    var t := s.(disk := s.disk.Sync());
    assert RowsOwn(t) && RequestsOwn(t);
    assert DiskAccounted(t) && SyncedFirst(t) && SlotHeld(t);
  }

  lemma SavedKeeps(s: State, r: Req)
    requires Valid(s) && r in s.inflight && s.inflight[r].Renamed?
    requires s.inflight[r].key in s.disk.synced
    ensures
      var p := s.inflight[r];
      Valid(Advance(s, r, Saved(p.id, p.now, p.key)))
  {
    var p := s.inflight[r];
    var t := Advance(s, r, Saved(p.id, p.now, p.key));
    assert RowsOwn(t) && RequestsOwn(t);
    assert SyncedFirst(t) && SlotHeld(t);
  }

  lemma SyncDirKeeps(s: State, step: Step)
    requires Valid(s) && Enabled(s, step) && step.SyncDir?
    ensures Valid(Apply(s, step))
  {
    var p := s.inflight[step.r];
    var d := if step.synced then s.(disk := s.disk.Sync()) else s;
    SyncKeeps(s);
    if step.ok {
      SavedKeeps(d, step.r);
    } else {
      LeakKeeps(d, step.r, p.key);
    }
  }

  lemma RemoveFileKeeps(s: State, step: Step)
    requires Valid(s) && Enabled(s, step) && step.RemoveFile?
    ensures Valid(Apply(s, step))
  {
    var t, key := Apply(s, step), s.inflight[step.r].key;
    if step.ok {
      assert s.owner[key] == ByRequest(step.r);
      assert RowsOwn(t) && RequestsOwn(t);
      assert DiskAccounted(t) && SyncedFirst(t) && SlotHeld(t);
    } else {
      LeakKeeps(s, step.r, key);
    }
  }

  lemma CrashKeeps(s: State, step: Step)
    requires Valid(s) && Enabled(s, step) && step.Crash?
    ensures Valid(Apply(s, step))
  {
    match s.inflight[step.r].Owns()
    case Some(key) =>
      assert s.slot != Some(step.r);
      LeakKeeps(s, step.r, key);
      assert Apply(s, step) == Leak(Finish(s, step.r), key);
    case None =>
      var t := Apply(s, step);
      assert RowsOwn(t) && RequestsOwn(t);
      assert SlotHeld(t);
  }

  /** Request r, so far without a file, takes over the file of a row. */
  lemma TakenOver(s: State, u: State, r: Req, key: Key)
    requires RequestsOwn(s) && key in s.owner && s.owner[key].ByRow?
    requires r in s.inflight ==> s.inflight[r].Owns().None?
    requires u.inflight == s.inflight[r := Removing(key)] && u.owner == s.owner[key := ByRequest(r)]
    ensures RequestsOwn(u)
  {
  }

  /** A row lets go of its photo, either by dropping the key or by disappearing; request r takes the file over. */
  lemma HandOverKeeps(s: State, t: State, r: Req, id: Id)
    requires Valid(s) && r !in s.inflight && id in s.rows
    requires t.rows.Keys <= s.rows.Keys && (id in t.rows ==> t.rows[id].photo.None?)
    requires forall other <- t.rows | other != id :: t.rows[other] == s.rows[other]
    requires forall other <- s.rows | other != id :: other in t.rows
    requires t == s.(rows := t.rows)
    ensures Valid(HandOver(t, r, s.rows[id].photo))
  {
    var u := HandOver(t, r, s.rows[id].photo);
    if s.rows[id].photo.Some? {
      var key := s.rows[id].photo.value;
      assert s.owner[key] == ByRow(id);
      assert u == t.(inflight := s.inflight[r := Removing(key)], owner := s.owner[key := ByRequest(r)]);
      TakenOver(s, u, r, key);
      assert RowsOwn(u);
      assert SyncedFirst(u) && SlotHeld(u);
    } else {
      assert s.inflight - {r} == s.inflight;
      assert u == t;
    }
  }

  lemma RemovePhotoKeeps(s: State, step: Step)
    requires Valid(s) && Enabled(s, step) && step.RemovePhoto?
    ensures Valid(Apply(s, step))
  {
    HandOverKeeps(s, s.(rows := s.rows[step.id := s.rows[step.id].(photo := None)]), step.r, step.id);
  }

  lemma DeleteAccountKeeps(s: State, step: Step)
    requires Valid(s) && Enabled(s, step) && step.DeleteAccount?
    ensures Valid(Apply(s, step))
  {
    HandOverKeeps(s, s.(rows := s.rows - {step.id}), step.r, step.id);
  }

  lemma RefusedCommitKeeps(s: State, r: Req)
    requires Valid(s) && r in s.inflight && s.inflight[r].Saved?
    ensures Valid(Advance(s, r, Removing(s.inflight[r].key)))
  {
    var t := Advance(s, r, Removing(s.inflight[r].key));
    assert RequestsOwn(t);
    assert SyncedFirst(t) && SlotHeld(t);
  }

  /** The photo changes hands: the row takes the new file, the request the old one. */
  lemma ReplacePhotoOwners(s: State, r: Req, t: State, key: Key)
    requires Valid(s) && r in s.inflight && s.inflight[r].Saved? && t == DoCommit(s, r, false)
    requires s.inflight[r].id in s.rows && Accepts(s.rows[s.inflight[r].id], s.inflight[r].now)
    requires s.rows[s.inflight[r].id].photo == Some(key)
    ensures RowsOwn(t) && RequestsOwn(t)
    ensures s.owner[s.inflight[r].key] == ByRequest(r) && s.owner[key] == ByRow(s.inflight[r].id)
  {
    var p := s.inflight[r];
    assert s.owner[p.key] == ByRequest(r) && s.owner[key] == ByRow(p.id);
    ReplacePhotoEffect(s, r, t, key);
    hide DoCommit;
    assert RowsOwn(t);
    // The request swaps the file it saved for the one it replaced.
    var between := s.(inflight := s.inflight[r := Waiting(p.id, p.now)], owner := s.owner[p.key := ByRow(p.id)]);
    LetGo(s, between, r, p.key, p.id);
    assert t.inflight == between.inflight[r := Removing(key)];
    TakenOver(between, t, r, key);
  }

  /** Request r gives the file it owns to a row. */
  lemma LetGo(s: State, u: State, r: Req, key: Key, id: Id)
    requires RequestsOwn(s) && key in s.owner && s.owner[key] == ByRequest(r)
    requires r in s.inflight && s.inflight[r].Owns() == Some(key)
    requires r in u.inflight && u.inflight[r].Owns().None? && u.inflight == s.inflight[r := u.inflight[r]]
    requires u.owner == s.owner[key := ByRow(id)]
    ensures RequestsOwn(u)
  {
  }

  lemma ReplacePhotoEffect(s: State, r: Req, t: State, key: Key)
    requires r in s.inflight && s.inflight[r].Saved? && t == DoCommit(s, r, false)
    requires s.inflight[r].id in s.rows && Accepts(s.rows[s.inflight[r].id], s.inflight[r].now)
    requires s.rows[s.inflight[r].id].photo == Some(key)
    ensures
      var p := s.inflight[r];
      && t.rows == s.rows[p.id := s.rows[p.id].(photo := Some(p.key), uploadedAt := Some(p.now))]
      && t.owner == s.owner[p.key := ByRow(p.id)][key := ByRequest(r)]
      && t.inflight == s.inflight[r := Removing(key)]
  {
  }

  lemma ReplacePhotoKeeps(s: State, r: Req, t: State, key: Key)
    requires Valid(s) && r in s.inflight && s.inflight[r].Saved? && t == DoCommit(s, r, false)
    requires s.inflight[r].id in s.rows && Accepts(s.rows[s.inflight[r].id], s.inflight[r].now)
    requires s.rows[s.inflight[r].id].photo == Some(key)
    ensures Valid(t)
  {
    ReplacePhotoOwners(s, r, t, key);
    assert t.disk == s.disk && t.leaked == s.leaked && t.mishaps == s.mishaps;
    assert t.slot == s.slot && t.usedKeys == s.usedKeys;
    assert LeaksCounted(t) && DiskAccounted(t) && SyncedFirst(t);
    assert SlotHeld(t) && KnownIds(t);
  }

  lemma FirstPhotoKeeps(s: State, r: Req, t: State)
    requires Valid(s) && r in s.inflight && s.inflight[r].Saved? && t == DoCommit(s, r, false)
    requires s.inflight[r].id in s.rows && Accepts(s.rows[s.inflight[r].id], s.inflight[r].now)
    requires s.rows[s.inflight[r].id].photo.None?
    ensures Valid(t)
  {
    var p := s.inflight[r];
    assert s.owner[p.key] == ByRequest(r);
    assert t.rows == s.rows[p.id := s.rows[p.id].(photo := Some(p.key), uploadedAt := Some(p.now))];
    assert t.owner == s.owner[p.key := ByRow(p.id)] && t.inflight == s.inflight - {r};
    assert RowsOwn(t);
    assert RequestsOwn(t);
  }

  lemma CommitKeeps(s: State, step: Step)
    requires Valid(s) && Enabled(s, step) && step.Commit?
    ensures Valid(Apply(s, step))
  {
    var r, t := step.r, Apply(s, step);
    var p := s.inflight[r];
    if step.dbError || p.id !in s.rows || !Accepts(s.rows[p.id], p.now) {
      RefusedCommitKeeps(s, r);
    } else {
      match s.rows[p.id].photo
      case Some(key) => ReplacePhotoKeeps(s, r, t, key);
      case None => FirstPhotoKeeps(s, r, t);
    }
  }

  lemma PowerCutNames(d: Disk, kept: set<Key>, back: set<Key>)
    requires d.synced <= d.files
    ensures d.synced <= d.PowerCut(kept, back).files <= d.files + d.unlinked
    ensures d.PowerCut(kept, back).files - d.files <= d.unlinked * back
  {
  }

  lemma PowerCutEffect(s: State, t: State, kept: set<Key>, back: set<Key>)
    requires t == DoPowerCut(s, kept, back)
    ensures t.disk == s.disk.PowerCut(kept, back) && t.owner.Keys == t.disk.files
    ensures forall k <- t.owner :: t.owner[k] == if k in s.owner then s.owner[k] else ByNobody
  {
  }

  /** Rows keep their files; whatever comes back belongs to nobody. */
  lemma PowerCutKeepsOwners(s: State, t: State, kept: set<Key>, back: set<Key>)
    requires Valid(s) && s.inflight == map[] && t == DoPowerCut(s, kept, back)
    ensures t.owner.Keys == t.disk.files
    ensures forall k <- s.owner | s.owner[k].ByRow? :: k in t.owner
    ensures forall k <- t.owner :: t.owner[k] == if k in s.owner then s.owner[k] else ByNobody
  {
    PowerCutNames(s.disk, kept, back);
    PowerCutEffect(s, t, kept, back);
    hide DoPowerCut, RequestsOwn, LeaksCounted, SlotHeld, KnownIds;
    forall k <- s.owner | s.owner[k].ByRow? ensures k in t.owner {
      assert s.rows[s.owner[k].id].photo == Some(k);
      assert k in s.disk.synced;
    }
  }

  lemma PowerCutLeaks(s: State, t: State, kept: set<Key>, back: set<Key>)
    requires Valid(s) && s.inflight == map[] && t == DoPowerCut(s, kept, back)
    ensures LeaksCounted(t)
  {
    PowerCutKeepsOwners(s, t, kept, back);
    PowerCutNames(s.disk, kept, back);
    var remaining, returned := s.leaked * t.disk.files, s.disk.unlinked * back;
    AtMost(remaining, s.leaked, returned);
    forall k ensures k in t.leaked <==> k in t.owner && t.owner[k].ByNobody? {
      if k in returned {
        assert k !in s.owner;
      } else {
        assert k in t.owner ==> k in s.owner;
      }
    }
  }

  lemma AtMost<T>(part: set<T>, whole: set<T>, more: set<T>)
    requires part <= whole
    ensures |part + more| <= |whole| + |more|
  {
    assert whole == part + (whole - part);
    assert part + more == part + (more - part) && more == (more - part) + (more * part);
  }

  lemma PowerCutDisk(s: State, t: State, kept: set<Key>, back: set<Key>)
    requires Valid(s) && s.inflight == map[] && t == DoPowerCut(s, kept, back)
    ensures DiskAccounted(t) && SyncedFirst(t)
  {
    PowerCutKeepsOwners(s, t, kept, back);
    PowerCutNames(s.disk, kept, back);
    forall id <- t.rows | t.rows[id].photo.Some? ensures t.rows[id].photo.value in t.disk.files {
      assert s.rows[id].photo.value in s.disk.synced;
    }
  }

  lemma PowerCutOwners(s: State, t: State, kept: set<Key>, back: set<Key>)
    requires Valid(s) && s.inflight == map[] && t == DoPowerCut(s, kept, back)
    ensures RowsOwn(t) && RequestsOwn(t)
  {
    PowerCutKeepsOwners(s, t, kept, back);
    assert forall k <- s.owner :: !s.owner[k].ByRequest?;
    assert RequestsOwn(t);
  }

  lemma PowerCutKeeps(s: State, kept: set<Key>, back: set<Key>)
    requires Valid(s) && s.inflight == map[]
    ensures Valid(DoPowerCut(s, kept, back))
  {
    var t := DoPowerCut(s, kept, back);
    PowerCutOwners(s, t, kept, back);
    PowerCutLeaks(s, t, kept, back);
    PowerCutDisk(s, t, kept, back);
  }

  lemma StepKeepsValid(s: State, step: Step)
    requires Valid(s) && Enabled(s, step)
    ensures Valid(Apply(s, step))
  {
    match step
    case CreateAccount(_) => CreateAccountKeeps(s, step);
    case Process(_, _) => ProcessKeeps(s, step);
    case RenameFile(_, _) => RenameFileKeeps(s, step);
    case SyncDir(_, _, _) => SyncDirKeeps(s, step);
    case Commit(_, _) => CommitKeeps(s, step);
    case RemoveFile(_, _) => RemoveFileKeeps(s, step);
    case RemovePhoto(_, _) => RemovePhotoKeeps(s, step);
    case DeleteAccount(_, _) => DeleteAccountKeeps(s, step);
    case Crash(_) => CrashKeeps(s, step);
    case PowerCut(kept, back) => PowerCutKeeps(s, kept, back);
    case _ => QuietStepKeeps(s, step);
  }

  lemma {:induction false} RunKeepsValid(s: State, steps: seq<Step>)
    requires Valid(s) && Legal(s, steps)
    ensures Valid(Run(s, steps))
    decreases |steps|
  {
    if steps != [] {
      StepKeepsValid(s, steps[0]);
      RunKeepsValid(Apply(s, steps[0]), steps[1..]);
    }
  }

  // -------------------------------------------------------------- main results

  /** In every interleaving, a key held by a row names a file, and goes on naming it after a power cut. */
  lemma RowsNameFiles(steps: seq<Step>, id: Id, kept: set<Key>, back: set<Key>)
    requires Legal(START, steps) && id in Run(START, steps).rows && Run(START, steps).rows[id].photo.Some?
    ensures
      var s := Run(START, steps);
      s.rows[id].photo.value in s.disk.files && s.rows[id].photo.value in s.disk.PowerCut(kept, back).files
  {
    RunKeepsValid(START, steps);
  }

  ghost function RowKeys(s: State): set<Key> {
    set id | id in s.rows && s.rows[id].photo.Some? :: s.rows[id].photo.value
  }

  ghost function RequestKeys(s: State): set<Key> {
    set r | r in s.inflight && s.inflight[r].Owns().Some? :: s.inflight[r].Owns().value
  }

  lemma RowKeysByOwner(s: State, k: Key)
    requires Valid(s)
    ensures k in RowKeys(s) <==> k in s.owner && s.owner[k].ByRow?
  {
    if k in s.owner && s.owner[k].ByRow? {
      assert s.rows[s.owner[k].id].photo.value == k;
    }
  }

  lemma RequestKeysByOwner(s: State, k: Key)
    requires Valid(s)
    ensures k in RequestKeys(s) <==> k in s.owner && s.owner[k].ByRequest?
  {
    if k in s.owner && s.owner[k].ByRequest? {
      assert s.inflight[s.owner[k].req].Owns().value == k;
    }
  }

  lemma OwnersSplit(owner: map<Key, Owner>, rows: set<Key>, requests: set<Key>, nobody: set<Key>)
    requires forall k :: k in rows <==> k in owner && owner[k].ByRow?
    requires forall k :: k in requests <==> k in owner && owner[k].ByRequest?
    requires forall k :: k in nobody <==> k in owner && owner[k].ByNobody?
    ensures owner.Keys == rows + requests + nobody
    ensures rows !! requests && rows !! nobody && requests !! nobody
  {
    forall k <- owner ensures k in rows + requests + nobody {
      assert owner[k].ByRow? || owner[k].ByRequest? || owner[k].ByNobody?;
    }
  }

  lemma FilesSplit(s: State)
    requires Valid(s)
    ensures s.disk.files == RowKeys(s) + RequestKeys(s) + s.leaked
    ensures RowKeys(s) !! RequestKeys(s) && RowKeys(s) !! s.leaked && RequestKeys(s) !! s.leaked
  {
    forall k ensures k in RowKeys(s) <==> k in s.owner && s.owner[k].ByRow? { RowKeysByOwner(s, k); }
    forall k ensures k in RequestKeys(s) <==> k in s.owner && s.owner[k].ByRequest? { RequestKeysByOwner(s, k); }
    OwnersSplit(s.owner, RowKeys(s), RequestKeys(s), s.leaked);
  }

  /**
   Files are conserved: what is on disk is, disjointly, the rows' keys, the files
   of requests in flight, and leaks; and there is at most one leak per mishap.
   */
  lemma FilesConserved(steps: seq<Step>)
    requires Legal(START, steps)
    ensures
      var s := Run(START, steps);
      && s.disk.files == RowKeys(s) + RequestKeys(s) + s.leaked
      && RowKeys(s) !! RequestKeys(s) && RowKeys(s) !! s.leaked && RequestKeys(s) !! s.leaked
      && |s.leaked| <= s.mishaps
  {
    RunKeepsValid(START, steps);
    FilesSplit(Run(START, steps));
  }

  /** Without mishaps, an idle server has exactly the rows' files. */
  lemma IdleDiskMatchesRows(steps: seq<Step>)
    requires Legal(START, steps)
    requires Run(START, steps).inflight == map[] && Run(START, steps).mishaps == 0
    ensures Run(START, steps).disk.files == RowKeys(Run(START, steps))
  {
    FilesConserved(steps);
  }

  /** No two accounts ever share a photo, and one photo at a time is being processed. */
  lemma NothingIsShared(steps: seq<Step>, id: Id, other: Id, r: Req, q: Req)
    requires Legal(START, steps)
    ensures
      var s := Run(START, steps);
      && (id in s.rows && other in s.rows && s.rows[id].photo.Some? && s.rows[id].photo == s.rows[other].photo ==>
            id == other)
      && (r in s.inflight && s.inflight[r].Processing? && q in s.inflight && s.inflight[q].Processing? ==> r == q)
  {
    var s := Run(START, steps);
    RunKeepsValid(START, steps);
    assert r in s.inflight && s.inflight[r].Processing? ==> s.slot == Some(r);
  }

  /** The slot is never left taken: whoever holds it is still processing. */
  lemma SlotIsNotLost(steps: seq<Step>)
    requires Legal(START, steps) && Run(START, steps).slot.Some?
    ensures Enabled(Run(START, steps), Process(Run(START, steps).slot.value, false))
  {
    RunKeepsValid(START, steps);
  }

  // ------------------------------------------------------- keys never come back

  /** A request that may still put the key into a row. */
  ghost predicate Carries(stage: Stage, key: Key) {
    (stage.Renamed? || stage.Saved?) && stage.key == key
  }

  ghost predicate InTable(s: State, key: Key) {
    exists id :: id in s.rows && s.rows[id].photo == Some(key)
  }

  ghost predicate Carried(s: State, key: Key) {
    exists r :: r in s.inflight && Carries(s.inflight[r], key)
  }

  /** A key enters the table only from a request that carries it. */
  lemma RowsComeFromCarriers(s: State, step: Step, key: Key)
    requires Enabled(s, step) && InTable(Apply(s, step), key)
    ensures InTable(s, key) || Carried(s, key)
  {
    var t := Apply(s, step);
    var id :| id in t.rows && t.rows[id].photo == Some(key);
    if step.Commit? {
      assert (id in s.rows && s.rows[id].photo == Some(key)) || Carries(s.inflight[step.r], key);
    } else {
      assert id in s.rows && s.rows[id].photo == Some(key);
    }
  }

  /** A key is carried only if it is new. */
  lemma CarriersComeFromNewKeys(s: State, step: Step, key: Key)
    requires Enabled(s, step) && Carried(Apply(s, step), key)
    ensures Carried(s, key) || key !in s.usedKeys
  {
    var t := Apply(s, step);
    var r :| r in t.inflight && Carries(t.inflight[r], key);
    if !(step.RenameFile? && step.r == r) {
      assert r in s.inflight && Carries(s.inflight[r], key);
    }
  }

  lemma KeysEnterOnce(s: State, step: Step, key: Key)
    requires Enabled(s, step)
    ensures key in s.usedKeys ==> key in Apply(s, step).usedKeys
    ensures InTable(Apply(s, step), key) ==> InTable(s, key) || Carried(s, key)
    ensures Carried(Apply(s, step), key) ==> Carried(s, key) || key !in s.usedKeys
  {
    if InTable(Apply(s, step), key) {
      RowsComeFromCarriers(s, step, key);
    }
    if Carried(Apply(s, step), key) {
      CarriersComeFromNewKeys(s, step, key);
    }
  }

  lemma {:induction false} RetiredForGood(s: State, steps: seq<Step>, key: Key)
    requires Legal(s, steps) && key in s.usedKeys && !InTable(s, key) && !Carried(s, key)
    ensures !InTable(Run(s, steps), key)
    decreases |steps|
  {
    if steps != [] {
      KeysEnterOnce(s, steps[0], key);
      RetiredForGood(Apply(s, steps[0]), steps[1..], key);
    }
  }

  lemma RowKeyIsNotCarried(s: State, key: Key)
    requires Valid(s) && key in s.owner && s.owner[key].ByRow?
    ensures !Carried(s, key)
  {
  }

  /** Main result: a key that leaves the table, whoever held it, never names anybody's photo again. */
  lemma ReplacedKeyNeverReturns(before: seq<Step>, step: Step, after: seq<Step>, key: Key)
    requires Legal(START, before) && Enabled(Run(START, before), step)
    requires Legal(Apply(Run(START, before), step), after)
    requires InTable(Run(START, before), key) && !InTable(Apply(Run(START, before), step), key)
    ensures !InTable(Run(Apply(Run(START, before), step), after), key)
  {
    var s := Run(START, before);
    RunKeepsValid(START, before);
    var id :| id in s.rows && s.rows[id].photo == Some(key);
    assert s.owner[key] == ByRow(id);
    RowKeyIsNotCarried(s, key);
    KeysEnterOnce(s, step, key);
    RetiredForGood(Apply(s, step), after, key);
  }
}
