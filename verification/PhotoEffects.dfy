/**
 What the requests about photos come to, in every reachable state: what an upload's
 commit, a removal and an account's deletion leave in the table, who deletes which
 file, and that what was taken down stays down.
 */
module PhotoEffects {
  import opened Common
  import opened PhotoProtocol
  import opened PhotoSafety

  /** Some request is left with the file of a photo that no row names any more, and can delete it. */
  ghost predicate LeftToDelete(s: State, r: Req, key: Key) {
    && r in s.inflight && s.inflight[r] == Removing(key)
    && key in s.disk.files && !InTable(s, key)
    && Enabled(s, RemoveFile(r, true))
  }

  lemma RemovingIsOwned(s: State, r: Req)
    requires Valid(s) && r in s.inflight && s.inflight[r].Removing?
    ensures LeftToDelete(s, r, s.inflight[r].key) && !Carried(s, s.inflight[r].key)
  {
    var key := s.inflight[r].key;
    assert s.inflight[r].Owns() == Some(key);
  }

  // ----------------------------------------------------------------- removal

  lemma HandOverEffect(s: State, r: Req, photo: Option<Key>)
    requires r !in s.inflight
    ensures
      var t := HandOver(s, r, photo);
      && t.rows == s.rows && t.disk == s.disk
      && t.inflight == if photo.Some? then s.inflight[r := Removing(photo.value)] else s.inflight
  {
    assert s.inflight - {r} == s.inflight;
  }

  /** Main result: removing a photo empties its row, keeps the day's limit, and leaves the file to the request. */
  lemma RemovalTakesPhoto(before: seq<Step>, r: Req, id: Id)
    requires Legal(START, before) && Enabled(Run(START, before), RemovePhoto(r, id))
    ensures
      var s, t := Run(START, before), Apply(Run(START, before), RemovePhoto(r, id));
      && t.rows == s.rows[id := Row(None, s.rows[id].uploadedAt, s.rows[id].allowed)]
      && match s.rows[id].photo
         case None => t.inflight == s.inflight
         case Some(key) => LeftToDelete(t, r, key)
  {
    var s, t := Run(START, before), Apply(Run(START, before), RemovePhoto(r, id));
    RunKeepsValid(START, before);
    StepKeepsValid(s, RemovePhoto(r, id));
    var cleared := s.(rows := s.rows[id := s.rows[id].(photo := None)]);
    assert t == HandOver(cleared, r, s.rows[id].photo);
    hide *;
    HandOverEffect(cleared, r, s.rows[id].photo);
    if s.rows[id].photo.Some? {
      RemovingIsOwned(t, r);
    }
  }

  /** Main result: deleting an account takes its row, and leaves its photo's file to the request. */
  lemma DeletionTakesPhoto(before: seq<Step>, r: Req, id: Id)
    requires Legal(START, before) && Enabled(Run(START, before), DeleteAccount(r, id))
    ensures
      var s, t := Run(START, before), Apply(Run(START, before), DeleteAccount(r, id));
      && t.rows == s.rows - {id}
      && match s.rows[id].photo
         case None => t.inflight == s.inflight
         case Some(key) => LeftToDelete(t, r, key)
  {
    var s, t := Run(START, before), Apply(Run(START, before), DeleteAccount(r, id));
    RunKeepsValid(START, before);
    StepKeepsValid(s, DeleteAccount(r, id));
    var cleared := s.(rows := s.rows - {id});
    assert t == HandOver(cleared, r, s.rows[id].photo);
    hide *;
    HandOverEffect(cleared, r, s.rows[id].photo);
    if s.rows[id].photo.Some? {
      RemovingIsOwned(t, r);
    }
  }

  /** Main result: once the file is deleted it is off the disk, and in no continuation does a row name it. */
  lemma DeletedFileStaysDown(before: seq<Step>, r: Req, after: seq<Step>)
    requires Legal(START, before)
    requires r in Run(START, before).inflight && Run(START, before).inflight[r].Removing?
    requires Legal(Apply(Run(START, before), RemoveFile(r, true)), after)
    ensures
      var s := Run(START, before);
      var t, key := Apply(s, RemoveFile(r, true)), s.inflight[r].key;
      && t.disk.files == s.disk.files - {key} && r !in t.inflight && t.rows == s.rows
      && !InTable(Run(t, after), key)
  {
    var s := Run(START, before);
    var key := s.inflight[r].key;
    RunKeepsValid(START, before);
    RemovingIsOwned(s, r);
    KeysEnterOnce(s, RemoveFile(r, true), key);
    RetiredForGood(Apply(s, RemoveFile(r, true)), after, key);
  }

  /** Even before that: from the moment a request is left with a file, no row ever names it again. */
  lemma TakenDownStaysDown(before: seq<Step>, r: Req, after: seq<Step>)
    requires Legal(START, before) && Legal(Run(START, before), after)
    requires r in Run(START, before).inflight && Run(START, before).inflight[r].Removing?
    ensures !InTable(Run(Run(START, before), after), Run(START, before).inflight[r].key)
  {
    var s := Run(START, before);
    RunKeepsValid(START, before);
    RemovingIsOwned(s, r);
    RetiredForGood(s, after, s.inflight[r].key);
  }

  lemma KnownIdsStayKnown(s: State, step: Step, id: Id)
    requires Enabled(s, step) && id in s.usedIds && id !in s.rows
    ensures id in Apply(s, step).usedIds && id !in Apply(s, step).rows
  {
  }

  /** A deleted account never comes back. */
  lemma {:induction false} DeletedAccountStaysGone(s: State, id: Id, steps: seq<Step>)
    requires Legal(s, steps) && id in s.usedIds && id !in s.rows
    ensures id !in Run(s, steps).rows
    decreases |steps|
  {
    if steps != [] {
      KnownIdsStayKnown(s, steps[0], id);
      DeletedAccountStaysGone(Apply(s, steps[0]), id, steps[1..]);
    }
  }

  // ------------------------------------------------------------------ upload

  /** Main result: when an upload's commit publishes its photo, and what it leaves behind either way. */
  lemma CommitPublishesIff(before: seq<Step>, r: Req, dbError: bool)
    requires Legal(START, before) && Enabled(Run(START, before), Commit(r, dbError))
    ensures
      var s := Run(START, before);
      var t, id, now, key := Apply(s, Commit(r, dbError)), s.inflight[r].id, s.inflight[r].now, s.inflight[r].key;
      if && !dbError && id in s.rows && s.rows[id].allowed
         && (s.rows[id].uploadedAt.Some? ==> Day(s.rows[id].uploadedAt.value) < Day(now))
      then
        && t.rows == s.rows[id := Row(Some(key), Some(now), true)] && key in t.disk.synced
        && match s.rows[id].photo
           case None => t.inflight == s.inflight - {r}
           case Some(previous) => LeftToDelete(t, r, previous)
      else
        t.rows == s.rows && LeftToDelete(t, r, key)
  {
    var s := Run(START, before);
    var t, p := Apply(s, Commit(r, dbError)), s.inflight[r];
    RunKeepsValid(START, before);
    StepKeepsValid(s, Commit(r, dbError));
    assert t.disk == s.disk && p.key in s.disk.synced;
    if p.id in s.rows {
      AcceptsIff(s.rows[p.id], p.now);
    }
    CommitLeaves(s, r, dbError);
    hide *;
    if r in t.inflight && t.inflight[r].Removing? {
      RemovingIsOwned(t, r);
    }
  }

  lemma AcceptsIff(row: Row, now: int)
    ensures Accepts(row, now) <==>
              row.allowed && (row.uploadedAt.Some? ==> Day(row.uploadedAt.value) < Day(now))
  {
    if row.uploadedAt.Some? {
      DayStartIsBoundary(now, row.uploadedAt.value);
    }
  }

  lemma CommitLeaves(s: State, r: Req, dbError: bool)
    requires Enabled(s, Commit(r, dbError))
    ensures
      var t, p := Apply(s, Commit(r, dbError)), s.inflight[r];
      if !dbError && p.id in s.rows && Accepts(s.rows[p.id], p.now) then
        && t.rows == s.rows[p.id := Row(Some(p.key), Some(p.now), true)]
        && t.inflight == if s.rows[p.id].photo.Some? then s.inflight[r := Removing(s.rows[p.id].photo.value)]
                         else s.inflight - {r}
      else
        t.rows == s.rows && t.inflight == s.inflight[r := Removing(p.key)]
  {
  }

  /** Nothing but a commit, a removal, a deletion, a sign-up or the operator changes the table. */
  lemma NothingElseChangesRows(s: State, step: Step)
    requires Enabled(s, step) && !step.Commit? && !step.RemovePhoto? && !step.DeleteAccount?
    requires !step.CreateAccount? && !step.SetAllowed?
    ensures Apply(s, step).rows == s.rows
  {
  }

  lemma OthersChangeOneRow(s: State, step: Step)
    requires Enabled(s, step)
    ensures step.CreateAccount? ==> Apply(s, step).rows == s.rows[step.id := Row(None, None, false)]
    ensures step.SetAllowed? ==>
              Apply(s, step).rows
              == s.rows[step.id := Row(s.rows[step.id].photo, s.rows[step.id].uploadedAt, step.allowed)]
  {
  }

  /** An upload begins for an account that is on the allowlist and has not uploaded on that day. */
  lemma UploadBeginsIff(s: State, r: Req, id: Id, now: int)
    requires r !in s.inflight && id in s.rows
    ensures Enabled(s, BeginUpload(r, id, now)) <==>
              s.rows[id].allowed && (s.rows[id].uploadedAt.Some? ==> Day(s.rows[id].uploadedAt.value) != Day(now))
  {
  }

  /** From there on it is for that account and that time, and from its rename on for that file. */
  lemma RequestsKeepTheirUpload(s: State, step: Step, r: Req)
    requires Enabled(s, step) && r in s.inflight && r in Apply(s, step).inflight
    requires !s.inflight[r].Removing? && !Apply(s, step).inflight[r].Removing?
    ensures
      var p, q := s.inflight[r], Apply(s, step).inflight[r];
      p.id == q.id && p.now == q.now && (p.Owns().Some? ==> q.Owns() == p.Owns())
  {
  }

  /** Only these steps touch the disk. */
  lemma NothingElseTouchesDisk(s: State, step: Step)
    requires Enabled(s, step) && !step.RenameFile? && !step.SyncDir? && !step.RemoveFile? && !step.PowerCut?
    ensures Apply(s, step).disk == s.disk
  {
  }

  /** What they do to it: a rename adds one name, a sync keeps them all, a removal that works takes one. */
  lemma DiskChanges(s: State, step: Step)
    requires Enabled(s, step)
    ensures step.RenameFile? ==>
              Apply(s, step).disk.files == s.disk.files + {step.key} && Apply(s, step).disk.synced == s.disk.synced
    ensures step.SyncDir? ==>
              && Apply(s, step).disk.files == s.disk.files
              && Apply(s, step).disk.synced == if step.synced then s.disk.files else s.disk.synced
    ensures step.RemoveFile? ==>
              Apply(s, step).disk.files == if step.ok then s.disk.files - {s.inflight[step.r].key} else s.disk.files
  {
  }
}
