/** One photo per calendar day at UTC-3. */
module PhotoDays {
  import opened Common
  import opened PhotoProtocol

  ghost predicate DaysIncrease(times: seq<int>) {
    forall i, j | 0 <= i < j < |times| :: Day(times[i]) < Day(times[j])
  }

  /** The row remembers the last successful upload, removals notwithstanding. */
  ghost predicate Valid(s: State) {
    && s.rows.Keys <= s.usedIds && s.uploads.Keys <= s.usedIds
    && (forall id <- s.uploads :: DaysIncrease(s.uploads[id]))
    && (forall id <- s.rows :: s.rows[id].uploadedAt ==
          if History(s, id) == [] then None else Some(History(s, id)[|History(s, id)| - 1]))
  }

  lemma LaterDayIncreases(times: seq<int>, row: Row, now: int)
    requires DaysIncrease(times) && Accepts(row, now)
    requires row.uploadedAt == if times == [] then None else Some(times[|times| - 1])
    ensures DaysIncrease(times + [now])
  {
    if times != [] {
      DayStartIsBoundary(now, times[|times| - 1]);
    }
  }

  predicate Succeeds(s: State, p: Stage, dbError: bool)
    requires p.Saved?
  {
    !dbError && p.id in s.rows && Accepts(s.rows[p.id], p.now)
  }

  lemma CommitEffect(s: State, t: State, r: Req, dbError: bool)
    requires r in s.inflight && s.inflight[r].Saved? && t == DoCommit(s, r, dbError)
    ensures t.usedIds == s.usedIds
    ensures
      var p := s.inflight[r];
      if Succeeds(s, p, dbError) then
        && t.uploads == s.uploads[p.id := History(s, p.id) + [p.now]]
        && t.rows == s.rows[p.id := s.rows[p.id].(photo := Some(p.key), uploadedAt := Some(p.now))]
      else
        t.uploads == s.uploads && t.rows == s.rows
  {
  }

  lemma CommitKeepsDays(s: State, t: State, r: Req, dbError: bool)
    requires Valid(s) && r in s.inflight && s.inflight[r].Saved? && t == DoCommit(s, r, dbError)
    ensures Valid(t)
  {
    CommitEffect(s, t, r, dbError);
    var p := s.inflight[r];
    if Succeeds(s, p, dbError) {
      LaterDayIncreases(History(s, p.id), s.rows[p.id], p.now);
      assert History(t, p.id) == History(s, p.id) + [p.now];
      assert forall id <- t.rows | id != p.id :: t.rows[id] == s.rows[id] && History(t, id) == History(s, id);
    }
  }

  lemma OthersKeepUploads(s: State, t: State, step: Step)
    requires Enabled(s, step) && !step.Commit? && !step.CreateAccount? && t == Apply(s, step)
    ensures t.uploads == s.uploads && t.usedIds == s.usedIds && t.rows.Keys <= s.rows.Keys
    ensures forall id <- t.rows :: t.rows[id].uploadedAt == s.rows[id].uploadedAt
  {
  }

  lemma CreateKeepsDays(s: State, t: State, id: Id)
    requires Valid(s) && id !in s.usedIds && t == Apply(s, CreateAccount(id))
    ensures Valid(t)
  {
    CreateEffect(s, t, id);
    hide Apply;
    assert History(t, id) == [];
    assert forall other <- s.rows :: t.rows[other] == s.rows[other] && History(t, other) == History(s, other);
  }

  lemma CreateEffect(s: State, t: State, id: Id)
    requires id !in s.usedIds && t == Apply(s, CreateAccount(id))
    ensures t.usedIds == s.usedIds + {id}
    ensures t.uploads == s.uploads[id := []] && t.rows == s.rows[id := Row(None, None, false)]
  {
    assert t.uploads == s.uploads[id := []] && t.rows == s.rows[id := Row(None, None, false)];
  }

  lemma OthersKeepDays(s: State, t: State, step: Step)
    requires Valid(s) && Enabled(s, step) && !step.Commit? && !step.CreateAccount? && t == Apply(s, step)
    ensures Valid(t)
  {
    hide Apply, Enabled;
    OthersKeepUploads(s, t, step);
  }

  lemma StepKeepsDays(s: State, step: Step)
    requires Valid(s) && Enabled(s, step)
    ensures Valid(Apply(s, step))
  {
    var t := Apply(s, step);
    if step.Commit? {
      CommitKeepsDays(s, t, step.r, step.dbError);
    } else if step.CreateAccount? {
      CreateKeepsDays(s, t, step.id);
    } else {
      OthersKeepDays(s, t, step);
    }
  }

  lemma {:induction false} RunKeepsDays(s: State, steps: seq<Step>)
    requires Valid(s) && Legal(s, steps)
    ensures Valid(Run(s, steps))
    decreases |steps|
  {
    if steps != [] {
      StepKeepsDays(s, steps[0]);
      RunKeepsDays(Apply(s, steps[0]), steps[1..]);
    }
  }

  /**
   Main result: an account's successful uploads fall on strictly increasing days, in
   commit order, whatever removals come between and in whatever order clocks were read.
   */
  lemma OnePhotoPerDay(steps: seq<Step>, id: Id, i: nat, j: nat)
    requires Legal(START, steps)
    requires i < j < |History(Run(START, steps), id)|
    ensures Day(History(Run(START, steps), id)[i]) < Day(History(Run(START, steps), id)[j])
  {
    RunKeepsDays(START, steps);
  }

  /**
   The early check and the statement agree for an allowed account exactly when the
   last upload is not on a later day; then the early check never hides a chance.
   */
  lemma EarlyCheckAgreesIff(row: Row, now: int)
    requires row.allowed
    ensures (UploadedPhotoOn(row, now) <==> !Accepts(row, now))
            <==> (row.uploadedAt.Some? ==> Day(row.uploadedAt.value) <= Day(now))
  {
    if row.uploadedAt.Some? {
      DayStartIsBoundary(now, row.uploadedAt.value);
    }
  }

  lemma EarlyCheckAgrees(row: Row, now: int)
    requires row.allowed && (row.uploadedAt.Some? ==> row.uploadedAt.value <= now)
    ensures UploadedPhotoOn(row, now) <==> !Accepts(row, now)
  {
    EarlyCheckAgreesIff(row, now);
  }
}
