/** What a task does when nothing comes in between: the steps of the protocol,
    one after another. */
module ProtocolPaths {
  import opened Wrappers
  import opened PhotosRow
  import opened Protocol

  /** The task, finding the row like this and left alone, can take these steps
      and end up so; next is what is left of it. */
  ghost predicate Path(t: Task, row: Track, es: seq<Effect>, next: Option<Task>, row': Track)
    decreases |es|
  {
    if es == [] then next == Some(t) && row' == row
    else
      && May(t, row, es[0])
      && if es[0].next.Some? then Path(es[0].next.value, es[0].row, es[1..], next, row')
         else |es| == 1 && next.None? && row' == es[0].row
  }

  ghost predicate Leads(t: Task, row: Track, next: Option<Task>, row': Track) {
    exists es :: Path(t, row, es, next, row')
  }

  lemma Stays(t: Task, row: Track)
    ensures Leads(t, row, Some(t), row)
  {
    assert Path(t, row, [], Some(t), row);
  }

  lemma EndsWith(t: Task, row: Track, e: Effect)
    requires May(t, row, e) && e.next.None?
    ensures Leads(t, row, None, e.row)
  {
    hide May;
    assert Path(t, row, [e], None, e.row);
  }

  lemma FirstStep(t: Task, row: Track, e: Effect, next: Option<Task>, row': Track)
    requires May(t, row, e) && e.next.Some? && Leads(e.next.value, e.row, next, row')
    ensures Leads(t, row, next, row')
  {
    hide May;
    var es :| Path(e.next.value, e.row, es, next, row');
    assert ([e] + es)[1..] == es;
    assert Path(t, row, [e] + es, next, row');
  }

  function Quiet(row: Track, lock: LockUse, next: Option<Task>): Effect { Effect(row, lock, SlotAlone, next, false) }

  function Write(row: Track, s: PhotosState, leftOut: bool, next: Option<Task>): Effect {
    Effect(row.(photos := s, leftOut := leftOut), LockAlone, SlotAlone, next, false)
  }

  // ----- The paths -----

  lemma MovePath(u: User, target: PhotosState, row: Track)
    ensures Leads(Move(u, target, Wants), row, None, if row.photos.Running() then row
              else row.(photos := target, leftOut := false))
  {
    hide Leads;
    var allowed := !row.photos.Running();
    var row' := if allowed then row.(photos := target, leftOut := false) else row;
    EndsWith(Move(u, target, Leaves(false)), row', Quiet(row', DropLock, None));
    if allowed {
      FirstStep(Move(u, target, Decided), row, Write(row, target, false, Some(Move(u, target, Leaves(false)))), None,
          row');
      FirstStep(Move(u, target, Holds), row, Quiet(row, LockAlone, Some(Move(u, target, Decided))), None, row');
    } else {
      FirstStep(Move(u, target, Holds), row, Quiet(row, LockAlone, Some(Move(u, target, Leaves(false)))), None, row');
    }
    FirstStep(Move(u, target, Wants), row, Quiet(row, TakeLock, Some(Move(u, target, Holds))), None, row');
  }

  lemma AcceptPath(u: User, row: Track)
    ensures Leads(Accept(u, Wants), row, None, if row.photos == Failed
              && row.leftOut then row.(photos := Done, leftOut := false) else row)
  {
    hide Leads;
    var allowed := row.photos == Failed && row.leftOut;
    var row' := if allowed then row.(photos := Done, leftOut := false) else row;
    EndsWith(Accept(u, Leaves(false)), row', Quiet(row', DropLock, None));
    if allowed {
      FirstStep(Accept(u, Decided), row, Write(row, Done, false, Some(Accept(u, Leaves(false)))), None, row');
      FirstStep(Accept(u, Holds), row, Quiet(row, LockAlone, Some(Accept(u, Decided))), None, row');
    } else {
      FirstStep(Accept(u, Holds), row, Quiet(row, LockAlone, Some(Accept(u, Leaves(false)))), None, row');
    }
    FirstStep(Accept(u, Wants), row, Quiet(row, TakeLock, Some(Accept(u, Holds))), None, row');
  }

  lemma UploadPath(u: User, row: Track, complete: bool)
    ensures var claims := row.photos == AwaitingUpload && complete;
            Leads(Upload(u, Wants), row, if claims then Some(UploadLaunch(u)) else None,
                  if claims then row.(photos := PhotosState.Importing, leftOut := false) else row)
  {
    hide Leads;
    if row.photos == AwaitingUpload && complete {
      var row', next := row.(photos := PhotosState.Importing, leftOut := false), Some(UploadLaunch(u));
      Stays(UploadLaunch(u), row');
      FirstStep(Upload(u, Leaves(true)), row', Quiet(row', DropLock, next), next, row');
      FirstStep(Upload(u, Decided), row, Write(row, PhotosState.Importing, false, Some(Upload(u, Leaves(true)))),
          next, row');
      FirstStep(Upload(u, Holds), row, Quiet(row, LockAlone, Some(Upload(u, Decided))), next, row');
      FirstStep(Upload(u, Wants), row, Quiet(row, TakeLock, Some(Upload(u, Holds))), next, row');
    } else {
      EndsWith(Upload(u, Leaves(false)), row, Quiet(row, DropLock, None));
      FirstStep(Upload(u, Holds), row, Quiet(row, LockAlone, Some(Upload(u, Leaves(false)))), None, row);
      FirstStep(Upload(u, Wants), row, Quiet(row, TakeLock, Some(Upload(u, Holds))), None, row);
    }
  }

  lemma LaunchPath(u: User, row: Track)
    ensures Leads(UploadLaunch(u), row, Some(PhotosRun(u, FullImport, Queued)), row)
    ensures forall s :: s in {NotStarted, Failed, AwaitingUpload} ==>
              Leads(UploadLaunch(u), row, None, row.(photos := s, leftOut := false))
  {
    hide Leads;
    Stays(PhotosRun(u, FullImport, Queued), row);
    FirstStep(UploadLaunch(u), row, Quiet(row, LockAlone, Some(PhotosRun(u, FullImport, Queued))),
        Some(PhotosRun(u, FullImport, Queued)), row);
    forall s | s in {NotStarted, Failed, AwaitingUpload} ensures Leads(UploadLaunch(u), row, None,
        row.(photos := s, leftOut := false)) {
      EndsWith(UploadLaunch(u), row, Write(row, s, false, None));
    }
  }

  lemma WatchPath(u: User, row: Track)
    ensures Leads(Watch(u), row, None, row)
    ensures forall s :: s in {NotStarted, Failed} ==> Leads(Watch(u), row, None, row.(photos := s, leftOut := false))
    ensures Leads(Watch(u), row, Some(PhotosRun(u, TakeoutDownload, Queued)),
              row.(photos := Downloading, leftOut := false))
  {
    hide Leads;
    EndsWith(Watch(u), row, Quiet(row, LockAlone, None));
    forall s | s in {NotStarted, Failed} ensures Leads(Watch(u), row, None, row.(photos := s, leftOut := false)) {
      EndsWith(Watch(u), row, Write(row, s, false, None));
    }
    var next, row' := Some(PhotosRun(u, TakeoutDownload, Queued)), row.(photos := Downloading, leftOut := false);
    Stays(next.value, row');
    FirstStep(Watch(u), row, Write(row, Downloading, false, next), next, row');
  }

  lemma CheckPath(u: User, kind: RunKind, row: Track, passes: bool)
    requires passes ==> MayRetry(kind, row)
    ensures Leads(RetryCheck(u, kind, Wants), row, if passes then Some(RetryProbe(u, kind)) else None, row)
  {
    hide Leads;
    var next := if passes then Some(RetryProbe(u, kind)) else None;
    if passes {
      Stays(RetryProbe(u, kind), row);
      FirstStep(RetryCheck(u, kind, Leaves(true)), row, Quiet(row, DropLock, next), next, row);
    } else {
      EndsWith(RetryCheck(u, kind, Leaves(false)), row, Quiet(row, DropLock, None));
    }
    FirstStep(RetryCheck(u, kind, Holds), row, Quiet(row, LockAlone, Some(RetryCheck(u, kind, Leaves(passes)))), next,
        row);
    FirstStep(RetryCheck(u, kind, Wants), row, Quiet(row, TakeLock, Some(RetryCheck(u, kind, Holds))), next, row);
  }

  lemma ProbePath(u: User, kind: RunKind, row: Track)
    requires MayRetry(kind, row)
    ensures Leads(RetryProbe(u, kind), row, None, row)
    ensures Leads(RetryProbe(u, kind), row, None, row.(photos := NotStarted, leftOut := false))
    ensures Leads(RetryProbe(u, kind), row, Some(PhotosRun(u, kind, Queued)),
              row.(photos := PhotosState.Importing, leftOut := false))
  {
    hide Leads;
    EndsWith(RetryProbe(u, kind), row, Quiet(row, LockAlone, None));
    EndsWith(RetryProbe(u, kind), row, Write(row, NotStarted, false, None));
    var row', run := row.(photos := PhotosState.Importing, leftOut := false), Some(PhotosRun(u, kind, Queued));
    ClaimPath(u, kind, row);
    FirstStep(RetryProbe(u, kind), row, Quiet(row, LockAlone, Some(RetryClaim(u, kind, Wants))), run, row');
  }

  lemma ClaimPath(u: User, kind: RunKind, row: Track)
    requires MayRetry(kind, row)
    ensures Leads(RetryClaim(u, kind, Wants), row, Some(PhotosRun(u, kind, Queued)),
              row.(photos := PhotosState.Importing, leftOut := false))
  {
    hide Leads;
    var row', run := row.(photos := PhotosState.Importing, leftOut := false), Some(PhotosRun(u, kind, Queued));
    Stays(run.value, row');
    FirstStep(RetryLaunch(u, kind), row', Quiet(row', LockAlone, run), run, row');
    FirstStep(RetryClaim(u, kind, Leaves(true)), row', Quiet(row', DropLock, Some(RetryLaunch(u, kind))), run, row');
    FirstStep(RetryClaim(u, kind, Decided), row,
        Write(row, PhotosState.Importing, false, Some(RetryClaim(u, kind, Leaves(true)))), run, row');
    FirstStep(RetryClaim(u, kind, Holds), row, Quiet(row, LockAlone, Some(RetryClaim(u, kind, Decided))), run, row');
    FirstStep(RetryClaim(u, kind, Wants), row, Quiet(row, TakeLock, Some(RetryClaim(u, kind, Holds))), run, row');
  }

  /** The sweep, finding the row ended, can move its directory aside; and whatever it
      finds, it can leave everything as it is. */
  lemma PurgePath(u: User, row: Track)
    ensures Leads(Purge(u, Wants), row, None, row)
    ensures row.photos in {Done, Failed, Cancelled} ==>
              exists es: seq<Effect> :: Path(Purge(u, Wants), row, es, None, row) && |es| == 4 && es[2].moved
  {
    if row.photos.Terminal() {
      MovingPath(u, row);
    }
    hide Leads, Path;
    EndsWith(Purge(u, Leaves(false)), row, Quiet(row, DropLock, None));
    FirstStep(Purge(u, Holds), row, Quiet(row, LockAlone, Some(Purge(u, Leaves(false)))), None, row);
    FirstStep(Purge(u, Wants), row, Quiet(row, TakeLock, Some(Purge(u, Holds))), None, row);
  }

  lemma PurgeSteps(u: User, row: Track)
    requires row.photos.Terminal()
    ensures May(Purge(u, Wants), row, Quiet(row, TakeLock, Some(Purge(u, Holds))))
    ensures May(Purge(u, Holds), row, Quiet(row, LockAlone, Some(Purge(u, Decided))))
    ensures May(Purge(u, Decided), row, Effect(row, LockAlone, SlotAlone, Some(Purge(u, Leaves(false))), true))
    ensures May(Purge(u, Leaves(false)), row, Quiet(row, DropLock, None))
  {
  }

  lemma MovingPath(u: User, row: Track)
    requires row.photos.Terminal()
    ensures exists es: seq<Effect> :: Path(Purge(u, Wants), row, es, None, row) && |es| == 4 && es[2].moved
  {
    var leave := Quiet(row, DropLock, None);
    var es := [Quiet(row, TakeLock, Some(Purge(u, Holds))), Quiet(row, LockAlone, Some(Purge(u, Decided))),
        Effect(row, LockAlone, SlotAlone, Some(Purge(u, Leaves(false))), true), leave];
    PurgeSteps(u, row);
    hide May;
    assert es[3..] == [leave] && es[2..][1..] == es[3..] && es[1..][1..] == es[2..];
    assert Path(Purge(u, Leaves(false)), row, es[3..], None, row);
    assert Path(Purge(u, Decided), row, es[2..], None, row);
    assert Path(Purge(u, Holds), row, es[1..], None, row);
  }

  /** early: the run closes before it imports, as a download or a retry of the
      files left out can. */
  lemma RunPath(u: User, kind: RunKind, row: Track, early: bool, end: Ending)
    requires (early ==> !kind.FullImport?) && (kind.ProblemsRetry? ==> early)
    ensures Leads(PhotosRun(u, kind, Queued), row, None, Closing(row, end))
  {
    hide Leads;
    var row', closed := Closing(row, end), Some(PhotosRun(u, kind, Closed));
    EndsWith(PhotosRun(u, kind, Closed), row', Effect(row', LockAlone, GiveSlot, None, false));
    var e := Effect(row', LockAlone, SlotAlone, closed, false);
    if early {
      assert Closes(row, e, end, PhotosRun(u, kind, Closed));
      FirstStep(PhotosRun(u, kind, Working), row, e, None, row');
    } else {
      var imports, row1 := PhotosRun(u, kind, RunStage.Importing),
          row.(photos := PhotosState.Importing, leftOut := false);
      assert Closes(row1, e, end, PhotosRun(u, kind, Closed));
      FirstStep(imports, row1, e, None, row');
      FirstStep(PhotosRun(u, kind, Working), row, Write(row, PhotosState.Importing, false, Some(imports)), None, row');
    }
    var starts := Effect(row, LockAlone, TakeSlot, Some(PhotosRun(u, kind, Working)), false);
    FirstStep(PhotosRun(u, kind, Queued), row, starts, None, row');
  }

  function WriteDrive(row: Track, d: DriveState, next: Task): Effect {
    Effect(row.(drive := d), LockAlone, SlotAlone, Some(next), false)
  }

  /** A copy that has written its progress closes. */
  lemma CopyEnds(u: User, left: nat, row: Track, end: DriveEnding)
    ensures Leads(DriveRun(u, left, RunStage.Importing), row, None, row.(drive := DriveClosing(end)))
  {
    hide Leads;
    var row', closed := row.(drive := DriveClosing(end)), DriveRun(u, left, Closed);
    EndsWith(closed, row', Effect(row', LockAlone, GiveSlot, None, false));
    assert DriveWrites(row, WriteDrive(row, DriveClosing(end), closed), DriveClosing(end), closed);
    FirstStep(DriveRun(u, left, RunStage.Importing), row, WriteDrive(row, DriveClosing(end), closed), None, row');
  }

  /** One more write of its progress before that. */
  lemma CopyGoesOn(u: User, left: nat, row: Track, d: DriveState, row': Track)
    requires d.Running() && Leads(DriveRun(u, left, RunStage.Importing), row.(drive := d), None, row')
    ensures Leads(DriveRun(u, left + 1, RunStage.Importing), row, None, row')
  {
    hide Leads;
    var next := DriveRun(u, left, RunStage.Importing);
    assert DriveWrites(row, WriteDrive(row, d, next), d, next);
    FirstStep(DriveRun(u, left + 1, RunStage.Importing), row, WriteDrive(row, d, next), None, row');
  }

  lemma {:induction false} CopyTicks(u: User, ticks: nat, left: nat, row: Track, row': Track)
    requires row.drive == Copying && Leads(DriveRun(u, left, RunStage.Importing), row, None, row')
    ensures Leads(DriveRun(u, left + ticks, RunStage.Importing), row, None, row')
    decreases ticks
  {
    hide Leads;
    if ticks > 0 {
      CopyTicks(u, ticks - 1, left, row, row');
      assert row.(drive := Copying) == row;
      CopyGoesOn(u, left + ticks - 1, row, Copying, row');
    }
  }

  /** A whole copy: so many ticks, then perhaps the check, then its closing. */
  lemma DrivePath(u: User, ticks: nat, checks: bool, row: Track, end: DriveEnding)
    ensures Leads(DriveRun(u, ticks + 1, Queued), row, None, row.(drive := DriveClosing(end)))
  {
    hide Leads;
    var copying, row' := row.(drive := Copying), row.(drive := DriveClosing(end));
    if checks {
      var verifying := row.(drive := DriveVerifying);
      assert copying.(drive := DriveVerifying) == verifying && verifying.(drive := DriveClosing(end)) == row';
      CopyEnds(u, 0, verifying, end);
      CopyGoesOn(u, 0, copying, DriveVerifying, row');
    } else {
      assert copying.(drive := DriveClosing(end)) == row';
      CopyEnds(u, 1, copying, end);
    }
    CopyTicks(u, ticks, 1, copying, row');
    var working, imports := DriveRun(u, ticks + 1, Working), DriveRun(u, 1 + ticks, RunStage.Importing);
    assert DriveWrites(row, WriteDrive(row, Copying, imports), Copying, imports);
    FirstStep(working, row, WriteDrive(row, Copying, imports), None, row');
    FirstStep(DriveRun(u, ticks + 1, Queued), row, Effect(row, LockAlone, TakeSlot, Some(working), false), None, row');
  }

  /** One path after another. */
  lemma Then(t: Task, row: Track, m: Task, row1: Track, next: Option<Task>, row2: Track)
    requires Leads(t, row, Some(m), row1) && Leads(m, row1, next, row2)
    ensures Leads(t, row, next, row2)
  {
    var es :| Path(t, row, es, Some(m), row1);
    ThenAfter(t, row, es, m, row1, next, row2);
  }

  lemma {:induction false} ThenAfter(t: Task, row: Track, es: seq<Effect>, m: Task, row1: Track, next: Option<Task>,
                                     row2: Track)
    requires Path(t, row, es, Some(m), row1) && Leads(m, row1, next, row2)
    ensures Leads(t, row, next, row2)
    decreases |es|
  {
    hide May, Leads;
    if es != [] {
      ThenAfter(es[0].next.value, es[0].row, es[1..], m, row1, next, row2);
      FirstStep(t, row, es[0], next, row2);
    }
  }

  // ----- Slots -----

  function Takes(es: seq<Effect>): nat {
    if es == [] then 0 else (if es[0].slot.TakeSlot? then 1 else 0) + Takes(es[1..])
  }

  function Gives(es: seq<Effect>): nat {
    if es == [] then 0 else (if es[0].slot.GiveSlot? then 1 else 0) + Gives(es[1..])
  }

  predicate IsRun(t: Task) { t.PhotosRun? || t.DriveRun? }

  /** A run at rest: the half it worked on shows no run. */
  predicate LeftAtRest(t: Task, row: Track) {
    if t.PhotosRun? then Resting(row.photos) else DriveResting(row.drive)
  }

  /** One step of a run: it stays a run of the same half, takes its slot first and
      gives it back last, with the track at rest in between. */
  lemma RunStep(t: Task, row: Track, e: Effect)
    requires May(t, row, e) && IsRun(t)
    ensures e.slot.TakeSlot? <==> t.stage.Queued?
    ensures e.slot.GiveSlot? <==> t.stage.Closed?
    ensures t.stage.Closed? <==> e.next.None?
    ensures t.stage.Closed? ==> e.row == row
    ensures e.next.Some? ==>
              IsRun(e.next.value) && e.next.value.PhotosRun? == t.PhotosRun? && !e.next.value.stage.Queued?
    ensures e.next.Some? && e.next.value.stage.Closed? ==> LeftAtRest(t, e.row)
  {
  }

  /** Every way a run can go to its end takes exactly one slot, gives exactly one
      back, and leaves its track at rest. */
  lemma {:induction false} EveryRunEndsAtRest(t: Task, row: Track, es: seq<Effect>, row': Track)
    requires IsRun(t) && Path(t, row, es, None, row')
    requires t.stage.Closed? ==> LeftAtRest(t, row)
    ensures Takes(es) == (if t.stage.Queued? then 1 else 0) && Gives(es) == 1 && LeftAtRest(t, row')
    decreases |es|
  {
    hide May;
    RunStep(t, row, es[0]);
    if es[0].next.Some? {
      EveryRunEndsAtRest(es[0].next.value, es[0].row, es[1..], row');
    } else {
      assert es[1..] == [];
    }
  }
}
