/** The runner's own operations on a person's row, each run without
    interruption: what it does, and that it does so in the steps of the
    protocol. */
module RunnerOps {
  import opened Wrappers
  import opened PhotosRow
  import opened Protocol
  import opened ProtocolPaths
  import opened ImmichLog
  import opened Extraction
  import opened ImportOutcome
  import RetryChains
  import opened Sets
  import DriveTicks

  /** What came of launching a claimed import. */
  datatype Launch = Launched | CredentialRefused | KeyGone | KeyUnreadable | Transient

  /** What the watcher found for a person waiting for a Takeout. */
  datatype Found = NotYet | WaitedTooLong | TokenUnreadable | TokenRefused | Complete

  /** What the probe of the Immich key before a retry comes to. */
  datatype Probe = KeyWorks | NoKey | KeyRefused | KeyNotRead | NotConfigured

  // ----- What the steps of a run come to -----

  /** How immich-go ended; after a failure Immich is asked whether it still takes
      the key. */
  datatype Exit = Clean | Broke(keyRefused: bool)

  datatype ImmichRun = ImmichRun(exit: Exit, report: Report, named: seq<Problem>)
  {
    predicate KeyRefused() { exit.Broke? && exit.keyRefused }

    /** It ended cleanly, or failed after it had printed its report. */
    predicate Judged() { !KeyRefused() && (exit.Clean? || report.Reached()) }
  }

  /** What looking into one archive comes to. */
  datatype Archive = HoldsMedia | HoldsNone | Unreadable | Cancelled

  datatype Validation = Real | Rejected(unreadable: bool) | NotRead

  /** A full import: the archives found, if they could be listed, and the key. */
  datatype ImportSteps = ImportSteps(archives: Option<seq<Archive>>, key: bool, run: ImmichRun)
  {
    /** immich-go is started. */
    predicate Starts() { archives.Some? && IsTakeout(archives.value) && key }
  }

  datatype Download = NoStaging | RcloneFails(tokenRefused: bool) | Downloaded

  /** A retry of the files left out: its folder, the archives, and the copies that
      break. */
  datatype RetrySteps = RetrySteps(key: bool, folder: bool, staging: Staging, breaks: Breaks, run: ImmichRun)

  datatype Grant = NotGranted | GrantUnreadable | Granted

  datatype Quota = QuotaRefused | QuotaFails | QuotaRead

  datatype CopyResult = CopyFails(googleRefuses: bool, nextcloudRefuses: bool) | Copied

  datatype Comparison = NotCompared | Compared(checked: int, mismatch: int)

  datatype DriveSteps = DriveSteps(
    tokenOpens: bool, grant: Grant, configured: bool, envBuilt: bool, quota: Quota,
    ticks: seq<DriveTicks.Tick>, copy: CopyResult, comparison: Comparison)
  {
    /** rclone is started. */
    predicate Starts() { tokenOpens && grant.Granted? && configured && envBuilt && quota.QuotaRead? }

    predicate Verified() {
      Starts() && copy.Copied? && comparison.Compared? && comparison.checked > 0 && comparison.mismatch == 0
    }

    /** Some step asks for a connection to be renewed. */
    predicate Reconnects() {
      tokenOpens
      && (grant.NotGranted?
          || (grant.Granted? && configured && envBuilt
              && (quota.QuotaRefused?
                  || (quota.QuotaRead? && copy.CopyFails? && (copy.googleRefuses || copy.nextcloudRefuses)))))
    }
  }

  /** A set of archives is a Takeout when one of them holds a photo or a video, and
      looking into none before it was cut short. */
  predicate IsTakeout(archives: seq<Archive>) {
    exists i :: 0 <= i < |archives| && FirstMedia(archives, i)
  }

  predicate FirstMedia(archives: seq<Archive>, i: nat)
    requires i < |archives|
  {
    archives[i].HoldsMedia? && forall j :: 0 <= j < i ==> !archives[j].Cancelled?
  }

  /** Looking stops at the first archive that holds media, or at which it was cut
      short; a rejection says whether one could not be read. */
  method ValidateArchives(archives: seq<Archive>) returns (v: Validation)
    ensures v.Real? <==> IsTakeout(archives)
    ensures v.Real? <==>
              exists i :: 0 <= i < |archives| && archives[i].HoldsMedia?
                          && forall j :: 0 <= j < i ==> archives[j].HoldsNone? || archives[j].Unreadable?
    ensures v.NotRead? <==>
              exists i :: 0 <= i < |archives| && archives[i].Cancelled?
                          && forall j :: 0 <= j < i ==> archives[j].HoldsNone? || archives[j].Unreadable?
    ensures v.Rejected? ==> (v.unreadable <==> exists i :: 0 <= i < |archives| && archives[i].Unreadable?)
  {
    var unreadable := false;
    var i := 0;
    while i < |archives|
      invariant i <= |archives| && forall j :: 0 <= j < i ==> archives[j].HoldsNone? || archives[j].Unreadable?
      invariant unreadable <==> exists j :: 0 <= j < i && archives[j].Unreadable?
    {
      match archives[i] {
        case Cancelled =>
          assert forall j :: 0 <= j < |archives| && FirstMedia(archives, j) ==> j < i;
          return NotRead;
        case HoldsMedia =>
          assert FirstMedia(archives, i);
          return Real;
        case Unreadable => unreadable := true;
        case HoldsNone =>
      }
      i := i + 1;
    }
    return Rejected(unreadable);
  }

  /** Photos moved, without the mark of files left out. */
  function Reset(row: Track, s: PhotosState): Track { row.(photos := s, leftOut := false) }

  /** Nothing but this person's Photos changed. */
  ghost predicate OnlyPhotosMoved(before: map<User, Track>, after: map<User, Track>, user: User) {
    && before.Keys == after.Keys && user in before
    && after == before[user := before[user].(photos := after[user].photos, leftOut := after[user].leftOut)]
  }

  ghost predicate OnlyDriveMoved(before: map<User, Track>, after: map<User, Track>, user: User) {
    before.Keys == after.Keys && user in before && after == before[user := before[user].(drive := after[user].drive)]
  }

  /** Every file left out is found and copied, nothing is reported wrong, and as
      many are processed or discarded. */
  predicate RetryIsDone(prev: Verify, steps: RetrySteps) {
    && steps.key && steps.folder && prev.problems != [] && steps.run.Judged()
    && (forall i :: 0 <= i < |prev.problems| ==> Extraction.Copied(steps.staging, prev.problems, steps.breaks, i))
    && steps.run.report.errors == 0 && steps.run.report.pending == 0
    && steps.run.report.processed + steps.run.report.discarded >= |prev.problems|
  }

  /** Nothing is missing exactly when everything was copied. */
  lemma NoneMissing(missing: seq<Problem>, lost: seq<nat>, staging: Staging, problems: seq<Problem>, breaks: Breaks)
    requires Reports(missing, lost, staging, problems, breaks, All(|problems|))
    ensures missing == [] <==> forall i :: 0 <= i < |problems| ==> Extraction.Copied(staging, problems, breaks, i)
    ensures problems == [] ==> missing == []
  {
    hide Extraction.Copied;
    if missing == [] {
      assert forall i :: 0 <= i < |problems| ==> i in All(|problems|) && i !in lost;
    } else {
      assert lost[0] in lost;
    }
  }

  /** All are missing exactly when none was copied. */
  lemma AllMissing(missing: seq<Problem>, lost: seq<nat>, staging: Staging, problems: seq<Problem>, breaks: Breaks)
    requires Reports(missing, lost, staging, problems, breaks, All(|problems|))
    ensures |missing| == |problems| <==>
              forall i :: 0 <= i < |problems| ==> !Extraction.Copied(staging, problems, breaks, i)
  {
    hide Extraction.Copied;
    SizeOfAll(|problems|);
    DistinctSize(lost);
    var gone, all := SetOf(lost), All(|problems|);
    assert gone <= all && forall i :: i in all ==> (i in gone <==> !Extraction.Copied(staging, problems, breaks, i));
    hide Reports, SetOf, All;
    if |gone| == |all| {
      EqualBySize(gone, all);
    }
    if forall i :: 0 <= i < |problems| ==> !Extraction.Copied(staging, problems, breaks, i) {
      assert gone == all;
    }
  }

  lemma MissingAreOfList(missing: seq<Problem>, lost: seq<nat>, problems: seq<Problem>)
    requires LostThese(problems, missing, lost)
    ensures MissingOf(missing, problems)
  {
    forall p | p in missing ensures p.missing && FoundBefore(p, problems) {
      var k :| 0 <= k < |missing| && missing[k] == p;
      assert problems[lost[k]] in problems;
    }
  }

  /** Each is one of the problems, and is said to be missing. */
  ghost predicate MissingOf(missing: seq<Problem>, problems: seq<Problem>) {
    forall p :: p in missing ==> p.missing && FoundBefore(p, problems)
  }

  ghost predicate FoundBefore(p: Problem, problems: seq<Problem>) {
    exists q :: q in problems && p.file == q.file && p.pending == q.pending && p.reason == q.reason
  }

  lemma NoneLeftToRetry(v: Verify, problems: seq<Problem>)
    requires MissingOf(v.problems, problems)
    ensures !v.CanRetryProblems()
  {
  }

  /** The retry ends without having been able to send a file: the counts stay, every
      file is marked missing, and no retry is offered again. */
  ghost predicate NothingSent(prev: Verify, v: Verify) {
    && v.checked == prev.checked && v.matched == prev.matched && v.mismatch == prev.mismatch
    && |v.problems| == |prev.problems| && MissingOf(v.problems, prev.problems)
    && !v.CanRetryProblems()
  }

  /** Some file of the list is copied out of its archive. */
  ghost predicate AnyCopied(prev: Verify, steps: RetrySteps) {
    exists i :: 0 <= i < |prev.problems| && Extraction.Copied(steps.staging, prev.problems, steps.breaks, i)
  }

  /** The record a retry leaves that has sent something: immich-go's outcome folded
      in, unless it failed before it could say anything. */
  ghost predicate RecordOfRun(prev: Verify, steps: RetrySteps, before: Verify, after: Verify) {
    var r := steps.run.report;
    if steps.run.exit == Broke(true)
        || (steps.run.exit.Broke? && r.processed == r.discarded == r.errors == r.pending == 0) then after == before
    else
      exists missing, lost :: Reports(missing, lost, steps.staging, prev.problems, steps.breaks, All(|prev.problems|))
          && after == Folded(r, steps.run.named, Retry(prev, missing))
  }

  /** A retry that stops early leaves the record as it was. */
  lemma StoppedIsARetry(prev: Verify)
    ensures prev.CanRetryProblems() ==> RetryChains.FromRetry(prev, prev)
  {
    if prev.CanRetryProblems() {
      assert RetryChains.Permitted(prev, RetryChains.Stopped);
      assert RetryChains.AfterAttempt(prev, RetryChains.Stopped) == prev;
    }
  }

  /** When breaking copies respect files, the retry folder makes it one the runner
      lets through, whatever the report. */
  lemma ReportedIsARetry(prev: Verify, missing: seq<Problem>, lost: seq<nat>, staging: Staging, breaks: Breaks,
                         report: Report, named: seq<Problem>)
    requires Reports(missing, lost, staging, prev.problems, breaks, All(|prev.problems|))
    requires prev.CanRetryProblems() && BreaksByFile(staging, prev.problems, breaks)
    ensures RetryChains.FromRetry(prev, Folded(report, named, Retry(prev, missing)))
    ensures |missing| == |prev.problems| ==> RetryChains.FromRetry(prev, prev.(problems := missing))
  {
    hide Reports, Folded;
    ReportedAreLost(missing, lost, staging, prev.problems, breaks);
    LostByFileExact(missing, lost, staging, prev.problems, breaks);
    assert RetryChains.SplitByFile(prev.problems, missing);
    RetryChains.AnyReportIsARetry(prev, missing, report, named);
    if |missing| == |prev.problems| {
      assert RetryChains.Permitted(prev, RetryChains.FoundNone(missing));
      assert RetryChains.AfterAttempt(prev, RetryChains.FoundNone(missing)) == prev.(problems := missing);
    }
  }

  class Runner {
    var rows: map<User, Track>
    /** How many slots there are, and how many are taken. */
    const limit: nat
    var used: nat
    /** How often a slot was taken, and given back. */
    ghost var taken: nat
    ghost var given: nat

    constructor (rows: map<User, Track>, limit: nat)
      ensures this.rows == rows && this.limit == limit && used == 0
    {
      this.rows, this.limit, used := rows, limit, 0;
    }

    /** It waits for a free slot; what follows is after the wait. */
    method Acquire()
      requires used < limit
      modifies this`used, this`taken
      ensures used == old(used) + 1 && taken == old(taken) + 1
    {
      used, taken := used + 1, taken + 1;
    }

    method Release()
      requires used > 0
      modifies this`used, this`given
      ensures used == old(used) - 1 && given == old(given) + 1
    {
      used, given := used - 1, given + 1;
    }

    method SetDriveState(user: User, d: DriveState)
      requires user in rows
      modifies this`rows
      ensures rows == old(rows)[user := old(rows[user]).(drive := d)]
    {
      rows := rows[user := rows[user].(drive := d)];
    }

    method SetPhotosState(user: User, s: PhotosState, leftOut: bool)
      requires user in rows
      modifies this`rows
      ensures rows == old(rows)[user := old(rows[user]).(photos := s, leftOut := leftOut)]
    {
      rows := rows[user := rows[user].(photos := s, leftOut := leftOut)];
    }

    method SetPhotosUnlessRunning(user: User, target: PhotosState) returns (moved: bool)
      requires user in rows
      modifies this`rows
      ensures moved <==> !old(rows[user]).photos.Running()
      ensures moved <==> old(rows[user]).photos !in {Downloading, PhotosState.Importing, Verifying}
      ensures rows == if moved then old(rows)[user := Reset(old(rows[user]), target)] else old(rows)
      ensures Leads(Move(user, target, Wants), old(rows[user]), None, rows[user])
    {
      ghost var row := rows[user];
      moved := !rows[user].photos.Running();
      if moved {
        SetPhotosState(user, target, false);
      }
      MovePath(user, target, row);
    }

    /** Only an import that left files out can be accepted. */
    method AcceptPhotos(user: User) returns (accepted: bool)
      requires user in rows
      modifies this`rows
      ensures accepted <==> old(rows[user]).photos == Failed && old(rows[user]).leftOut
      ensures rows == if accepted then old(rows)[user := Reset(old(rows[user]), Done)] else old(rows)
      ensures Leads(Accept(user, Wants), old(rows[user]), None, rows[user])
    {
      ghost var row := rows[user];
      accepted := rows[user].photos == Failed && rows[user].leftOut;
      if accepted {
        SetPhotosState(user, Done, false);
      }
      AcceptPath(user, row);
    }

    /** complete: every declared part is on disk. */
    method ClaimForImport(user: User, complete: bool) returns (claimed: bool)
      requires user in rows
      modifies this`rows
      ensures claimed <==> old(rows[user]).photos == AwaitingUpload && complete
      ensures rows == if claimed then old(rows)[user := Reset(old(rows[user]), PhotosState.Importing)] else old(rows)
      ensures Leads(Upload(user, Wants), old(rows[user]), if claimed then Some(UploadLaunch(user))
                else None, rows[user])
    {
      ghost var row := rows[user];
      UploadPath(user, row, complete);
      if rows[user].photos != AwaitingUpload {
        return false;
      }
      if !complete {
        return false;
      }
      SetPhotosState(user, PhotosState.Importing, false);
      return true;
    }

    /** The claim, and what is done with it when the launch fails: the track is
        left where the person can act next. */
    method StartUploadedImport(user: User, complete: bool, launch: Launch) returns (started: bool)
      requires user in rows
      modifies this`rows
      ensures started <==> old(rows[user]).photos == AwaitingUpload && complete && launch.Launched?
      ensures forall u :: u in rows && u != user ==> u in old(rows) && rows[u] == old(rows[u])
      ensures rows.Keys == old(rows).Keys
      ensures old(rows[user]).photos == AwaitingUpload && complete ==>
                rows[user].photos == match launch
                                     case Launched => PhotosState.Importing
                                     case CredentialRefused => NotStarted
                                     case KeyGone => Failed
                                     case KeyUnreadable => Failed
                                     case Transient => AwaitingUpload
      ensures !(old(rows[user]).photos == AwaitingUpload && complete) ==> rows == old(rows)
      ensures Leads(Upload(user, Wants), old(rows[user]), if started then Some(PhotosRun(user, FullImport, Queued))
                else None, rows[user])
    {
      hide Leads;
      ghost var row := rows[user];
      var claimed := ClaimForImport(user, complete);
      if !claimed {
        return false;
      }
      ghost var held := rows[user];
      LaunchPath(user, held);
      started := launch.Launched?;
      match launch {
        case Launched =>
        case CredentialRefused => SetPhotosState(user, NotStarted, false);
        case KeyGone => SetPhotosState(user, Failed, false);
        case KeyUnreadable => SetPhotosState(user, Failed, false);
        case Transient => SetPhotosState(user, AwaitingUpload, false);
      }
      Then(Upload(user, Wants), row, UploadLaunch(user), held,
          if started then Some(PhotosRun(user, FullImport, Queued)) else None, rows[user]);
    }

    /** The watcher's tick for one person it has listed as waiting. */
    method CheckTakeout(user: User, found: Found) returns (downloads: bool)
      requires user in rows
      modifies this`rows
      ensures downloads <==> found.Complete?
      ensures rows == match found
                      case NotYet => old(rows)
                      case Complete => old(rows)[user := Reset(old(rows[user]), Downloading)]
                      case TokenRefused => old(rows)[user := Reset(old(rows[user]), NotStarted)]
                      case _ => old(rows)[user := Reset(old(rows[user]), Failed)]
      ensures Leads(Watch(user), old(rows[user]), if downloads then Some(PhotosRun(user, TakeoutDownload, Queued))
                else None, rows[user])
    {
      ghost var row := rows[user];
      WatchPath(user, row);
      downloads := found.Complete?;
      match found {
        case NotYet =>
        case WaitedTooLong => SetPhotosState(user, Failed, false);
        case TokenUnreadable => SetPhotosState(user, Failed, false);
        case TokenRefused => SetPhotosState(user, NotStarted, false);
        case Complete => SetPhotosState(user, Downloading, false);
      }
    }

    /** A button on a stopped card: checked, probed, checked again and claimed.
        allowed is what the check reads besides the state. */
    method LaunchFromWizard(user: User, kind: RunKind, allowed: bool, probe: Probe) returns (launched: bool)
      requires user in rows && !kind.TakeoutDownload?
      modifies this`rows
      ensures launched <==> MayRetry(kind, old(rows[user])) && allowed && probe.KeyWorks?
      ensures launched <==>
                && old(rows[user]).photos == Failed && (kind.ProblemsRetry? ==> old(rows[user]).leftOut)
                && allowed && probe.KeyWorks?
      ensures rows == if !MayRetry(kind, old(rows[user])) || !allowed || probe.NotConfigured? || probe.KeyNotRead?
                      then old(rows)
                      else if launched then old(rows)[user := Reset(old(rows[user]), PhotosState.Importing)]
                      else old(rows)[user := Reset(old(rows[user]), NotStarted)]
      ensures Leads(RetryCheck(user, kind, Wants), old(rows[user]),
                if launched then Some(PhotosRun(user, kind, Queued)) else None, rows[user])
    {
      ghost var row := rows[user];
      if !MayRetry(kind, rows[user]) || !allowed {
        CheckPath(user, kind, row, false);
        return false;
      }
      CheckPath(user, kind, row, true);
      ProbePath(user, kind, row);
      launched := probe.KeyWorks?;
      match probe {
        case NotConfigured =>
        case KeyNotRead =>
        case NoKey => SetPhotosState(user, NotStarted, false);
        case KeyRefused => SetPhotosState(user, NotStarted, false);
        case KeyWorks => SetPhotosState(user, PhotosState.Importing, false);
      }
      Then(RetryCheck(user, kind, Wants), row, RetryProbe(user, kind), row,
          if launched then Some(PhotosRun(user, kind, Queued)) else None, rows[user]);
    }

    // ----- The runs -----

    /** finishPhotosImport: the record decides between done and failed. */
    method FinishPhotosImport(user: User, ledger: Ledger, run: ImmichRun, retry: Option<Retry>)
        returns (ghost end: Ending)
      requires user in rows
      modifies this`rows, ledger
      ensures rows == old(rows)[user := Closing(old(rows[user]), end)] && !end.Refused?
      ensures end.AllIn? <==> (retry.Some? || run.report.Reached()) && Left(run.report, retry) == 0
      ensures end.SomeLeftOut? <==> Left(run.report, retry) > 0
      ensures ledger.verify == if retry.Some? || run.report.Reached() then Outcome(run.report, run.named, retry)
                else old(ledger.verify)
    {
      hide Pending, Mapped;
      ledger.FinishPhotosImport(run.report, run.named, retry);
      match ledger.stop {
        case Empty =>
          SetPhotosState(user, Failed, false);
          end := StepFailed;
        case LeftOut(_, _) =>
          SetPhotosState(user, Failed, true);
          end := SomeLeftOut;
        case Finished =>
          SetPhotosState(user, Done, false);
          end := AllIn;
      }
    }

    method ImportWithImmichGo(user: User, ledger: Ledger, run: ImmichRun, retry: Option<Retry>)
        returns (ghost end: Ending)
      requires user in rows
      modifies this`rows, ledger
      ensures rows == old(rows)[user := Closing(old(rows[user]), end)]
      ensures end.Refused? <==> run.KeyRefused()
      ensures end.AllIn? <==> run.Judged() && (retry.Some? || run.report.Reached()) && Left(run.report, retry) == 0
      ensures end.SomeLeftOut? <==> !run.KeyRefused() && if run.Judged() then Left(run.report, retry) > 0
                else retry.Some?
      ensures ledger.verify == if run.Judged()
                && (retry.Some? || run.report.Reached()) then Outcome(run.report, run.named, retry)
                               else old(ledger.verify)
      ensures run.exit == Broke(true) ==> end.Refused? && ledger.verify == old(ledger.verify)
      ensures var r := run.report;
              r.processed == r.discarded == r.errors == r.pending == 0 && run.exit != Broke(true) ==>
                if run.exit.Broke? || retry.None? then
                  ledger.verify == old(ledger.verify) && end == if retry.Some? then SomeLeftOut else StepFailed
                else ledger.verify == Folded(r, run.named, retry.value)
      ensures var r := run.report;
              !(r.processed == r.discarded == r.errors == r.pending == 0) && run.exit != Broke(true) ==>
                && (end.AllIn? || end.SomeLeftOut?)
                && ledger.verify == if retry.Some? then Folded(r, run.named, retry.value) else Recorded(r, run.named)
    {
      if run.exit.Broke? {
        if run.exit.keyRefused {
          SetPhotosState(user, NotStarted, false);
          return Refused;
        }
        if run.report.Reached() {
          end := FinishPhotosImport(user, ledger, run, retry);
          return;
        }
        if retry.Some? {
          SetPhotosState(user, Failed, true);
          return SomeLeftOut;
        }
        SetPhotosState(user, Failed, false);
        return StepFailed;
      }
      end := FinishPhotosImport(user, ledger, run, retry);
    }

    /** The import, on a slot that is held. */
    method RunPhotosImportHeld(user: User, ledger: Ledger, steps: ImportSteps) returns (ghost end: Ending)
      requires user in rows
      modifies this`rows, ledger
      ensures rows == old(rows)[user := Closing(old(rows[user]), end)]
      ensures end.Refused? <==> steps.Starts() && steps.run.KeyRefused()
      ensures end.AllIn? <==>
                steps.Starts() && steps.run.Judged() && steps.run.report.Reached() && Left(steps.run.report, None) == 0
      ensures end.SomeLeftOut? <==> steps.Starts() && steps.run.Judged() && Left(steps.run.report, None) > 0
      ensures ledger.verify == if steps.Starts() && steps.run.Judged() && steps.run.report.Reached()
                               then Recorded(steps.run.report, steps.run.named) else old(ledger.verify)
      ensures steps.archives.None? || !IsTakeout(steps.archives.value) || !steps.key ==>
                end.StepFailed? && ledger.verify == old(ledger.verify)
      ensures steps.archives.Some? && IsTakeout(steps.archives.value) && steps.key ==>
                && (end.Refused? <==> steps.run.exit == Broke(true))
                && (end.StepFailed? <==> steps.run.exit != Broke(true) && steps.run.report == Report(0, 0, 0, 0))
    {
      SetPhotosState(user, PhotosState.Importing, false);
      if steps.archives.None? {
        SetPhotosState(user, Failed, false);
        return StepFailed;
      }
      if |steps.archives.value| == 0 {
        SetPhotosState(user, Failed, false);
        return StepFailed;
      }
      var v := ValidateArchives(steps.archives.value);
      if v.NotRead? {
        SetPhotosState(user, Failed, false);
        return StepFailed;
      }
      if v.Rejected? {
        SetPhotosState(user, Failed, false);
        return StepFailed;
      }
      if !steps.key {
        SetPhotosState(user, Failed, false);
        return StepFailed;
      }
      end := ImportWithImmichGo(user, ledger, steps.run, None);
    }

    /** The import of what was uploaded, whichever step fails: the track ends at
        rest, done exactly when nothing was left out, and one slot is taken and
        given back. */
    method RunPhotosImport(user: User, ledger: Ledger, steps: ImportSteps)
      requires user in rows && used < limit
      modifies this, ledger
      ensures used == old(used) && taken == old(taken) + 1 && given == old(given) + 1
      ensures OnlyPhotosMoved(old(rows), rows, user) && Resting(rows[user].photos)
      ensures Leads(PhotosRun(user, FullImport, Queued), old(rows[user]), None, rows[user])
      ensures rows[user].photos == Done <==>
                steps.Starts() && steps.run.Judged() && steps.run.report.Reached() && Left(steps.run.report, None) == 0
      ensures rows[user].photos == NotStarted <==> steps.Starts() && steps.run.KeyRefused()
      ensures rows[user].leftOut <==> steps.Starts() && steps.run.Judged() && Left(steps.run.report, None) > 0
      ensures ledger.verify == if steps.Starts() && steps.run.Judged() && steps.run.report.Reached()
                               then Recorded(steps.run.report, steps.run.named) else old(ledger.verify)
    {
      ghost var row := rows[user];
      Acquire();
      ghost var end := RunPhotosImportHeld(user, ledger, steps);
      RunPath(user, FullImport, row, false, end);
      Release();
    }

    /** The download from the person's Drive and the import of what it brought, on
        one slot. */
    method RunTakeoutDownload(user: User, ledger: Ledger, download: Download, steps: ImportSteps)
      requires user in rows && used < limit
      modifies this, ledger
      ensures used == old(used) && taken == old(taken) + 1 && given == old(given) + 1
      ensures OnlyPhotosMoved(old(rows), rows, user) && Resting(rows[user].photos)
      ensures Leads(PhotosRun(user, TakeoutDownload, Queued), old(rows[user]), None, rows[user])
      ensures rows[user].photos == Done <==>
                && download.Downloaded? && steps.Starts() && steps.run.Judged()
                && steps.run.report.Reached() && Left(steps.run.report, None) == 0
      ensures rows[user].photos == NotStarted <==>
                || (download.RcloneFails? && download.tokenRefused)
                || (download.Downloaded? && steps.Starts() && steps.run.KeyRefused())
      ensures rows[user].leftOut <==>
                download.Downloaded? && steps.Starts() && steps.run.Judged() && Left(steps.run.report, None) > 0
      ensures ledger.verify == if download.Downloaded? && steps.Starts() && steps.run.Judged()
                && steps.run.report.Reached()
                               then Recorded(steps.run.report, steps.run.named) else old(ledger.verify)
    {
      ghost var row, end := rows[user], StepFailed;
      Acquire();
      match download {
        case NoStaging =>
          SetPhotosState(user, Failed, false);
        case RcloneFails(tokenRefused) =>
          if tokenRefused {
            SetPhotosState(user, NotStarted, false);
            end := Refused;
          } else {
            SetPhotosState(user, Failed, false);
          }
        case Downloaded =>
          end := RunPhotosImportHeld(user, ledger, steps);
      }
      RunPath(user, TakeoutDownload, row, !download.Downloaded?, end);
      Release();
    }

    /** The retry of the files an import left out. It ends in done exactly when
        every one of them was found and copied, nothing was reported wrong, and as
        many were processed or discarded. */
    method RunProblemsRetry(user: User, ledger: Ledger, prev: Verify, steps: RetrySteps)
      requires user in rows && used < limit && prev.mismatch >= 0
      modifies this, ledger
      ensures used == old(used) && taken == old(taken) + 1 && given == old(given) + 1
      ensures OnlyPhotosMoved(old(rows), rows, user) && Resting(rows[user].photos)
      ensures Leads(PhotosRun(user, ProblemsRetry, Queued), old(rows[user]), None, rows[user])
      ensures rows[user].photos == Done <==> RetryIsDone(prev, steps)
      ensures rows[user].photos == Failed && !rows[user].leftOut <==> !steps.key
      ensures rows[user].photos == NotStarted <==>
                steps.key && steps.folder && AnyCopied(prev, steps) && steps.run.exit == Broke(true)
      ensures steps.key && steps.folder && !AnyCopied(prev, steps) ==>
                rows[user].photos == Failed && rows[user].leftOut && NothingSent(prev, ledger.verify)
      ensures steps.key && steps.folder && AnyCopied(prev, steps) ==>
                RecordOfRun(prev, steps, old(ledger.verify), ledger.verify)
      ensures !steps.key || !steps.folder ==> ledger.verify == old(ledger.verify)
      ensures old(ledger.verify) == prev && prev.CanRetryProblems()
              && BreaksByFile(steps.staging, prev.problems, steps.breaks) ==>
                RetryChains.FromRetry(prev, ledger.verify)
    {
      hide RetryChains.FromRetry, BreaksByFile, AnyCopied, RecordOfRun, NothingSent, RetryIsDone;
      ghost var row := rows[user];
      Acquire();
      ghost var end := RetryHeld(user, ledger, prev, steps);
      RunPath(user, ProblemsRetry, row, true, end);
      Release();
    }

    /** The retry on a slot that is held. */
    method RetryHeld(user: User, ledger: Ledger, prev: Verify, steps: RetrySteps) returns (ghost end: Ending)
      requires user in rows && prev.mismatch >= 0
      modifies this`rows, ledger
      ensures rows == old(rows)[user := Closing(old(rows[user]), end)]
      ensures end.AllIn? <==> RetryIsDone(prev, steps)
      ensures end.StepFailed? <==> !steps.key
      ensures end.Refused? <==> steps.key && steps.folder && AnyCopied(prev, steps) && steps.run.exit == Broke(true)
      ensures steps.key && steps.folder && !AnyCopied(prev, steps) ==>
                end.SomeLeftOut? && NothingSent(prev, ledger.verify)
      ensures steps.key && steps.folder && AnyCopied(prev, steps) ==>
                RecordOfRun(prev, steps, old(ledger.verify), ledger.verify)
      ensures !steps.key || !steps.folder ==> ledger.verify == old(ledger.verify)
      ensures old(ledger.verify) == prev && prev.CanRetryProblems()
              && BreaksByFile(steps.staging, prev.problems, steps.breaks) ==>
                RetryChains.FromRetry(prev, ledger.verify)
    {
      hide Extraction.Holds, Reports, Extraction.Copied, Folded, Pending, RetryChains.FromRetry, BreaksByFile;
      hide MissingOf;
      StoppedIsARetry(prev);
      if !steps.key {
        SetPhotosState(user, Failed, false);
        return StepFailed;
      }
      if !steps.folder {
        SetPhotosState(user, Failed, true);
        return SomeLeftOut;
      }
      var folder, missing; ghost var lost;
      folder, missing, lost := ExtractProblems(steps.staging, prev.problems, steps.breaks);
      NoneMissing(missing, lost, steps.staging, prev.problems, steps.breaks);
      AllMissing(missing, lost, steps.staging, prev.problems, steps.breaks);
      ReportedAreLost(missing, lost, steps.staging, prev.problems, steps.breaks);
      MissingAreOfList(missing, lost, prev.problems);
      if prev.CanRetryProblems() && BreaksByFile(steps.staging, prev.problems, steps.breaks) {
        ReportedIsARetry(prev, missing, lost, steps.staging, steps.breaks, steps.run.report, steps.run.named);
      }
      if |missing| == |prev.problems| {
        ledger.NothingFound(Retry(prev, missing));
        NoneLeftToRetry(ledger.verify, prev.problems);
        SetPhotosState(user, Failed, true);
        return SomeLeftOut;
      }
      DoneExact(steps.run.report, steps.run.named, Retry(prev, missing));
      LeftIsMismatch(steps.run.report, steps.run.named, Retry(prev, missing));
      end := ImportWithImmichGo(user, ledger, steps.run, Some(Retry(prev, missing)));
    }

    /** The copy of a person's Drive, whichever step fails: verified exactly when
        every step works and the comparison finds nothing wrong, back to the
        connections exactly when one is to be renewed. full: the reason shown is a
        full Nextcloud. */
    method RunDrive(user: User, steps: DriveSteps) returns (full: bool)
      requires user in rows && used < limit
      modifies this
      ensures used == old(used) && taken == old(taken) + 1 && given == old(given) + 1
      ensures OnlyDriveMoved(old(rows), rows, user) && DriveResting(rows[user].drive)
      ensures Leads(DriveRun(user, |steps.ticks| + 1, Queued), old(rows[user]), None, rows[user])
      ensures rows[user].drive == DriveDone <==> steps.Verified()
      ensures rows[user].drive == Selecting <==> steps.Reconnects()
      ensures full <==> steps.Starts() && steps.copy == CopyFails(false, false)
                        && DriveTicks.StuckOn(steps.ticks, DriveTicks.NextcloudFull)
    {
      ghost var row := rows[user];
      Acquire();
      ghost var end, checks;
      end, full, checks := CopyDrive(user, steps);
      DrivePath(user, |steps.ticks|, checks, row, end);
      Release();
    }

    /** The copy on a slot that is held. */
    method CopyDrive(user: User, steps: DriveSteps) returns (ghost end: DriveEnding, full: bool, ghost checks: bool)
      requires user in rows
      modifies this`rows
      ensures rows == old(rows)[user := old(rows[user]).(drive := DriveClosing(end))]
      ensures end.Checked? <==> steps.Verified()
      ensures end.Checked? <==>
                && steps.tokenOpens && steps.grant == Granted && steps.configured && steps.envBuilt
                && steps.quota == QuotaRead && steps.copy == CopyResult.Copied
                && steps.comparison.Compared? && steps.comparison.checked > 0 && steps.comparison.mismatch == 0
      ensures end.Reconnect? <==> steps.Reconnects()
      ensures end.Reconnect? <==>
                || (steps.tokenOpens && steps.grant == NotGranted)
                || (steps.tokenOpens && steps.grant == Granted && steps.configured && steps.envBuilt
                    && steps.quota == QuotaRefused)
                || (steps.tokenOpens && steps.grant == Granted && steps.configured && steps.envBuilt
                    && steps.quota == QuotaRead
                    && steps.copy.CopyFails? && (steps.copy.googleRefuses || steps.copy.nextcloudRefuses))
      ensures full <==> steps.Starts() && steps.copy == CopyFails(false, false)
                        && DriveTicks.StuckOn(steps.ticks, DriveTicks.NextcloudFull)
    {
      hide DriveTicks.SetAt, DriveTicks.StuckOn;
      full, checks := false, false;
      SetDriveState(user, DriveState.Copying);
      var ended := PrepareDrive(user, steps);
      if ended.Some? {
        return ended.value, false, false;
      }
      var stuck := FollowTicks(user, steps.ticks);
      if steps.copy.CopyFails? {
        if steps.copy.googleRefuses || steps.copy.nextcloudRefuses {
          SetDriveState(user, Selecting);
          return Reconnect, false, false;
        }
        SetDriveState(user, DriveFailed);
        return CopyStopped, stuck == Some(DriveTicks.NextcloudFull), false;
      }
      SetDriveState(user, DriveVerifying);
      if steps.comparison.NotCompared? {
        SetDriveState(user, DriveFailed);
        return CopyStopped, false, true;
      }
      if !(steps.comparison.checked > 0 && steps.comparison.mismatch == 0) {
        SetDriveState(user, DriveFailed);
        return CopyStopped, false, true;
      }
      SetDriveState(user, DriveDone);
      return Checked, false, true;
    }

    /** The steps before rclone. */
    method PrepareDrive(user: User, steps: DriveSteps) returns (ended: Option<DriveEnding>)
      requires user in rows
      modifies this`rows
      ensures rows == if ended.None? then old(rows)
                else old(rows)[user := old(rows[user]).(drive := DriveClosing(ended.value))]
      ensures ended.None? <==> steps.Starts()
      ensures ended == Some(Reconnect) <==> steps.Reconnects() && !steps.Starts()
      ensures ended != Some(Checked)
    {
      if !steps.tokenOpens {
        SetDriveState(user, DriveFailed);
        return Some(CopyStopped);
      }
      if steps.grant.NotGranted? {
        SetDriveState(user, Selecting);
        return Some(Reconnect);
      }
      if steps.grant.GrantUnreadable? {
        SetDriveState(user, DriveFailed);
        return Some(CopyStopped);
      }
      if !steps.configured {
        SetDriveState(user, DriveFailed);
        return Some(CopyStopped);
      }
      if !steps.envBuilt {
        SetDriveState(user, DriveFailed);
        return Some(CopyStopped);
      }
      if steps.quota.QuotaRefused? {
        SetDriveState(user, Selecting);
        return Some(Reconnect);
      }
      if steps.quota.QuotaFails? {
        SetDriveState(user, DriveFailed);
        return Some(CopyStopped);
      }
      return None;
    }

    /** Every stats line is followed, and writes the progress. */
    method FollowTicks(user: User, ticks: seq<DriveTicks.Tick>) returns (stuck: Option<DriveTicks.Reason>)
      requires user in rows && rows[user].drive == DriveState.Copying
      modifies this`rows
      ensures rows == old(rows) && (stuck.Some? ==> DriveTicks.SetAt(ticks, stuck.value))
      ensures forall why :: stuck == Some(why) <==> DriveTicks.StuckOn(ticks, why)
    {
      hide DriveTicks.SetAt, DriveTicks.FailedSince, DriveTicks.FilesOf, DriveTicks.BytesOf, DriveTicks.Before;
      var copy := new DriveTicks.Copy();
      var i := 0;
      assert ticks[..0] == [];
      while i < |ticks|
        invariant i <= |ticks| && rows == old(rows) && fresh(copy) && copy.Follows(ticks[..i])
      {
        assert ticks[..i + 1] == ticks[..i] + [ticks[i]];
        copy.OnTick(ticks[i], ticks[..i]);
        SetDriveState(user, DriveState.Copying);
        i := i + 1;
      }
      assert ticks[..i] == ticks;
      DriveTicks.StuckExact(ticks, copy.stuck);
      return copy.stuck;
    }

    /** One row of the recovery: each half that was mid-work. */
    method RecoverRow(u: User)
      requires u in rows
      modifies this`rows
      ensures rows == old(rows)[u := Recovered(old(rows[u]))]
    {
      if rows[u].drive == Copying || rows[u].drive == DriveVerifying {
        SetDriveState(u, Selecting);
      }
      if rows[u].photos == Downloading || rows[u].photos == PhotosState.Importing {
        SetPhotosState(u, NotStarted, false);
      }
    }

    /** The recovery at startup, row by row in any order. */
    method RecoverInterrupted()
      modifies this`rows
      ensures rows.Keys == old(rows).Keys && forall u :: u in rows ==> rows[u] == Recovered(old(rows[u]))
      ensures forall u :: u in rows ==>
                var row, stopped := old(rows[u]), old(rows[u]).photos in {Downloading, PhotosState.Importing};
                && rows[u].photos == (if stopped then NotStarted else row.photos)
                && rows[u].leftOut == (row.leftOut && !stopped)
                && rows[u].drive == if row.drive in {Copying, DriveVerifying} then Selecting else row.drive
    {
      var todo := rows.Keys;
      while todo != {}
        invariant todo <= rows.Keys == old(rows).Keys
        invariant forall u :: u in rows ==> rows[u] == if u in todo then old(rows[u]) else Recovered(old(rows[u]))
        decreases |todo|
      {
        var u :| u in todo;
        RecoverRow(u);
        todo := todo - {u};
      }
    }
  }
}
