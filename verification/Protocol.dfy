/** Clicks, finished uploads, sweeps and detached runs, all moving the same rows:
    every task step by step, under one claim lock and a limited number of
    slots. */
module Protocol {
  import opened Wrappers
  import opened PhotosRow

  type User = string

  datatype DriveState =
    | DriveNotStarted
    | ConsentPending
    | Selecting
    | Copying
    | DriveVerifying
    | DriveDone
    | DriveFailed
  {
    predicate Running() { this == Copying || this == DriveVerifying }
  }

  /** leftOut: Photos stopped on an import that left files out. */
  datatype Track = Track(photos: PhotosState, leftOut: bool, drive: DriveState)

  /** A row as the recovery at startup leaves it. */
  function Recovered(row: Track): Track {
    var mid := row.photos == Downloading || row.photos == PhotosState.Importing;
    Track(if mid then NotStarted else row.photos,
          row.leftOut && !mid,
          if row.drive.Running() then Selecting else row.drive)
  }

  // ----- Tasks -----

  /** A section under the claim lock: waiting for the lock, holding it, having
      read the row and decided to write it, and about to let the lock go. */
  datatype Claim = Wants | Holds | Decided | Leaves(claimed: bool)
  {
    predicate Locks() { !Wants? }

    function Left(): nat {
      match this
      case Wants => 4
      case Holds => 3
      case Decided => 2
      case Leaves(_) => 1
    }
  }

  datatype RunKind = FullImport | TakeoutDownload | ProblemsRetry

  /** A detached run: queued for a slot, holding it, importing, and with its
      closing write made. */
  datatype RunStage = Queued | Working | Importing | Closed

  datatype Task =
    /** "send the files" or "ask Google" moving the track to its wait. */
    | Move(user: User, target: PhotosState, claim: Claim)
    /** Asking for a Takeout: the credentials are proven first. */
    | Ask(user: User)
    /** "Accept" on an import that left files out. */
    | Accept(user: User, claim: Claim)
    /** A retry from the wizard: checked, probed, checked again and claimed. */
    | RetryCheck(user: User, kind: RunKind, claim: Claim)
    | RetryProbe(user: User, kind: RunKind)
    | RetryClaim(user: User, kind: RunKind, claim: Claim)
    /** The last part landed, or the sweep or "Start" saw all of them. */
    | Upload(user: User, claim: Claim)
    /** A claimed track whose run is about to be launched. */
    | RetryLaunch(user: User, kind: RunKind)
    | UploadLaunch(user: User)
    /** The Takeout watcher, having listed this person as waiting. */
    | Watch(user: User)
    /** The staging sweep, having listed this person as expired. */
    | Purge(user: User, claim: Claim)
    | PhotosRun(user: User, kind: RunKind, stage: RunStage)
    /** A Drive copy; ticks is how many more progress writes it will make. */
    | DriveRun(user: User, ticks: nat, stage: RunStage)
  {
    predicate Locks() {
      match this
      case Move(_, _, claim) => claim.Locks()
      case Accept(_, claim) => claim.Locks()
      case RetryCheck(_, _, claim) => claim.Locks()
      case RetryClaim(_, _, claim) => claim.Locks()
      case Upload(_, claim) => claim.Locks()
      case Purge(_, claim) => claim.Locks()
      case _ => false
    }

    /** Under the lock, it has read the row and will act on what it read. */
    predicate Decides() {
      match this
      case Move(_, _, claim) => claim.Decided?
      case Accept(_, claim) => claim.Decided?
      case RetryClaim(_, _, claim) => claim.Decided?
      case Upload(_, claim) => claim.Decided?
      case Purge(_, claim) => claim.Decided?
      case _ => false
    }

    /** It holds a slot. */
    predicate HasSlot() {
      (PhotosRun? || DriveRun?) && !stage.Queued?
    }

    /** The Photos track is its to close: it has claimed it, or runs it. */
    predicate Owns() {
      match this
      case RetryClaim(_, _, claim) => claim == Leaves(true)
      case Upload(_, claim) => claim == Leaves(true)
      case RetryLaunch(_, _) => true
      case UploadLaunch(_) => true
      case PhotosRun(_, _, stage) => !stage.Closed?
      case _ => false
    }

    /** A Drive copy between its first and its closing write. */
    predicate Copies() { DriveRun? && stage.Importing? }

    /** An upper bound on the steps it, and the run it launches, still take. */
    function Left(): nat {
      match this
      case Move(_, _, claim) => claim.Left()
      case Ask(_) => 5
      case Accept(_, claim) => claim.Left()
      case RetryCheck(_, _, claim) => 11 + claim.Left()
      case RetryProbe(_, _) => 11
      case RetryClaim(_, _, claim) => 6 + claim.Left()
      case Upload(_, claim) => 6 + claim.Left()
      case RetryLaunch(_, _) => 5
      case UploadLaunch(_) => 5
      case Watch(_) => 5
      case Purge(_, claim) => claim.Left()
      case PhotosRun(_, _, stage) =>
        (match stage case Queued => 4 case Working => 3 case Importing => 2 case Closed => 1)
      case DriveRun(_, ticks, stage) =>
        ticks + (match stage case Queued => 5 case Working => 4 case Importing => 3 case Closed => 1)
    }
  }

  // ----- One step of one task -----

  datatype LockUse = LockAlone | TakeLock | DropLock

  datatype SlotUse = SlotAlone | TakeSlot | GiveSlot

  /** What one step does: the row it leaves, the lock and the slot it takes or
      gives back, what becomes of the task, and whether the staging directory
      was moved aside. */
  datatype Effect = Effect(row: Track, lock: LockUse, slot: SlotUse, next: Option<Task>, moved: bool)

  predicate Resting(s: PhotosState) { s == NotStarted || s == Failed || s == Done }

  /** What a Photos run comes to: a step failed, a credential was refused, files
      were left out, or everything is in. */
  datatype Ending = StepFailed | Refused | SomeLeftOut | AllIn

  /** The row after a run's closing write. */
  function Closing(row: Track, end: Ending): Track {
    match end
    case StepFailed => row.(photos := Failed, leftOut := false)
    case Refused => row.(photos := NotStarted, leftOut := false)
    case SomeLeftOut => row.(photos := Failed, leftOut := true)
    case AllIn => row.(photos := Done, leftOut := false)
  }

  predicate Closes(row: Track, e: Effect, end: Ending, next: Task) {
    e == Effect(Closing(row, end), LockAlone, SlotAlone, Some(next), false)
  }

  /** What a Drive copy comes to: a step failed, a connection is to be renewed, or
      the copy was checked. */
  datatype DriveEnding = CopyStopped | Reconnect | Checked

  function DriveClosing(end: DriveEnding): DriveState {
    match end
    case CopyStopped => DriveFailed
    case Reconnect => Selecting
    case Checked => DriveDone
  }

  /** The row with Photos moved. Only an import that left files out leaves the
      mark of one. */
  predicate Writes(row: Track, s: PhotosState, row': Track) {
    row' == row.(photos := s, leftOut := row'.leftOut) && (row'.leftOut ==> s == Failed)
  }

  /** Nothing but the lock, the slot and the task itself changes. */
  predicate Silent(row: Track, e: Effect, lock: LockUse, slot: SlotUse, next: Option<Task>) {
    e == Effect(row, lock, slot, next, false)
  }

  /** One write, and the task goes on. */
  predicate WritesThen(row: Track, e: Effect, s: PhotosState, next: Option<Task>) {
    Writes(row, s, e.row) && e == Effect(e.row, LockAlone, SlotAlone, next, false)
  }

  predicate DriveResting(d: DriveState) { d == Selecting || d == DriveFailed || d == DriveDone }

  predicate DriveWrites(row: Track, e: Effect, d: DriveState, next: Task) {
    e == Effect(row.(drive := d), LockAlone, SlotAlone, Some(next), false)
  }

  predicate MayRetry(kind: RunKind, row: Track) {
    row.photos == Failed && (kind.ProblemsRetry? ==> row.leftOut)
  }

  /** The steps of a section under the lock: take it; decide, if the row allows,
      or refuse; let it go. The write in between is the caller's. */
  predicate Section(claim: Claim, row: Track, e: Effect, allowed: bool, with: Claim -> Task,
                    after: bool -> Option<Task>) {
    match claim
    case Wants => Silent(row, e, TakeLock, SlotAlone, Some(with(Holds)))
    case Holds =>
      Silent(row, e, LockAlone, SlotAlone, Some(with(if allowed then Decided else Leaves(false))))
      || Silent(row, e, LockAlone, SlotAlone, Some(with(Leaves(false))))
    case Decided => false
    case Leaves(claimed) => Silent(row, e, DropLock, SlotAlone, after(claimed))
  }

  /** The task may take this step on a row it finds like this. */
  predicate May(t: Task, row: Track, e: Effect) {
    match t
    case Move(u, target, claim) =>
      if claim.Decided? then WritesThen(row, e, target, Some(Move(u, target, Leaves(false))))
      else Section(claim, row, e, !row.photos.Running(), c => Move(u, target, c), _ => None)
    case Ask(u) =>
      || Silent(row, e, LockAlone, SlotAlone, None)
      || Silent(row, e, LockAlone, SlotAlone, Some(Move(u, AwaitingTakeout, Wants)))
      || WritesThen(row, e, NotStarted, None)
      || WritesThen(row, e, Failed, None)
    case Accept(u, claim) =>
      if claim.Decided? then WritesThen(row, e, Done, Some(Accept(u, Leaves(false))))
      else Section(claim, row, e, row.photos == Failed && row.leftOut, c => Accept(u, c), _ => None)
    case RetryCheck(u, kind, claim) =>
      match claim {
        case Wants => Silent(row, e, TakeLock, SlotAlone, Some(RetryCheck(u, kind, Holds)))
        case Holds => Silent(row, e, LockAlone, SlotAlone, Some(RetryCheck(u, kind, Leaves(MayRetry(kind, row)))))
                      || Silent(row, e, LockAlone, SlotAlone, Some(RetryCheck(u, kind, Leaves(false))))
        case Decided => Silent(row, e, LockAlone, SlotAlone, Some(RetryCheck(u, kind, Leaves(false))))
        case Leaves(passed) => Silent(row, e, DropLock, SlotAlone, if passed then Some(RetryProbe(u, kind)) else None)
      }
    case RetryProbe(u, kind) =>
      || Silent(row, e, LockAlone, SlotAlone, None)
      || Silent(row, e, LockAlone, SlotAlone, Some(RetryClaim(u, kind, Wants)))
      || WritesThen(row, e, NotStarted, None)
    case RetryClaim(u, kind, claim) =>
      if claim.Decided? then WritesThen(row, e, PhotosState.Importing, Some(RetryClaim(u, kind, Leaves(true))))
      else Section(claim, row, e, MayRetry(kind, row), c => RetryClaim(u, kind, c),
          claimed => if claimed then Some(RetryLaunch(u, kind)) else None)
    case Upload(u, claim) =>
      if claim.Decided? then WritesThen(row, e, PhotosState.Importing, Some(Upload(u, Leaves(true))))
      else Section(claim, row, e, row.photos == AwaitingUpload, c => Upload(u, c),
          claimed => if claimed then Some(UploadLaunch(u)) else None)
    case RetryLaunch(u, kind) => Silent(row, e, LockAlone, SlotAlone, Some(PhotosRun(u, kind, Queued)))
    case UploadLaunch(u) =>
      || Silent(row, e, LockAlone, SlotAlone, Some(PhotosRun(u, FullImport, Queued)))
      || WritesThen(row, e, NotStarted, None)
      || WritesThen(row, e, Failed, None)
      || WritesThen(row, e, AwaitingUpload, None)
    case Watch(u) =>
      || Silent(row, e, LockAlone, SlotAlone, None)
      || WritesThen(row, e, NotStarted, None)
      || WritesThen(row, e, Failed, None)
      || WritesThen(row, e, Downloading, Some(PhotosRun(u, TakeoutDownload, Queued)))
    case Purge(u, claim) =>
      if claim.Decided? then
        || e == Effect(row, LockAlone, SlotAlone, Some(Purge(u, Leaves(false))), true)
        || Silent(row, e, LockAlone, SlotAlone, Some(Purge(u, Leaves(false))))
      else Section(claim, row, e, row.photos.Terminal(), c => Purge(u, c), _ => None)
    case PhotosRun(u, kind, stage) =>
      match stage {
        case Queued => Silent(row, e, LockAlone, TakeSlot, Some(PhotosRun(u, kind, Working)))
        case Working =>
          || (!kind.ProblemsRetry?
              && WritesThen(row, e, PhotosState.Importing, Some(PhotosRun(u, kind, RunStage.Importing))))
          || (!kind.FullImport? && exists end :: Closes(row, e, end, PhotosRun(u, kind, Closed)))
        case Importing => exists end :: Closes(row, e, end, PhotosRun(u, kind, Closed))
        case Closed => Silent(row, e, LockAlone, GiveSlot, None)
      }
    case DriveRun(u, ticks, stage) =>
      match stage {
        case Queued => Silent(row, e, LockAlone, TakeSlot, Some(DriveRun(u, ticks, Working)))
        case Working => DriveWrites(row, e, Copying, DriveRun(u, ticks, RunStage.Importing))
        case Importing =>
          || (ticks > 0 && exists d: DriveState ::
                d.Running() && DriveWrites(row, e, d, DriveRun(u, ticks - 1, RunStage.Importing)))
          || (exists end :: DriveWrites(row, e, DriveClosing(end), DriveRun(u, ticks, Closed)))
        case Closed => Silent(row, e, LockAlone, GiveSlot, None)
      }
  }

  /** What any step of a task does to its claims on the lock, the slots and the
      rows. */
  predicate Owned(next: Option<Task>) { next.Some? && next.value.Owns() }

  predicate Locking(next: Option<Task>) { next.Some? && next.value.Locks() }

  predicate Slotted(next: Option<Task>) { next.Some? && next.value.HasSlot() }

  predicate CopyingOn(next: Option<Task>) { next.Some? && next.value.Copies() }

  predicate Proper(t: Task) {
    && (t.Move? ==> t.target == AwaitingTakeout || t.target == AwaitingUpload)
    && (t.RetryCheck? ==> !t.claim.Decided?)
  }

  /** The three tasks that write the row without the lock or a claim. */
  predicate Unclaimed(t: Task) { t.Ask? || t.RetryProbe? || t.Watch? }

  lemma KeepsIdentity(t: Task, row: Track, e: Effect)
    requires May(t, row, e) && Proper(t)
    ensures e.next.Some? ==> e.next.value.user == t.user && Proper(e.next.value) && e.next.value.Left() < t.Left()
    ensures t.Left() > 0
  {
    hide May;
    KeepsUser(t, row, e);
    GoesDown(t, row, e);
  }

  lemma KeepsUser(t: Task, row: Track, e: Effect)
    requires May(t, row, e) && Proper(t)
    ensures e.next.Some? ==> e.next.value.user == t.user && Proper(e.next.value)
  {
  }

  lemma GoesDown(t: Task, row: Track, e: Effect)
    requires May(t, row, e) && Proper(t)
    ensures e.next.Some? ==> e.next.value.Left() < t.Left()
    ensures t.Left() > 0
  {
    hide Writes;
  }

  lemma UsesLock(t: Task, row: Track, e: Effect)
    requires May(t, row, e) && Proper(t)
    ensures match e.lock
            case TakeLock => !t.Locks() && Locking(e.next)
            case DropLock => t.Locks() && !Locking(e.next)
            case LockAlone => t.Locks() == Locking(e.next)
  {
  }

  lemma UsesSlot(t: Task, row: Track, e: Effect)
    requires May(t, row, e) && Proper(t)
    ensures match e.slot
            case TakeSlot => !t.HasSlot() && Slotted(e.next)
            case GiveSlot => t.HasSlot() && !Slotted(e.next)
            case SlotAlone => t.HasSlot() == Slotted(e.next)
  {
  }

  /** A track is claimed by a task that has decided to, or by the watcher, and
      shows a run from then on; its owner's closing write ends that. */
  lemma ClaimsAndCloses(t: Task, row: Track, e: Effect)
    requires May(t, row, e) && Proper(t)
    ensures Owned(e.next) && !t.Owns() ==> e.row.photos.Running() && (t.Decides() || t.Watch?)
    ensures !Owned(e.next) && t.Owns() ==> !e.row.photos.Running()
    ensures Owned(e.next) && t.Owns() && row.photos.Running() ==> e.row.photos.Running()
  {
  }

  /** Any other write leaves the track at rest or waiting. */
  lemma OtherWrites(t: Task, row: Track, e: Effect)
    requires May(t, row, e) && Proper(t)
    ensures row.photos != Verifying ==> e.row.photos != Verifying
    ensures !Owned(e.next) && !t.Owns() ==>
              e.row.photos == row.photos || (!e.row.photos.Running() && (t.Decides() || Unclaimed(t)))
  {
  }

  /** A decision is made under the lock, on a track that shows no run. */
  lemma DecidesUnderLock(t: Task, row: Track, e: Effect)
    requires May(t, row, e) && Proper(t)
    ensures e.next.Some? && e.next.value.Decides() ==> t.Locks() && !row.photos.Running() && e.row == row
    ensures e.moved ==> t.Decides() && e.row == row
  {
  }

  lemma MovesTrack(t: Task, row: Track, e: Effect)
    requires May(t, row, e) && Proper(t) && row.photos != Verifying
    ensures e.row.photos != Verifying
    ensures Owned(e.next) && !t.Owns() ==> e.row.photos.Running() && (t.Decides() || t.Watch?)
    ensures !Owned(e.next) && t.Owns() ==> !e.row.photos.Running()
    ensures Owned(e.next) && t.Owns() && row.photos.Running() ==> e.row.photos.Running()
    ensures !Owned(e.next) && !t.Owns() ==>
              e.row.photos == row.photos || (!e.row.photos.Running() && (t.Decides() || Unclaimed(t)))
    ensures e.next.Some? && e.next.value.Decides() ==> t.Locks() && !row.photos.Running() && e.row == row
    ensures e.moved ==> t.Decides() && e.row == row
  {
    hide May;
    ClaimsAndCloses(t, row, e);
    OtherWrites(t, row, e);
    DecidesUnderLock(t, row, e);
  }

  lemma MovesDrive(t: Task, row: Track, e: Effect)
    requires May(t, row, e) && Proper(t)
    ensures e.row.drive.Running() ==> CopyingOn(e.next) || (e.row.drive == row.drive && !t.Copies())
  {
  }

  /** Whatever its last step was, a run leaves its track at rest, with its slot
      still to give back; that is its only step left. */
  lemma RunsCloseAtRest(t: Task, row: Track, e: Effect)
    requires May(t, row, e) && e.next.Some? && t.HasSlot()
    ensures e.next.value.HasSlot()
    ensures e.next.value.PhotosRun? && e.next.value.stage.Closed? ==> Resting(e.row.photos)
    ensures e.next.value.DriveRun? && e.next.value.stage.Closed? ==> DriveResting(e.row.drive)
    ensures !t.stage.Closed?
  {
  }
}
