/** All tasks together, over every interleaving of their steps. */
module ProtocolRuns {
  import opened Wrappers
  import opened PhotosRow
  import opened Protocol

  /** tasks are numbered as they start; lock names the one that holds the claim
      lock; used counts the slots taken. */
  datatype System = System(rows: map<User, Track>, tasks: map<nat, Task>, next: nat, lock: Option<nat>, used: nat,
                           limit: nat)

  datatype Event =
    | Start(task: Task)
    | Act(id: nat, effect: Effect)
    /** A button of the Drive card that starts no copy. */
    | SetDrive(user: User, drive: DriveState)
    /** The process stops; the rows it left mid-work are recovered. */
    | Restart

  predicate CanStart(s: System, t: Task) {
    && t.user in s.rows && Proper(t)
    && match t
       case Move(_, _, claim) => claim.Wants?
       case Ask(_) => true
       case Accept(_, claim) => claim.Wants?
       case RetryCheck(_, kind, claim) => claim.Wants? && !kind.TakeoutDownload?
       case Upload(_, claim) => claim.Wants?
       case Watch(u) => s.rows[u].photos == AwaitingTakeout
       case Purge(_, claim) => claim.Wants?
       case DriveRun(_, _, stage) => stage.Queued?
       case _ => false
  }

  predicate CanAct(s: System, id: nat, e: Effect) {
    && id in s.tasks && s.tasks[id].user in s.rows
    && May(s.tasks[id], s.rows[s.tasks[id].user], e)
    && (e.lock.TakeLock? ==> s.lock.None?)
    && (e.slot.TakeSlot? ==> s.used < s.limit)
  }

  predicate Enabled(s: System, ev: Event) {
    match ev
    case Start(t) => CanStart(s, t)
    case Act(id, e) => CanAct(s, id, e)
    case SetDrive(u, d) => u in s.rows && d in {Selecting, ConsentPending, DriveFailed}
    case Restart => true
  }

  function WithTask(tasks: map<nat, Task>, id: nat, next: Option<Task>): map<nat, Task> {
    if next.Some? then tasks[id := next.value] else map k | k in tasks && k != id :: tasks[k]
  }

  function After(s: System, ev: Event): System
    requires Enabled(s, ev)
  {
    match ev
    case Start(t) => s.(tasks := s.tasks[s.next := t], next := s.next + 1)
    case Act(id, e) =>
      s.(rows := s.rows[s.tasks[id].user := e.row],
         tasks := WithTask(s.tasks, id, e.next),
         lock := match e.lock case LockAlone => s.lock case TakeLock => Some(id) case DropLock => None,
         used := match e.slot
                 case SlotAlone => s.used
                 case TakeSlot => s.used + 1
                 case GiveSlot => if s.used > 0 then s.used - 1 else 0)
    case SetDrive(u, d) => s.(rows := s.rows[u := s.rows[u].(drive := d)])
    case Restart => s.(rows := map u | u in s.rows :: Recovered(s.rows[u]), tasks := map[], lock := None, used := 0)
  }

  // ----- The invariant -----

  predicate Owner(s: System, id: nat, u: User) {
    id in s.tasks && s.tasks[id].user == u && s.tasks[id].Owns()
  }

  predicate Decider(s: System, id: nat, u: User) {
    id in s.tasks && s.tasks[id].user == u && s.tasks[id].Decides()
  }

  predicate Copier(s: System, id: nat, u: User) {
    id in s.tasks && s.tasks[id].user == u && s.tasks[id].Copies()
  }

  ghost predicate IsOwned(s: System, u: User) { exists id :: Owner(s, id, u) }

  ghost predicate TasksOk(s: System) {
    forall id :: id in s.tasks ==> id < s.next && s.tasks[id].user in s.rows && Proper(s.tasks[id])
  }

  ghost predicate LockOk(s: System) {
    && (s.lock.Some? ==> s.lock.value in s.tasks)
    && forall id :: id in s.tasks ==> (s.tasks[id].Locks() <==> s.lock == Some(id))
  }

  ghost function Slots(tasks: map<nat, Task>): set<nat> {
    set id | id in tasks && tasks[id].HasSlot()
  }

  /** The slots in use are those of the runs that hold one, within the limit. */
  ghost predicate SlotsOk(s: System) {
    s.used == |Slots(s.tasks)| <= s.limit
  }

  /** No person's Photos have two owners, and the track shows a run exactly while
      it has one. */
  ghost predicate Exclusive(s: System) {
    && (forall i, j, u :: Owner(s, i, u) && Owner(s, j, u) ==> i == j)
    && (forall u :: u in s.rows ==> (s.rows[u].photos.Running() <==> IsOwned(s, u)) && s.rows[u].photos != Verifying)
  }

  /** What a task has read under the lock and will act on still holds: nobody
      owns the track. */
  ghost predicate DecisionsHold(s: System) {
    forall i, j, u :: Decider(s, i, u) ==> !Owner(s, j, u)
  }

  /** A Drive shown as being copied is. */
  ghost predicate DrivesOk(s: System) {
    forall u :: u in s.rows && s.rows[u].drive.Running() ==> exists id :: Copier(s, id, u)
  }

  ghost predicate Inv(s: System) {
    TasksOk(s) && LockOk(s) && SlotsOk(s) && Exclusive(s) && DecisionsHold(s) && DrivesOk(s)
  }

  /** A write made without the lock or a claim leaves alone a track that shows a
      run; and the watcher's claim leaves alone one that a task has read and is
      about to write. */
  ghost predicate Orderly(s: System, id: nat, e: Effect)
    requires CanAct(s, id, e)
  {
    var t := s.tasks[id];
    Unclaimed(t) && (e.row != s.rows[t.user] || Owned(e.next)) ==>
      !s.rows[t.user].photos.Running() && (Owned(e.next) ==> forall d :: !Decider(s, d, t.user))
  }

  // ----- One step -----

  lemma TasksStay(s: System, id: nat, e: Effect)
    requires TasksOk(s) && CanAct(s, id, e)
    ensures TasksOk(After(s, Act(id, e)))
  {
    hide May;
    KeepsIdentity(s.tasks[id], s.rows[s.tasks[id].user], e);
  }

  lemma LockStays(s: System, id: nat, e: Effect)
    requires TasksOk(s) && LockOk(s) && CanAct(s, id, e)
    ensures LockOk(After(s, Act(id, e)))
  {
    hide May;
    UsesLock(s.tasks[id], s.rows[s.tasks[id].user], e);
  }

  lemma SlotsStay(s: System, id: nat, e: Effect)
    requires TasksOk(s) && SlotsOk(s) && CanAct(s, id, e)
    ensures SlotsOk(After(s, Act(id, e)))
  {
    hide May, TasksOk;
    UsesSlotWhere(s, id, e);
    SlotsAfter(s.tasks, id, e.next);
    hide WithTask, Slots, CanAct;
    var before := Slots(s.tasks);
    match e.slot {
      case SlotAlone =>
        assert id in before ==> before + {id} == before;
        assert id !in before ==> before - {id} == before;
      case TakeSlot => assert |before + {id}| == |before| + 1;
      case GiveSlot => assert |before - {id}| == |before| - 1;
    }
  }

  lemma UsesSlotWhere(s: System, id: nat, e: Effect)
    requires TasksOk(s) && CanAct(s, id, e)
    ensures id in s.tasks && (id in Slots(s.tasks) <==> s.tasks[id].HasSlot())
    ensures match e.slot
            case TakeSlot => !s.tasks[id].HasSlot() && Slotted(e.next) && s.used < s.limit
            case GiveSlot => s.tasks[id].HasSlot() && !Slotted(e.next)
            case SlotAlone => s.tasks[id].HasSlot() == Slotted(e.next)
  {
    hide May;
    UsesSlot(s.tasks[id], s.rows[s.tasks[id].user], e);
  }

  lemma SlotsAfter(tasks: map<nat, Task>, id: nat, next: Option<Task>)
    requires id in tasks
    ensures Slots(WithTask(tasks, id, next)) == if Slotted(next) then Slots(tasks) + {id} else Slots(tasks) - {id}
  {
  }

  lemma DrivesStay(s: System, id: nat, e: Effect)
    requires TasksOk(s) && DrivesOk(s) && CanAct(s, id, e)
    ensures DrivesOk(After(s, Act(id, e)))
  {
    hide May;
    var s', u0 := After(s, Act(id, e)), s.tasks[id].user;
    KeepsIdentity(s.tasks[id], s.rows[u0], e);
    MovesDrive(s.tasks[id], s.rows[u0], e);
    forall u | u in s'.rows && s'.rows[u].drive.Running() ensures exists k :: Copier(s', k, u) {
      if u == u0 && CopyingOn(e.next) {
        assert Copier(s', id, u);
      } else {
        var k :| Copier(s, k, u);
        assert Copier(s', k, u);
      }
    }
  }

  /** Who owns what after a step: the others as before, the task that moved as
      its next step says. */
  lemma OwnersAfter(s: System, id: nat, e: Effect)
    requires TasksOk(s) && CanAct(s, id, e)
    ensures var s' := After(s, Act(id, e));
            && (forall k, u :: k != id ==> (Owner(s', k, u) <==> Owner(s, k, u)))
            && (forall k, u :: k != id ==> (Decider(s', k, u) <==> Decider(s, k, u)))
            && (forall u :: Owner(s', id, u) <==> u == s.tasks[id].user && Owned(e.next))
            && (forall u :: Decider(s', id, u) <==> u == s.tasks[id].user && e.next.Some? && e.next.value.Decides())
  {
    hide May;
    KeepsIdentity(s.tasks[id], s.rows[s.tasks[id].user], e);
  }

  /** Nobody else owns the track that a task is closing, claiming or writing. */
  lemma NobodyElse(s: System, id: nat, e: Effect, k: nat)
    requires Inv(s) && CanAct(s, id, e) && Orderly(s, id, e) && k != id
    requires var t := s.tasks[id];
             t.Owns() || t.Decides() || (Unclaimed(t) && (e.row != s.rows[t.user] || Owned(e.next)))
    ensures !Owner(s, k, s.tasks[id].user)
  {
    hide May;
    var t := s.tasks[id];
    if t.Owns() {
      assert Owner(s, id, t.user);
    } else if t.Decides() {
      assert Decider(s, id, t.user);
    } else {
      assert !IsOwned(s, t.user);
    }
  }

  lemma ExclusiveStays(s: System, id: nat, e: Effect)
    requires Inv(s) && CanAct(s, id, e) && Orderly(s, id, e)
    ensures Exclusive(After(s, Act(id, e)))
  {
    hide May, LockOk, SlotsOk, DrivesOk, DecisionsHold, Orderly;
    var s', t := After(s, Act(id, e)), s.tasks[id];
    OwnersAfter(s, id, e);
    MovesTrack(t, s.rows[t.user], e);
    if t.Owns() || t.Decides() || (Unclaimed(t) && (e.row != s.rows[t.user] || Owned(e.next))) {
      forall k | k != id ensures !Owner(s, k, t.user) {
        NobodyElse(s, id, e, k);
      }
    }
    hide CanAct, After;
    forall u | u in s'.rows ensures (s'.rows[u].photos.Running() <==> IsOwned(s', u))
        && s'.rows[u].photos != Verifying {
      OwnedAfter(s, id, e, s', u);
    }
  }

  lemma OwnedAfter(s: System, id: nat, e: Effect, s': System, u: User)
    requires Exclusive(s) && id in s.tasks && s.tasks[id].user in s.rows && u in s.rows
    requires s'.rows == s.rows[s.tasks[id].user := e.row]
    requires forall k, v :: k != id ==> (Owner(s', k, v) <==> Owner(s, k, v))
    requires forall v :: Owner(s', id, v) <==> v == s.tasks[id].user && Owned(e.next)
    requires e.row.photos != Verifying
    requires s.tasks[id].Owns() != Owned(e.next) || e.row.photos != s.rows[s.tasks[id].user].photos ==>
              forall k :: k != id ==> !Owner(s, k, s.tasks[id].user)
    requires Owned(e.next) ==>
              e.row.photos.Running() || (s.tasks[id].Owns() && !s.rows[s.tasks[id].user].photos.Running())
    requires !Owned(e.next) && (s.tasks[id].Owns() || e.row.photos != s.rows[s.tasks[id].user].photos) ==>
              !e.row.photos.Running()
    ensures s'.rows[u].photos.Running() <==> IsOwned(s', u)
    ensures s'.rows[u].photos != Verifying
  {
    var t := s.tasks[id];
    if t.Owns() {
      assert Owner(s, id, t.user);
    }
    if Owned(e.next) {
      assert Owner(s', id, t.user);
    }
    if IsOwned(s, u) {
      var k :| Owner(s, k, u);
      if k != id {
        assert Owner(s', k, u);
      }
    }
    if IsOwned(s', u) {
      var k :| Owner(s', k, u);
      if k != id {
        assert Owner(s, k, u);
      }
    }
  }

  lemma DecisionsStay(s: System, id: nat, e: Effect)
    requires Inv(s) && CanAct(s, id, e) && Orderly(s, id, e)
    ensures DecisionsHold(After(s, Act(id, e)))
  {
    hide May, SlotsOk, DrivesOk;
    var s', t := After(s, Act(id, e)), s.tasks[id];
    OwnersAfter(s, id, e);
    MovesTrack(t, s.rows[t.user], e);
    hide CanAct, After;
    assert e.next.Some? && e.next.value.Decides() ==> !IsOwned(s, t.user) && !Owned(e.next);
    // Only the holder of the lock has decided anything.
    assert forall i: nat, u :: Decider(s, i, u) ==> s.lock == Some(i);
    assert t.Decides() ==> s.lock == Some(id);
    assert t.Owns() ==> Owner(s, id, t.user);
  }

  /** Exactly the orderly steps keep the invariant. */
  lemma StepKeepsIffOrderly(s: System, id: nat, e: Effect)
    requires Inv(s) && CanAct(s, id, e)
    ensures Inv(After(s, Act(id, e))) <==> Orderly(s, id, e)
  {
    hide May;
    if Orderly(s, id, e) {
      hide After, LockOk, SlotsOk, TasksOk, DrivesOk, Exclusive, DecisionsHold, Orderly, CanAct;
      TasksStay(s, id, e);
      LockStays(s, id, e);
      SlotsStay(s, id, e);
      DrivesStay(s, id, e);
      ExclusiveStays(s, id, e);
      DecisionsStay(s, id, e);
    } else {
      DisorderlyBreaks(s, id, e);
    }
  }

  lemma DisorderlyBreaks(s: System, id: nat, e: Effect)
    requires Inv(s) && CanAct(s, id, e) && !Orderly(s, id, e)
    ensures !Inv(After(s, Act(id, e)))
  {
    hide May, SlotsOk, DrivesOk, LockOk;
    var s', t := After(s, Act(id, e)), s.tasks[id];
    OwnersAfter(s, id, e);
    MovesTrack(t, s.rows[t.user], e);
    if s.rows[t.user].photos.Running() {
      var k :| Owner(s, k, t.user);
      assert k != id && Owner(s', k, t.user);
      if Owned(e.next) {
        assert Owner(s', id, t.user);
      } else {
        StrayWriteRests(t, s.rows[t.user], e);
      }
    } else {
      var d :| Decider(s, d, t.user);
      assert d != id && Decider(s', d, t.user);
      assert Owner(s', id, t.user);
    }
  }

  lemma StrayWriteRests(t: Task, row: Track, e: Effect)
    requires May(t, row, e) && Unclaimed(t) && e.row != row && !Owned(e.next)
    ensures !e.row.photos.Running()
  {
  }

  // ----- Every interleaving -----

  ghost predicate Fine(s: System, ev: Event) {
    Enabled(s, ev) && (ev.Act? ==> Orderly(s, ev.id, ev.effect))
  }

  ghost predicate Possible(s: System, evs: seq<Event>)
    decreases |evs|
  {
    evs == [] || (Fine(s, evs[0]) && Possible(After(s, evs[0]), evs[1..]))
  }

  ghost function RunAll(s: System, evs: seq<Event>): System
    requires Possible(s, evs)
    decreases |evs|
  {
    if evs == [] then s else RunAll(After(s, evs[0]), evs[1..])
  }

  /** Whatever goes on, every request of a person the store knows can come, a sweep
      can list them, and a Drive copy be asked for; the watcher lists exactly those
      who wait for a Takeout. */
  lemma RequestsCanCome(s: System, u: User, ticks: nat)
    requires u in s.rows
    ensures CanStart(s, Move(u, AwaitingTakeout, Wants)) && CanStart(s, Move(u, AwaitingUpload, Wants))
    ensures CanStart(s, Ask(u)) && CanStart(s, Accept(u, Wants)) && CanStart(s, Upload(u, Wants))
    ensures CanStart(s, RetryCheck(u, FullImport, Wants)) && CanStart(s, RetryCheck(u, ProblemsRetry, Wants))
    ensures CanStart(s, Purge(u, Wants)) && CanStart(s, DriveRun(u, ticks, Queued))
    ensures CanStart(s, Watch(u)) <==> s.rows[u].photos == AwaitingTakeout
  {
  }

  /** A task that has just started claims nothing yet. */
  lemma NewTaskClaimsNothing(s: System, t: Task)
    requires CanStart(s, t)
    ensures t.user in s.rows && Proper(t) && !t.Locks() && !t.HasSlot() && !t.Owns() && !t.Decides() && !t.Copies()
  {
  }

  /** Nobody claims, owns or copies anything it did not before. */
  ghost predicate SameClaims(s: System, s': System) {
    && (forall k, u :: Owner(s', k, u) <==> Owner(s, k, u))
    && (forall k, u :: Decider(s', k, u) <==> Decider(s, k, u))
    && (forall k, u :: Copier(s', k, u) <==> Copier(s, k, u))
  }

  lemma SameClaimsKeep(s: System, s': System)
    requires Exclusive(s) && DecisionsHold(s) && DrivesOk(s) && SameClaims(s, s') && s'.rows.Keys == s.rows.Keys
    requires forall u :: u in s.rows ==>
              s'.rows[u].photos == s.rows[u].photos
              && (s'.rows[u].drive.Running() ==> s'.rows[u].drive == s.rows[u].drive)
    ensures Exclusive(s') && DecisionsHold(s') && DrivesOk(s')
  {
    hide Owner, Decider, Copier;
    forall u ensures IsOwned(s', u) <==> IsOwned(s, u) {
      if IsOwned(s, u) {
        var k :| Owner(s, k, u);
        assert Owner(s', k, u);
      }
    }
    forall u | u in s'.rows && s'.rows[u].drive.Running() ensures exists k :: Copier(s', k, u) {
      var k :| Copier(s, k, u);
      assert Copier(s', k, u);
    }
  }

  lemma StartClaimsNothing(s: System, t: Task)
    requires TasksOk(s) && CanStart(s, t)
    ensures SameClaims(s, After(s, Start(t)))
  {
    NewTaskClaimsNothing(s, t);
    hide CanStart;
  }

  lemma StartTakesNothing(s: System, t: Task)
    requires TasksOk(s) && LockOk(s) && SlotsOk(s) && CanStart(s, t)
    ensures var s' := After(s, Start(t)); TasksOk(s') && LockOk(s') && SlotsOk(s')
  {
    NewTaskClaimsNothing(s, t);
    hide CanStart;
    assert Slots(After(s, Start(t)).tasks) == Slots(s.tasks);
  }

  lemma StartKeeps(s: System, t: Task)
    requires Inv(s) && CanStart(s, t)
    ensures Inv(After(s, Start(t)))
  {
    hide CanStart, Exclusive, DecisionsHold, DrivesOk, TasksOk, LockOk, SlotsOk, SameClaims;
    StartClaimsNothing(s, t);
    StartTakesNothing(s, t);
    SameClaimsKeep(s, After(s, Start(t)));
  }

  lemma SetDriveKeeps(s: System, u: User, d: DriveState)
    requires Inv(s) && Enabled(s, SetDrive(u, d))
    ensures Inv(After(s, SetDrive(u, d)))
  {
    hide Exclusive, DecisionsHold, DrivesOk;
    var s' := After(s, SetDrive(u, d));
    assert SameClaims(s, s');
    SameClaimsKeep(s, s');
  }

  lemma RestartKeeps(s: System)
    requires Inv(s)
    ensures Inv(After(s, Restart))
  {
    var s' := After(s, Restart);
    assert Slots(s'.tasks) == {};
    assert forall k, u :: !Owner(s', k, u) && !Decider(s', k, u) && !Copier(s', k, u);
  }

  /** Over every interleaving of any number of tasks, restarts included: one
      owner a person, the track showing a run exactly while it has one, and no
      more slots in use than there are. */
  lemma {:induction false} EveryInterleavingKeeps(s: System, evs: seq<Event>)
    requires Inv(s) && Possible(s, evs)
    ensures Inv(RunAll(s, evs))
    decreases |evs|
  {
    if evs != [] {
      hide Inv, Enabled, After, Orderly;
      match evs[0] {
        case Start(t) => FineStart(s, t); StartKeeps(s, t);
        case Act(id, e) => FineAct(s, id, e); StepKeepsIffOrderly(s, id, e);
        case SetDrive(u, d) => SetDriveKeeps(s, u, d);
        case Restart => RestartKeeps(s);
      }
      EveryInterleavingKeeps(After(s, evs[0]), evs[1..]);
    }
  }

  lemma FineStart(s: System, t: Task)
    requires Fine(s, Start(t))
    ensures CanStart(s, t)
  {
  }

  lemma FineAct(s: System, id: nat, e: Effect)
    requires Fine(s, Act(id, e))
    ensures CanAct(s, id, e) && Orderly(s, id, e)
  {
  }

  lemma NothingRunsAtFirst(rows: map<User, Track>, limit: nat)
    requires forall u :: u in rows ==> !rows[u].photos.Running() && !rows[u].drive.Running()
    ensures Inv(System(rows, map[], 0, None, 0, limit))
  {
    var s := System(rows, map[], 0, None, 0, limit);
    assert Slots(s.tasks) == {};
    assert forall k, u :: !Owner(s, k, u) && !Decider(s, k, u);
  }

  /** The sweep never moves the archives of a run that has them, or is queued
      for them, aside. */
  lemma PurgeSparesRuns(s: System, id: nat, e: Effect)
    requires Inv(s) && CanAct(s, id, e) && e.moved
    ensures !IsOwned(s, s.tasks[id].user) && !s.rows[s.tasks[id].user].photos.Running()
  {
    hide May, LockOk, SlotsOk, DrivesOk;
    MovesTrack(s.tasks[id], s.rows[s.tasks[id].user], e);
    assert Decider(s, id, s.tasks[id].user);
  }

  /** No task asks for a slot while it has one. */
  lemma NoSecondSlot(s: System, id: nat, e: Effect)
    requires Inv(s) && CanAct(s, id, e) && e.slot.TakeSlot?
    ensures id !in Slots(s.tasks) && id in Slots(After(s, Act(id, e)).tasks)
  {
    hide May;
    UsesSlot(s.tasks[id], s.rows[s.tasks[id].user], e);
  }

  // ----- Everything ends -----

  /** How many steps the tasks numbered below n still take at most. */
  function Work(tasks: map<nat, Task>, n: nat): nat {
    if n == 0 then 0
    else Work(tasks, n - 1) + (if n - 1 in tasks then tasks[n - 1].Left() else 0)
  }

  lemma {:induction false} WorkDrops(tasks: map<nat, Task>, id: nat, next: Option<Task>, n: nat)
    requires id in tasks && (next.Some? ==> next.value.Left() < tasks[id].Left()) && tasks[id].Left() > 0
    ensures Work(WithTask(tasks, id, next), n) <= Work(tasks, n)
    ensures id < n ==> Work(WithTask(tasks, id, next), n) < Work(tasks, n)
  {
    if n > 0 {
      WorkDrops(tasks, id, next, n - 1);
    }
  }

  ghost predicate OnlyActs(evs: seq<Event>) { forall i :: 0 <= i < |evs| ==> evs[i].Act? }

  /** Without new requests the tasks there are take no more than so many steps. */
  lemma {:induction false} TasksEnd(s: System, evs: seq<Event>)
    requires Inv(s) && Possible(s, evs) && OnlyActs(evs)
    ensures |evs| <= Work(s.tasks, s.next)
    decreases |evs|
  {
    if evs != [] {
      hide May, LockOk, SlotsOk, Exclusive, DecisionsHold, DrivesOk, Orderly, Work;
      var id, e := evs[0].id, evs[0].effect;
      FineAct(s, id, e);
      StepKeepsIffOrderly(s, id, e);
      KeepsIdentity(s.tasks[id], s.rows[s.tasks[id].user], e);
      WorkDrops(s.tasks, id, e.next, s.next);
      TasksEnd(After(s, evs[0]), evs[1..]);
    }
  }

  /** While any task is left, one of them can move, and in order: a task waiting
      for the lock waits for one that can go on, and so does one waiting for a
      slot. */
  lemma NeverStuck(s: System)
    requires Inv(s) && s.limit > 0 && s.tasks != map[]
    ensures exists id, e :: CanAct(s, id, e) && Orderly(s, id, e)
  {
    hide May, SlotsOk, Exclusive, DecisionsHold, DrivesOk;
    if s.lock.Some? {
      Goes(s, s.lock.value);
    } else {
      var id :| id in s.tasks;
      if Waits(s.tasks[id]) && s.used >= s.limit {
        var k := SlotHolder(s);
        Goes(s, k);
      } else {
        Goes(s, id);
      }
    }
  }

  predicate Waits(t: Task) { (t.PhotosRun? || t.DriveRun?) && t.stage.Queued? }

  predicate Blocks(t: Task) {
    (t.Move? || t.Accept? || t.RetryCheck? || t.RetryClaim? || t.Upload? || t.Purge?) && t.claim.Wants?
  }

  lemma SlotHolder(s: System) returns (id: nat)
    requires SlotsOk(s) && s.used >= s.limit > 0
    ensures id in s.tasks && s.tasks[id].HasSlot() && !Waits(s.tasks[id])
  {
    assert Slots(s.tasks) != {};
    id :| id in Slots(s.tasks);
  }

  /** The step a task can take when nothing it waits for is in its way. */
  function Forward(t: Task, row: Track): Effect {
    match t
    case Move(u, target, claim) =>
      if claim.Decided? then
          Effect(row.(photos := target, leftOut := false), LockAlone, SlotAlone, Some(Move(u, target, Leaves(false))),
          false)
      else Inside(row, claim, c => Move(u, target, c), None)
    case Ask(_) => Effect(row, LockAlone, SlotAlone, None, false)
    case Accept(u, claim) =>
      if claim.Decided? then
          Effect(row.(photos := Done, leftOut := false), LockAlone, SlotAlone, Some(Accept(u, Leaves(false))), false)
      else Inside(row, claim, c => Accept(u, c), None)
    case RetryCheck(u, kind, claim) =>
      Inside(row, claim, c => RetryCheck(u, kind, c), if claim == Leaves(true) then Some(RetryProbe(u, kind)) else None)
    case RetryProbe(_, _) => Effect(row, LockAlone, SlotAlone, None, false)
    case RetryClaim(u, kind, claim) =>
      if claim.Decided? then
          Effect(row.(photos := PhotosState.Importing, leftOut := false), LockAlone, SlotAlone,
          Some(RetryClaim(u, kind, Leaves(true))), false)
      else Inside(row, claim, c => RetryClaim(u, kind, c), if claim == Leaves(true) then Some(RetryLaunch(u, kind))
          else None)
    case Upload(u, claim) =>
      if claim.Decided? then
          Effect(row.(photos := PhotosState.Importing, leftOut := false), LockAlone, SlotAlone,
          Some(Upload(u, Leaves(true))), false)
      else Inside(row, claim, c => Upload(u, c), if claim == Leaves(true) then Some(UploadLaunch(u)) else None)
    case RetryLaunch(u, kind) => Effect(row, LockAlone, SlotAlone, Some(PhotosRun(u, kind, Queued)), false)
    case UploadLaunch(u) => Effect(row, LockAlone, SlotAlone, Some(PhotosRun(u, FullImport, Queued)), false)
    case Watch(_) => Effect(row, LockAlone, SlotAlone, None, false)
    case Purge(u, claim) =>
      if claim.Decided? then Effect(row, LockAlone, SlotAlone, Some(Purge(u, Leaves(false))), true)
      else Inside(row, claim, c => Purge(u, c), None)
    case PhotosRun(u, kind, stage) =>
      (match stage
       case Queued => Effect(row, LockAlone, TakeSlot, Some(PhotosRun(u, kind, Working)), false)
       case Working =>
         if kind.ProblemsRetry? then
             Effect(row.(photos := Failed, leftOut := true), LockAlone, SlotAlone, Some(PhotosRun(u, kind, Closed)),
             false)
         else Effect(row.(photos := PhotosState.Importing, leftOut := false), LockAlone, SlotAlone,
             Some(PhotosRun(u, kind, RunStage.Importing)), false)
       case Importing => Effect(row.(photos := Done, leftOut := false), LockAlone, SlotAlone,
           Some(PhotosRun(u, kind, Closed)), false)
       case Closed => Effect(row, LockAlone, GiveSlot, None, false))
    case DriveRun(u, ticks, stage) =>
      (match stage
       case Queued => Effect(row, LockAlone, TakeSlot, Some(DriveRun(u, ticks, Working)), false)
       case Working => Effect(row.(drive := Copying), LockAlone, SlotAlone,
           Some(DriveRun(u, ticks, RunStage.Importing)), false)
       case Importing => Effect(row.(drive := DriveDone), LockAlone, SlotAlone, Some(DriveRun(u, ticks, Closed)), false)
       case Closed => Effect(row, LockAlone, GiveSlot, None, false))
  }

  function Inside(row: Track, claim: Claim, with: Claim -> Task, then_: Option<Task>): Effect {
    match claim
    case Wants => Effect(row, TakeLock, SlotAlone, Some(with(Holds)), false)
    case Holds => Effect(row, LockAlone, SlotAlone, Some(with(Leaves(false))), false)
    case Decided => Effect(row, LockAlone, SlotAlone, Some(with(Leaves(false))), false)
    case Leaves(_) => Effect(row, DropLock, SlotAlone, then_, false)
  }

  lemma ForwardMay(t: Task, row: Track)
    requires Proper(t)
    ensures var e := Forward(t, row);
            && May(t, row, e)
            && (e.lock.TakeLock? ==> Blocks(t)) && (e.slot.TakeSlot? ==> Waits(t))
            && (Unclaimed(t) ==> e.row == row && !Owned(e.next))
  {
    var e := Forward(t, row);
    match t {
      case PhotosRun(_, _, _) =>
        assert t.stage.Importing? ==> Closes(row, e, AllIn, PhotosRun(t.user, t.kind, Closed));
        assert t.stage.Working? && t.kind.ProblemsRetry? ==>
            Closes(row, e, SomeLeftOut, PhotosRun(t.user, t.kind, Closed));
      case DriveRun(u, ticks, _) =>
        assert t.stage.Importing? ==> DriveWrites(row, e, DriveClosing(Checked), DriveRun(u, ticks, Closed));
      case _ =>
    }
  }

  lemma Goes(s: System, id: nat)
    requires TasksOk(s) && id in s.tasks
    requires Blocks(s.tasks[id]) ==> s.lock.None?
    requires Waits(s.tasks[id]) ==> s.used < s.limit
    ensures exists e :: CanAct(s, id, e) && Orderly(s, id, e)
  {
    hide May, Forward;
    var t := s.tasks[id];
    ForwardMay(t, s.rows[t.user]);
    var e := Forward(t, s.rows[t.user]);
    assert CanAct(s, id, e) && Orderly(s, id, e);
  }

  /** When nothing is left to do, every track is at rest or waits for the person
      or for Google, the lock is free and every slot has been given back. */
  lemma RestAtTheEnd(s: System)
    requires Inv(s) && s.tasks == map[]
    ensures s.lock.None? && s.used == 0
    ensures forall u :: u in s.rows ==>
              && (Resting(s.rows[u].photos)
                  || s.rows[u].photos in {TakeoutGuide, AwaitingTakeout, AwaitingUpload, Cancelled})
              && (DriveResting(s.rows[u].drive) || s.rows[u].drive in {DriveNotStarted, ConsentPending})
  {
    assert Slots(s.tasks) == {};
    assert forall k, u :: !Owner(s, k, u) && !Copier(s, k, u);
  }

  /** Task i is a Photos run of this person that has not made its closing
      write. */
  predicate RunOf(s: System, i: nat, u: User) {
    i in s.tasks && s.tasks[i].user == u && s.tasks[i].PhotosRun? && !s.tasks[i].stage.Closed?
  }

  lemma OneRunAtMost(s: System)
    requires Inv(s)
    ensures s.used <= s.limit
    ensures forall i, j, u :: RunOf(s, i, u) && RunOf(s, j, u) ==> i == j
    ensures forall i, u :: RunOf(s, i, u) ==> u in s.rows && s.rows[u].photos.Running()
  {
    hide LockOk, DecisionsHold, DrivesOk, Slots;
    assert forall i, u :: RunOf(s, i, u) ==> Owner(s, i, u) && s.tasks[i].user in s.rows;
  }

  /** From a quiet start, after any interleaving: two runs of one person are one
      run, their track shows it, and the slots taken are within the limit. */
  lemma OneRunPerPerson(rows: map<User, Track>, limit: nat, evs: seq<Event>)
    requires forall u :: u in rows ==> !rows[u].photos.Running() && !rows[u].drive.Running()
    requires Possible(System(rows, map[], 0, None, 0, limit), evs)
    ensures var s := RunAll(System(rows, map[], 0, None, 0, limit), evs);
            && s.used <= s.limit
            && (forall i, j, u :: RunOf(s, i, u) && RunOf(s, j, u) ==> i == j)
            && (forall i, u :: RunOf(s, i, u) ==> u in s.rows && s.rows[u].photos.Running())
  {
    hide Possible, RunAll;
    var s0 := System(rows, map[], 0, None, 0, limit);
    NothingRunsAtFirst(rows, limit);
    EveryInterleavingKeeps(s0, evs);
    OneRunAtMost(RunAll(s0, evs));
    hide Inv;
  }
}
