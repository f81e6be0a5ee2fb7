/** A call that nothing interrupts, seen among all tasks; and what one write made
    without the lock or a claim leads to. */
module StrayWrites {
  import opened Wrappers
  import PhotosRow
  import opened Protocol
  import opened ProtocolPaths
  import opened ProtocolRuns

  /** s' comes after s in orderly steps. */
  ghost predicate Arrives(s: System, s': System) {
    exists evs :: Possible(s, evs) && RunAll(s, evs) == s'
  }

  lemma NoEvents(s: System)
    ensures Arrives(s, s)
  {
    assert Possible(s, []) && RunAll(s, []) == s;
  }

  lemma OneEvent(s: System, ev: Event, s': System)
    requires Fine(s, ev) && Arrives(After(s, ev), s')
    ensures Arrives(s, s')
  {
    hide Enabled, After;
    var evs :| Possible(After(s, ev), evs) && RunAll(After(s, ev), evs) == s';
    assert ([ev] + evs)[1..] == evs;
    assert Possible(s, [ev] + evs) && RunAll(s, [ev] + evs) == s';
  }

  lemma ArrivesThen(s: System, m: System, s': System)
    requires Arrives(s, m) && Arrives(m, s')
    ensures Arrives(s, s')
  {
    var evs :| Possible(s, evs) && RunAll(s, evs) == m;
    ArrivesAfter(s, evs, m, s');
  }

  lemma {:induction false} ArrivesAfter(s: System, evs: seq<Event>, m: System, s': System)
    requires Possible(s, evs) && RunAll(s, evs) == m && Arrives(m, s')
    ensures Arrives(s, s')
    decreases |evs|
  {
    hide Enabled, After, Arrives;
    if evs != [] {
      ArrivesAfter(After(s, evs[0]), evs[1..], m, s');
      OneEvent(s, evs[0], s');
    }
  }

  // ----- One call among all tasks -----

  /** Nothing is in the way of task k: the lock is free or its own, nobody else has
      decided anything, a slot is free or its own, and no other task runs the track. */
  ghost predicate Unhindered(s: System, k: nat) {
    && k in s.tasks && s.tasks[k].user in s.rows && Proper(s.tasks[k])
    && s.lock == (if s.tasks[k].Locks() then Some(k) else None)
    && (if s.tasks[k].HasSlot() then 0 < s.used <= s.limit else s.used < s.limit)
    && (s.tasks[k].Owns() || !s.rows[s.tasks[k].user].photos.Running())
    && !s.rows[s.tasks[k].user].photos.Verifying?
    && forall d, u :: Decider(s, d, u) ==> d == k
  }

  /** Task k has gone on until next is left of it. */
  function GoneOn(s: System, k: nat, next: Option<Task>, row': Track): System
    requires k in s.tasks && (s.tasks[k].HasSlot() ==> 0 < s.used)
  {
    s.(rows := s.rows[s.tasks[k].user := row'],
       tasks := WithTask(s.tasks, k, next),
       lock := if Locking(next) then Some(k) else None,
       used := s.used - (if s.tasks[k].HasSlot() then 1 else 0) + (if Slotted(next) then 1 else 0))
  }

  /** One step of an unhindered task is orderly, and leaves it unhindered. */
  lemma StepUnhindered(s: System, k: nat, e: Effect)
    requires Unhindered(s, k) && May(s.tasks[k], s.rows[s.tasks[k].user], e)
    ensures Fine(s, Act(k, e)) && After(s, Act(k, e)) == GoneOn(s, k, e.next, e.row)
    ensures e.next.Some? ==> Unhindered(After(s, Act(k, e)), k) && e.next.value.user == s.tasks[k].user
  {
    hide May;
    var t, row := s.tasks[k], s.rows[s.tasks[k].user];
    KeepsIdentity(t, row, e);
    UsesLock(t, row, e);
    UsesSlot(t, row, e);
    MovesTrack(t, row, e);
    assert Unclaimed(t) ==> !t.Owns() && !t.Decides();
    assert Fine(s, Act(k, e));
    var s' := After(s, Act(k, e));
    assert forall d, u :: d != k && Decider(s', d, u) ==> Decider(s, d, u);
  }

  /** What a task does when nothing comes in between, it does among all the others
      in orderly steps, and changes nothing but its row, the lock and its slot. */
  lemma CallIsARun(s: System, k: nat, next: Option<Task>, row': Track)
    requires Unhindered(s, k) && Leads(s.tasks[k], s.rows[s.tasks[k].user], next, row')
    ensures Arrives(s, GoneOn(s, k, next, row'))
  {
    hide May;
    var es :| Path(s.tasks[k], s.rows[s.tasks[k].user], es, next, row');
    PathIsARun(s, k, es, next, row');
  }

  lemma {:induction false} PathIsARun(s: System, k: nat, es: seq<Effect>, next: Option<Task>, row': Track)
    requires Unhindered(s, k) && Path(s.tasks[k], s.rows[s.tasks[k].user], es, next, row')
    ensures Arrives(s, GoneOn(s, k, next, row'))
    decreases |es|
  {
    hide May, Arrives, Fine;
    if es == [] {
      assert s.rows[s.tasks[k].user := row'] == s.rows && s.tasks[k := s.tasks[k]] == s.tasks;
      NoEvents(s);
    } else {
      var e := es[0];
      StepUnhindered(s, k, e);
      var s1 := GoneOn(s, k, e.next, e.row);
      if e.next.Some? {
        PathIsARun(s1, k, es[1..], next, row');
        assert GoneOn(s1, k, next, row') == GoneOn(s, k, next, row') by {
          assert WithTask(s1.tasks, k, next) == WithTask(s.tasks, k, next);
        }
      } else {
        NoEvents(s1);
      }
      hide Unhindered, GoneOn;
      OneEvent(s, Act(k, e), GoneOn(s, k, next, row'));
    }
  }

  // ----- One stray write is enough -----

  /** Nobody has the lock, and a slot is free. */
  ghost predicate Still(s: System) {
    TasksOk(s) && LockOk(s) && s.lock.None? && s.used < s.limit
  }

  /** A new task t has gone on until next is left of it. */
  function Called(s: System, t: Task, next: Option<Task>, row': Track): System {
    s.(rows := s.rows[t.user := row'],
       tasks := if next.Some? then s.tasks[s.next := next.value] else s.tasks,
       next := s.next + 1)
  }

  predicate CanCall(s: System, t: Task, next: Option<Task>) {
    && CanStart(s, t) && !s.rows[t.user].photos.Running()
    && (next.Some? ==> next.value.user == t.user && Proper(next.value))
    && !Locking(next) && !Slotted(next)
  }

  lemma CallFromStill(s: System, t: Task, next: Option<Task>, row': Track)
    requires Still(s) && CanCall(s, t, next) && Leads(t, s.rows[t.user], next, row')
    ensures var s' := Called(s, t, next, row'); Arrives(s, s') && Still(s')
  {
    hide Leads, Arrives;
    NewTaskClaimsNothing(s, t);
    hide CanStart;
    var s1, k := After(s, Start(t)), s.next;
    StartTakesNothingStill(s, t);
    CallIsARun(s1, k, next, row');
    assert GoneOn(s1, k, next, row') == Called(s, t, next, row') by {
      assert WithTask(s1.tasks, k, next) == if next.Some? then s.tasks[k := next.value] else s.tasks;
    }
    OneEvent(s, Start(t), Called(s, t, next, row'));
  }

  lemma StartTakesNothingStill(s: System, t: Task)
    requires Still(s) && CanStart(s, t) && !s.rows[t.user].photos.Running()
    ensures Unhindered(After(s, Start(t)), s.next)
  {
    NewTaskClaimsNothing(s, t);
    hide CanStart;
    assert forall d, u :: Decider(s, d, u) ==> s.tasks[d].Locks();
  }

  /** "Send the files", and all of them landing, launch an import of a person whose
      track shows none. */
  lemma ImportLaunches(s: System, u: User) returns (z: System, i: nat)
    requires Still(s) && u in s.rows && !s.rows[u].photos.Running()
    ensures Arrives(s, z) && Still(z) && u in z.rows && z.rows[u].photos.Importing?
    ensures s.next <= i < z.next && RunOf(z, i, u)
    ensures forall k :: k in s.tasks ==> k in z.tasks && z.tasks[k] == s.tasks[k]
  {
    hide Leads, Arrives, Still;
    var row := s.rows[u];
    var waits, runs := row.(photos := PhotosRow.AwaitingUpload, leftOut := false),
        row.(photos := PhotosRow.PhotosState.Importing, leftOut := false);
    var run := Some(PhotosRun(u, FullImport, Queued));
    MovePath(u, PhotosRow.AwaitingUpload, row);
    CallFromStill(s, Move(u, PhotosRow.AwaitingUpload, Wants), None, waits);
    var m := Called(s, Move(u, PhotosRow.AwaitingUpload, Wants), None, waits);
    UploadPath(u, waits, true);
    LaunchPath(u, runs);
    Then(Upload(u, Wants), waits, UploadLaunch(u), runs, run, runs);
    CallFromStill(m, Upload(u, Wants), run, runs);
    z, i := Called(m, Upload(u, Wants), run, runs), m.next;
    ArrivesThen(s, m, z);
    StillNumbers(s);
  }

  lemma StillNumbers(s: System)
    requires Still(s)
    ensures forall k :: k in s.tasks ==> k < s.next
  {
  }

  /** Task k is about to write the row of a person whose track shows no run. An
      import is launched first; then the write is not orderly, and after it a second
      import is launched beside the first. */
  lemma StrayWriteGivesTwoRuns(s: System, k: nat) returns (m: System, e: Effect, z: System, i: nat, j: nat)
    requires Still(s) && k in s.tasks && Unclaimed(s.tasks[k]) && !s.rows[s.tasks[k].user].photos.Running()
    ensures k in m.tasks && m.tasks[k] == s.tasks[k]
    ensures Arrives(s, m) && CanAct(m, k, e) && !Orderly(m, k, e)
    ensures Arrives(After(m, Act(k, e)), z)
    ensures i != j && RunOf(z, i, s.tasks[k].user) && RunOf(z, j, s.tasks[k].user)
  {
    var t, u := s.tasks[k], s.tasks[k].user;
    hide Arrives;
    m, i := ImportLaunches(s, u);
    e := Write(m.rows[u], PhotosRow.NotStarted, false, None);
    assert m.tasks[k] == t && i != k;
    assert CanAct(m, k, e) && !Orderly(m, k, e);
    TasksStay(m, k, e);
    LockStays(m, k, e);
    var after := After(m, Act(k, e));
    z, j := ImportLaunches(after, u);
    assert RunOf(after, i, u);
  }

  // ----- From a quiet start -----

  /** Each of the three writers gets there: somebody asking for a Takeout, the
      probe before a retry, and the watcher. */
  lemma WriterArrives(s: System, t: Task) returns (s': System, k: nat)
    requires Still(s) && t.user in s.rows && !s.rows[t.user].photos.Running()
    requires Unclaimed(t) && (t.RetryProbe? ==> t.kind.FullImport?)
    ensures Arrives(s, s') && Still(s') && k in s'.tasks && s'.tasks[k] == t
    ensures t.user in s'.rows && !s'.rows[t.user].photos.Running()
  {
    hide Leads, Arrives, Still;
    var u, row := t.user, s.rows[t.user];
    match t {
      case Ask(_) =>
        Stays(t, row);
        CallFromStill(s, t, Some(t), row);
        s', k := Called(s, t, Some(t), row), s.next;
      case Watch(_) =>
        var waits := row.(photos := PhotosRow.AwaitingTakeout, leftOut := false);
        var asked := Move(u, PhotosRow.AwaitingTakeout, Wants);
        MovePath(u, PhotosRow.AwaitingTakeout, row);
        CallFromStill(s, asked, None, waits);
        var m := Called(s, asked, None, waits);
        Stays(t, waits);
        CallFromStill(m, t, Some(t), waits);
        s', k := Called(m, t, Some(t), waits), m.next;
        ArrivesThen(s, m, s');
      case RetryProbe(_, _) =>
        var failed := row.(photos := PhotosRow.Failed, leftOut := false);
        EndsWith(Ask(u), row, Write(row, PhotosRow.Failed, false, None));
        CallFromStill(s, Ask(u), None, failed);
        var m := Called(s, Ask(u), None, failed);
        CheckPath(u, FullImport, failed, true);
        CallFromStill(m, RetryCheck(u, FullImport, Wants), Some(t), failed);
        s', k := Called(m, RetryCheck(u, FullImport, Wants), Some(t), failed), m.next;
        ArrivesThen(s, m, s');
    }
  }

  /** From any quiet start, for every person and each of the three writers: orderly
      steps lead to where its write is not orderly, and after that one step orderly
      steps lead to two unfinished imports of that person. */
  lemma OneStrayWriteIsEnough(rows: map<User, Track>, limit: nat, t: Task)
      returns (m: System, k: nat, e: Effect, z: System, i: nat, j: nat)
    requires forall u :: u in rows ==> !rows[u].photos.Running() && !rows[u].drive.Running()
    requires limit > 0 && t.user in rows && Unclaimed(t) && (t.RetryProbe? ==> t.kind.FullImport?)
    ensures Arrives(System(rows, map[], 0, None, 0, limit), m) && Inv(m)
    ensures k in m.tasks && m.tasks[k] == t && CanAct(m, k, e) && !Orderly(m, k, e)
    ensures Arrives(After(m, Act(k, e)), z) && i != j && RunOf(z, i, t.user) && RunOf(z, j, t.user)
  {
    hide Arrives, Inv, Still, Orderly, CanAct, RunOf;
    var s0 := System(rows, map[], 0, None, 0, limit);
    NothingRunsAtFirst(rows, limit);
    QuietIsStill(s0);
    var s, n := WriterArrives(s0, t);
    k := n;
    m, e, z, i, j := StrayWriteGivesTwoRuns(s, k);
    ArrivesThen(s0, s, m);
    ArrivesKeeps(s0, m);
  }

  lemma QuietIsStill(s: System)
    requires Inv(s) && s.tasks == map[] && s.limit > 0
    ensures Still(s)
  {
    assert Slots(s.tasks) == {};
  }

  lemma ArrivesKeeps(s: System, m: System)
    requires Inv(s) && Arrives(s, m)
    ensures Inv(m)
  {
    hide Inv, Possible, RunAll;
    var evs :| Possible(s, evs) && RunAll(s, evs) == m;
    EveryInterleavingKeeps(s, evs);
  }
}
