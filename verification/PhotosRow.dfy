/** The Photos half of a person's row: its state, and the stamp the staging
    retention runs from. */
module PhotosRow {
  import opened Wrappers

  datatype PhotosState =
    | NotStarted
    | TakeoutGuide
    | AwaitingTakeout
    | AwaitingUpload
    | Downloading
    | Importing
    | Verifying
    | Done
    | Failed
    | Cancelled
  {
    predicate Terminal() { this == Done || this == Failed || this == Cancelled }

    /** A Photos run holds the track, or is queued for it. */
    predicate Running() { this == Importing || this == Downloading || this == Verifying }
  }

  /** finishedAt is when the present ended stretch was first stamped, waitSince
      when the present wait for a Takeout began. */
  datatype Photos = Photos(state: PhotosState, finishedAt: Option<nat>, waitSince: Option<nat>)

  function AfterSet(p: Photos, state: PhotosState, now: nat): Photos {
    Photos(state,
           if !state.Terminal() then None else if p.finishedAt.None? then Some(now) else p.finishedAt,
           if state == AwaitingTakeout then Some(now) else None)
  }

  function AfterStamp(p: Photos, now: nat): Photos {
    p.(finishedAt := if p.finishedAt.None? then Some(now) else p.finishedAt)
  }

  /** Ended, stamped, and the window gone by. */
  predicate Expired(p: Photos, retention: nat, now: nat) {
    p.finishedAt.Some? && p.finishedAt.value + retention <= now
  }

  class Row {
    var state: PhotosState
    var finishedAt: Option<nat>
    var waitSince: Option<nat>

    function Value(): Photos reads this { Photos(state, finishedAt, waitSince) }

    constructor ()
      ensures Value() == Photos(NotStarted, None, None)
    {
      state, finishedAt, waitSince := NotStarted, None, None;
    }

    method SetPhotosState(next: PhotosState, now: nat)
      modifies this
      ensures Value() == AfterSet(old(Value()), next, now)
      ensures state == next && waitSince == if next == AwaitingTakeout then Some(now) else None
      ensures finishedAt == if next !in {Done, Failed, Cancelled} then None
                            else if old(finishedAt).Some? then old(finishedAt) else Some(now)
    {
      var since := None;
      if next == AwaitingTakeout {
        since := Some(now);
      }
      state, waitSince := next, since;
      if !(next == Done || next == Failed || next == Cancelled) {
        finishedAt := None;
      } else if finishedAt.None? {
        finishedAt := Some(now);
      }
    }

    method StampFinished(now: nat)
      modifies this`finishedAt
      ensures Value() == AfterStamp(old(Value()), now)
    {
      if finishedAt.None? {
        finishedAt := Some(now);
      }
    }

    /** The staging sweep on one row: a row that has ended without a stamp gets one
        and is left alone; one past the retention is to be purged. */
    method Sweep(retention: nat, now: nat) returns (purge: bool)
      modifies this`finishedAt
      ensures Value() == if old(state).Terminal() then AfterStamp(old(Value()), now) else old(Value())
      ensures purge <==> old(state).Terminal() && Expired(old(Value()), retention, now)
      ensures purge <==> state in {Done, Failed, Cancelled} && old(finishedAt).Some?
                         && now >= old(finishedAt).value + retention
      ensures finishedAt == if state in {Done, Failed, Cancelled} && old(finishedAt).None? then Some(now)
                            else old(finishedAt)
    {
      if !state.Terminal() {
        return false;
      }
      if finishedAt.None? {
        StampFinished(now);
        return false;
      }
      return now >= finishedAt.value && now - finishedAt.value >= retention;
    }

    /** What is to be purged is judged again, under the claim lock and whatever has
        happened since, before its directory is moved. */
    method Purge(retention: nat, now: nat) returns (moved: bool)
      ensures moved <==> state.Terminal() && Expired(Value(), retention, now)
      ensures moved <==> state in {Done, Failed, Cancelled} && finishedAt.Some? && now >= finishedAt.value + retention
    {
      return state.Terminal() && finishedAt.Some? && now >= finishedAt.value && now - finishedAt.value >= retention;
    }
  }

  // ----- Whole runs -----

  datatype Op =
    | Set(state: PhotosState, at: nat)
    | Stamp(at: nat)

  function After(p: Photos, op: Op): Photos {
    match op
    case Set(state, at) => AfterSet(p, state, at)
    case Stamp(at) => AfterStamp(p, at)
  }

  /** rows[i] is the row before the ith step. */
  ghost predicate IsRun(rows: seq<Photos>, ops: seq<Op>) {
    |rows| == |ops| + 1 && forall i :: 0 <= i < |ops| ==> Follows(rows, ops, i)
  }

  predicate Follows(rows: seq<Photos>, ops: seq<Op>, i: nat)
    requires i < |ops| && |rows| == |ops| + 1
  {
    rows[i + 1] == After(rows[i], ops[i])
  }

  /** A clock that does not go back, and a sweep that stamps only rows that have
      ended. */
  ghost predicate Orderly(rows: seq<Photos>, ops: seq<Op>)
    requires IsRun(rows, ops)
  {
    && (forall i, j :: 0 <= i < j < |ops| ==> ops[i].at <= ops[j].at)
    && (forall i :: 0 <= i < |ops| && ops[i].Stamp? ==> rows[i].state.Terminal())
  }

  /** From the kth step to the nth the row was ended throughout. */
  ghost predicate Ended(rows: seq<Photos>, k: nat, n: nat)
    requires n < |rows|
  {
    forall i :: k <= i <= n ==> rows[i].state.Terminal()
  }

  /** A stamp tells the truth: it is the time of a step since which the row has
      been ended throughout. */
  lemma {:induction false} StampIsTrue(rows: seq<Photos>, ops: seq<Op>, n: nat) returns (k: nat)
    requires IsRun(rows, ops) && Orderly(rows, ops) && n <= |ops|
    requires rows[0].finishedAt.None? && rows[n].finishedAt.Some?
    ensures 0 < k <= n && Ended(rows, k, n) && ops[k - 1].at == rows[n].finishedAt.value
  {
    assert Follows(rows, ops, n - 1);
    if rows[n - 1].finishedAt == rows[n].finishedAt {
      k := StampIsTrue(rows, ops, n - 1);
    } else {
      k := n;
    }
  }

  /** Whenever the sweep takes a directory, the row had ended at least the
      retention ago and every state written since was an ended one. */
  lemma PurgeRespectsRetention(rows: seq<Photos>, ops: seq<Op>, retention: nat, now: nat)
    requires IsRun(rows, ops) && Orderly(rows, ops) && rows[0].finishedAt.None?
    requires rows[|ops|].state.Terminal() && Expired(rows[|ops|], retention, now)
    ensures exists k :: 0 < k <= |ops| && Ended(rows, k, |ops|) && LongAgo(ops, k, retention, now)
  {
    var k := StampIsTrue(rows, ops, |ops|);
    assert LongAgo(ops, k, retention, now);
  }

  /** The first k steps are all at least the retention ago. */
  ghost predicate LongAgo(ops: seq<Op>, k: nat, retention: nat, now: nat)
    requires k <= |ops|
  {
    forall i :: 0 <= i < k ==> ops[i].at + retention <= now
  }

  /** Among state changes alone there is a stamp exactly when the row has ended,
      and it is exactly the first terminal write of the present ended stretch. */
  lemma {:induction false} StampIsFirstTerminalWrite(rows: seq<Photos>, ops: seq<Op>, n: nat)
    requires IsRun(rows, ops) && n <= |ops| && forall i :: 0 <= i < |ops| ==> ops[i].Set?
    requires rows[0].finishedAt.None? && !rows[0].state.Terminal()
    ensures rows[n].finishedAt.Some? <==> rows[n].state.Terminal()
    ensures forall k :: 0 < k <= n && !rows[k - 1].state.Terminal() && Ended(rows, k, n) ==>
              rows[n].finishedAt == Some(ops[k - 1].at)
  {
    if n > 0 {
      assert Follows(rows, ops, n - 1);
      StampIsFirstTerminalWrite(rows, ops, n - 1);
      forall k | 0 < k <= n && !rows[k - 1].state.Terminal() && Ended(rows, k, n)
        ensures rows[n].finishedAt == Some(ops[k - 1].at)
      {
        assert rows[n].state.Terminal();
        if k < n {
          assert Ended(rows, k, n - 1);
          assert rows[n - 1].state.Terminal();
        }
      }
    }
  }

  /** Step k sets the state, and none after it before the nth does. */
  predicate LastSet(ops: seq<Op>, k: nat, n: nat)
    requires k < n <= |ops|
  {
    ops[k].Set? && forall j :: k < j < n ==> !ops[j].Set?
  }

  /** A wait for a Takeout dates from the write that began it: after any steps the
      row has such a date exactly when its state is the last one set and that is the
      wait, and it is the time of that write. */
  lemma {:induction false} WaitIsLastSet(rows: seq<Photos>, ops: seq<Op>, n: nat)
    requires IsRun(rows, ops) && n <= |ops|
    ensures forall k :: 0 <= k < n && LastSet(ops, k, n) ==>
              rows[n].state == ops[k].state
              && rows[n].waitSince == if ops[k].state == AwaitingTakeout then Some(ops[k].at) else None
    ensures (forall k :: 0 <= k < n ==> !ops[k].Set?) ==>
              rows[n].state == rows[0].state && rows[n].waitSince == rows[0].waitSince
  {
    if n > 0 {
      assert Follows(rows, ops, n - 1);
      WaitIsLastSet(rows, ops, n - 1);
      hide IsRun;
      forall k | 0 <= k < n && LastSet(ops, k, n)
        ensures rows[n].state == ops[k].state
        ensures rows[n].waitSince == if ops[k].state == AwaitingTakeout then Some(ops[k].at) else None
      {
        assert k < n - 1 ==> !ops[n - 1].Set? && LastSet(ops, k, n - 1);
      }
    }
  }

  /** The stamp of the row before the nth step, if any, tells the truth. */
  ghost predicate StampTrue(rows: seq<Photos>, ops: seq<Op>, n: nat)
    requires IsRun(rows, ops) && n <= |ops|
  {
    rows[n].finishedAt.Some? ==>
      exists k :: 0 < k <= n && Ended(rows, k, n) && rows[n].finishedAt == Some(ops[k - 1].at)
  }

  /** Stamping keeps the stamp true exactly when the row has ended; and a row with a
      true stamp has. */
  lemma StampStaysTrueExactly(rows: seq<Photos>, ops: seq<Op>, n: nat)
    requires IsRun(rows, ops) && n < |ops| && ops[n].Stamp? && StampTrue(rows, ops, n)
    ensures StampTrue(rows, ops, n + 1) <==> rows[n].state.Terminal()
    ensures rows[n].finishedAt.Some? ==> rows[n].state.Terminal()
  {
    assert Follows(rows, ops, n);
    if rows[n].finishedAt.Some? {
      var k :| 0 < k <= n && Ended(rows, k, n) && rows[n].finishedAt == Some(ops[k - 1].at);
      assert Ended(rows, k, n + 1);
    } else if rows[n].state.Terminal() {
      assert Ended(rows, n + 1, n + 1);
    }
  }

  /** Stamping a row that is running breaks this: the stamp outlives the run, and
      the next ending is purged at once. */
  lemma StampOnRunningRow(start: nat, ended: nat, retention: nat)
    requires start + retention <= ended && retention > 0
    ensures var p := Photos(Importing, None, None);
            var rows, ops := [p, AfterStamp(p, start), AfterSet(AfterStamp(p, start), Failed, ended)],
                [Stamp(start), Set(Failed, ended)];
            && IsRun(rows, ops) && rows[2].state.Terminal() && Expired(rows[2], retention, ended)
            && forall k :: 0 < k <= 2 && Ended(rows, k, 2) ==> !LongAgo(ops, k, retention, ended)
  {
    var p := Photos(Importing, None, None);
    var rows, ops := [p, AfterStamp(p, start), AfterSet(AfterStamp(p, start), Failed, ended)],
        [Stamp(start), Set(Failed, ended)];
    assert Follows(rows, ops, 0) && Follows(rows, ops, 1);
    assert !rows[1].state.Terminal();
    assert ops[1].at + retention > ended;
  }
}
