/** Following a Drive copy by the running totals rclone reports. */
module DriveTicks {
  import opened Wrappers
  import opened Sets

  const STUCK_AFTER: nat := 3

  /** One stats line: the totals so far, and whether the last error says that
      Nextcloud is full. */
  datatype Tick = Tick(bytes: int, files: int, errors: int, full: bool)

  datatype Reason = NextcloudFull | CopyFailing

  datatype Shown = Copying(bytes: int, files: int) | Failing(why: Reason)

  function ReasonOf(t: Tick): Reason { if t.full then NextcloudFull else CopyFailing }

  function Rise(before: int, now: int): (r: nat)
    ensures r == if now > before then now - before else 0
  {
    if now > before then now - before else 0
  }

  // ----- What the ticks say -----

  function Before(ticks: seq<Tick>, i: nat): Tick
    requires i <= |ticks|
  {
    if i == 0 then Tick(0, 0, 0, false) else ticks[i - 1]
  }

  /** A file got through. */
  predicate Rose(ticks: seq<Tick>, i: nat)
    requires i < |ticks|
  {
    ticks[i].files > Before(ticks, i).files
  }

  /** New errors, and no file got through. */
  predicate Fails(ticks: seq<Tick>, i: nat)
    requires i < |ticks|
  {
    ticks[i].errors > Before(ticks, i).errors && !Rose(ticks, i)
  }

  function FilesOf(ticks: seq<Tick>, n: nat): nat
    requires n <= |ticks|
  {
    if n == 0 then 0 else FilesOf(ticks, n - 1) + Rise(Before(ticks, n - 1).files, ticks[n - 1].files)
  }

  /** Bytes read for uploads that failed are not copied. */
  function BytesOf(ticks: seq<Tick>, n: nat): nat
    requires n <= |ticks|
  {
    if n == 0 then 0
    else if Fails(ticks, n - 1) then BytesOf(ticks, n - 1)
    else BytesOf(ticks, n - 1) + Rise(Before(ticks, n - 1).bytes, ticks[n - 1].bytes)
  }

  /** The failing ticks since a file last got through. */
  function FailedSince(ticks: seq<Tick>, n: nat): set<nat>
    requires n <= |ticks|
  {
    set i: nat | i < n && Fails(ticks, i) && forall j :: i < j < n ==> !Rose(ticks, j)
  }

  // ----- The closure that reads them -----

  class Copy {
    var reportedBytes: int
    var reportedFiles: int
    var seenErrors: int
    var failing: nat
    var stuck: Option<Reason>
    /** The row: what has been added up, the error shown, and the progress. */
    var copiedBytes: nat
    var copiedFiles: nat
    var lastError: Option<Reason>
    var shown: Shown

    /** Everything the closure keeps follows from the ticks so far. */
    ghost predicate Follows(ticks: seq<Tick>)
      reads this
    {
      var last := Before(ticks, |ticks|);
      && reportedBytes == last.bytes && reportedFiles == last.files && seenErrors == last.errors
      && copiedFiles == FilesOf(ticks, |ticks|) && copiedBytes == BytesOf(ticks, |ticks|)
      && failing == |FailedSince(ticks, |ticks|)|
      && (stuck.Some? <==> failing >= STUCK_AFTER)
      && (stuck.Some? ==> SetAt(ticks, stuck.value))
    }

    constructor ()
      ensures Follows([]) && stuck.None? && lastError.None?
    {
      reportedBytes, reportedFiles, seenErrors := 0, 0, 0;
      failing, stuck, copiedBytes, copiedFiles := 0, None, 0, 0;
      lastError, shown := None, Copying(0, 0);
      new;
      assert FailedSince([], 0) == {};
    }

    method OnTick(t: Tick, ghost ticks: seq<Tick>)
      requires Follows(ticks)
      modifies this
      ensures Follows(ticks + [t])
      ensures shown == if stuck.Some? then Failing(stuck.value) else Copying(t.bytes, t.files)
      ensures old(stuck).None? && stuck.Some? ==> lastError == stuck
      ensures old(stuck).Some? && stuck.None? ==>
                lastError == if old(lastError) == old(stuck) then None else old(lastError)
      ensures old(stuck).Some? == stuck.Some? ==> stuck == old(stuck) && lastError == old(lastError)
      ensures reportedBytes == t.bytes && reportedFiles == t.files && seenErrors == t.errors
      ensures copiedFiles == old(copiedFiles) + if t.files > old(reportedFiles) then t.files - old(reportedFiles) else 0
      ensures copiedBytes == old(copiedBytes)
                             + (if t.errors > old(seenErrors) && t.files <= old(reportedFiles) then 0
                                else if t.bytes > old(reportedBytes) then t.bytes - old(reportedBytes) else 0)
      ensures failing == if t.files > old(reportedFiles) then 0
                         else if t.errors > old(seenErrors) then old(failing) + 1 else old(failing)
      ensures stuck == if failing < 3 then None else if old(stuck).Some? then old(stuck)
                       else Some(if t.full then NextcloudFull else CopyFailing)
    {
      ghost var all := ticks + [t];
      NextTotals(ticks, t);
      hide FailedSince, SetAt, FilesOf, BytesOf, Before, Fails, Rose;
      var uploadsFailing := t.errors > seenErrors && t.files <= reportedFiles;
      var deltaBytes, deltaFiles := t.bytes - reportedBytes, t.files - reportedFiles;
      if uploadsFailing {
        deltaBytes := 0;
      }
      if deltaBytes > 0 || deltaFiles > 0 {
        copiedBytes := copiedBytes + if deltaBytes > 0 then deltaBytes else 0;
        copiedFiles := copiedFiles + if deltaFiles > 0 then deltaFiles else 0;
      }
      if uploadsFailing {
        failing := failing + 1;
      } else if t.files > reportedFiles {
        failing := 0;
      }
      seenErrors, reportedBytes, reportedFiles := t.errors, t.bytes, t.files;
      if failing >= STUCK_AFTER && stuck.None? {
        stuck := Some(ReasonOf(t));
        lastError := stuck;
        SetNow(all);
      } else if failing == 0 && stuck.Some? {
        if lastError == stuck {
          lastError := None;
        }
        stuck := None;
      } else if stuck.Some? {
        StaysSet(ticks, t, stuck.value);
      }
      shown := if stuck.Some? then Failing(stuck.value) else Copying(t.bytes, t.files);
    }
  }

  /** The reason was set at the third failing tick since a file got through. */
  ghost predicate SetAt(ticks: seq<Tick>, why: Reason) {
    exists i :: i in FailedSince(ticks, |ticks|) && |FailedSince(ticks, i + 1)| == STUCK_AFTER
        && why == ReasonOf(ticks[i])
  }

  /** The ticks before are what they were, and the failing ones go on, stop, or
      stay as the new one says. */
  lemma OneMoreTick(ticks: seq<Tick>, t: Tick)
    ensures var n, all := |ticks|, ticks + [t];
            && Before(all, n) == Before(ticks, n)
            && FilesOf(all, n) == FilesOf(ticks, n) && BytesOf(all, n) == BytesOf(ticks, n)
            && |FailedSince(all, n + 1)| == (if Rose(all, n) then 0
                                             else if Fails(all, n) then |FailedSince(ticks, n)| + 1
                                             else |FailedSince(ticks, n)|)
  {
    hide FilesOf, BytesOf, Fails, Rose;
    var n, all := |ticks|, ticks + [t];
    SameSums(ticks, t, n);
    if Fails(all, n) {
      FailsIsNoRise(all, n);
    }
    SameFailures(ticks, t, n);
    NextFailures(all, n);
    hide FailedSince;
  }

  lemma NextFailures(ticks: seq<Tick>, n: nat)
    requires n < |ticks| && (Fails(ticks, n) ==> !Rose(ticks, n))
    ensures var before := FailedSince(ticks, n);
            && n !in before
            && FailedSince(ticks, n + 1) == if Rose(ticks, n) then {} else if Fails(ticks, n) then before + {n}
                                            else before
  {
    hide Fails, Rose;
  }

  /** What one more tick adds, in its own numbers and those of the last. */
  lemma NextTotals(ticks: seq<Tick>, t: Tick)
    ensures var n, all, last := |ticks|, ticks + [t], Before(ticks, |ticks|);
            && Before(all, n + 1) == t
            && FilesOf(all, n + 1) == FilesOf(ticks, n) + Rise(last.files, t.files)
            && BytesOf(all, n + 1) == BytesOf(ticks, n) + (if t.errors > last.errors && t.files <= last.files then 0
                                                           else Rise(last.bytes, t.bytes))
            && |FailedSince(all, n + 1)| == (if t.files > last.files then 0
                                             else if t.errors > last.errors then |FailedSince(ticks, n)| + 1
                                             else |FailedSince(ticks, n)|)
            && (Rose(all, n) <==> t.files > last.files)
            && (Fails(all, n) <==> t.errors > last.errors && t.files <= last.files)
  {
    hide FailedSince;
    OneMoreTick(ticks, t);
  }

  lemma {:induction false} SameSums(ticks: seq<Tick>, t: Tick, n: nat)
    requires n <= |ticks|
    ensures FilesOf(ticks + [t], n) == FilesOf(ticks, n) && BytesOf(ticks + [t], n) == BytesOf(ticks, n)
  {
    if n > 0 {
      SameSums(ticks, t, n - 1);
    }
  }

  lemma SameTick(ticks: seq<Tick>, t: Tick, i: nat)
    requires i < |ticks|
    ensures (Fails(ticks + [t], i) <==> Fails(ticks, i)) && (Rose(ticks + [t], i) <==> Rose(ticks, i))
  {
    assert (ticks + [t])[i] == ticks[i] && Before(ticks + [t], i) == Before(ticks, i);
  }

  lemma SameFailures(ticks: seq<Tick>, t: Tick, n: nat)
    requires n <= |ticks|
    ensures FailedSince(ticks + [t], n) == FailedSince(ticks, n)
    ensures forall i :: 0 <= i < n ==>
              (Fails(ticks + [t], i) <==> Fails(ticks, i)) && (Rose(ticks + [t], i) <==> Rose(ticks, i))
  {
    hide Fails, Rose;
    forall i | 0 <= i < n
      ensures (Fails(ticks + [t], i) <==> Fails(ticks, i)) && (Rose(ticks + [t], i) <==> Rose(ticks, i))
    {
      SameTick(ticks, t, i);
    }
  }

  /** The tick that brings the third failure sets the reason. */
  lemma SetNow(ticks: seq<Tick>)
    requires ticks != [] && Fails(ticks, |ticks| - 1) && |FailedSince(ticks, |ticks|)| == STUCK_AFTER
    ensures SetAt(ticks, ReasonOf(ticks[|ticks| - 1]))
  {
    assert |ticks| - 1 in FailedSince(ticks, |ticks|);
  }

  lemma StaysSet(ticks: seq<Tick>, t: Tick, why: Reason)
    requires SetAt(ticks, why) && !Rose(ticks + [t], |ticks|)
    ensures SetAt(ticks + [t], why)
  {
    var i :| i in FailedSince(ticks, |ticks|) && |FailedSince(ticks, i + 1)| == STUCK_AFTER
        && why == ReasonOf(ticks[i]);
    SameFailures(ticks, t, |ticks|);
    SameFailures(ticks, t, i + 1);
    StillFailed(ticks, t, i);
    hide FailedSince;
    assert (ticks + [t])[i] == ticks[i];
  }

  lemma StillFailed(ticks: seq<Tick>, t: Tick, i: nat)
    requires i in FailedSince(ticks + [t], |ticks|) && !Rose(ticks + [t], |ticks|)
    ensures i in FailedSince(ticks + [t], |ticks + [t]|)
  {
    hide Fails, Rose;
  }

  /** Three ticks have failed since a file last got through, the third for this
      reason. */
  ghost predicate StuckOn(ticks: seq<Tick>, why: Reason) {
    && |FailedSince(ticks, |ticks|)| >= 3
    && exists i :: i in FailedSince(ticks, |ticks|) && |FailedSince(ticks, i + 1)| == 3 && why == ReasonOf(ticks[i])
  }

  /** There is one such reason at most. */
  lemma StuckExact(ticks: seq<Tick>, stuck: Option<Reason>)
    requires stuck.Some? <==> |FailedSince(ticks, |ticks|)| >= STUCK_AFTER
    requires stuck.Some? ==> SetAt(ticks, stuck.value)
    ensures forall why :: stuck == Some(why) <==> StuckOn(ticks, why)
  {
    BelowEnd(ticks);
    hide FailedSince;
    if stuck.Some? {
      forall i, j | i in FailedSince(ticks, |ticks|) && j in FailedSince(ticks, |ticks|) && i < j
        ensures |FailedSince(ticks, i + 1)| < |FailedSince(ticks, j + 1)|
      {
        FailedGrows(ticks, i, j);
      }
    }
  }

  lemma BelowEnd(ticks: seq<Tick>)
    ensures forall i :: i in FailedSince(ticks, |ticks|) ==> i < |ticks|
  {
  }

  lemma FailedGrows(ticks: seq<Tick>, i: nat, j: nat)
    requires i in FailedSince(ticks, |ticks|) && j in FailedSince(ticks, |ticks|) && i < j
    ensures j < |ticks| && |FailedSince(ticks, i + 1)| < |FailedSince(ticks, j + 1)|
  {
    FailsIsNoRise(ticks, j);
    hide Fails, Rose;
    assert FailedSince(ticks, i + 1) <= FailedSince(ticks, j + 1);
    SmallerByOne(FailedSince(ticks, i + 1), FailedSince(ticks, j + 1), j);
  }

  // ----- What is recorded -----

  /** A transfer counter that never falls is recorded as it stands. */
  lemma {:induction false} FilesAreTheCounter(ticks: seq<Tick>, n: nat)
    requires n <= |ticks| && forall i :: 0 <= i < n ==> ticks[i].files >= Before(ticks, i).files
    ensures FilesOf(ticks, n) == Before(ticks, n).files
  {
    if n > 0 {
      FilesAreTheCounter(ticks, n - 1);
      assert ticks[n - 1].files >= Before(ticks, n - 1).files;
    }
  }

  /** Never more bytes than the counter, if that never falls; and exactly as many
      if no tick fails. */
  lemma {:induction false} BytesWithinTheCounter(ticks: seq<Tick>, n: nat)
    requires n <= |ticks| && forall i :: 0 <= i < n ==> ticks[i].bytes >= Before(ticks, i).bytes
    ensures BytesOf(ticks, n) <= Before(ticks, n).bytes
    ensures (forall i :: 0 <= i < n ==> !Fails(ticks, i)) ==> BytesOf(ticks, n) == Before(ticks, n).bytes
  {
    if n > 0 {
      hide Fails;
      BytesWithinTheCounter(ticks, n - 1);
      assert ticks[n - 1].bytes >= Before(ticks, n - 1).bytes;
    }
  }

  /** How much the byte counter rose on failing ticks. */
  function FailedRises(ticks: seq<Tick>, n: nat): nat
    requires n <= |ticks|
  {
    if n == 0 then 0
    else
      var t, last := ticks[n - 1], Before(ticks, n - 1);
      FailedRises(ticks, n - 1)
      + (if t.errors > last.errors && t.files <= last.files && t.bytes > last.bytes then t.bytes - last.bytes else 0)
  }

  /** Of a byte counter that never falls exactly the rises on failing ticks are not
      recorded. */
  lemma {:induction false} BytesExact(ticks: seq<Tick>, n: nat)
    requires n <= |ticks| && forall i :: 0 <= i < n ==> ticks[i].bytes >= Before(ticks, i).bytes
    ensures BytesOf(ticks, n) + FailedRises(ticks, n) == Before(ticks, n).bytes
  {
    if n > 0 {
      BytesExact(ticks, n - 1);
      assert ticks[n - 1].bytes >= Before(ticks, n - 1).bytes;
    }
  }

  /** How many ticks in a row have failed. */
  function InARow(ticks: seq<Tick>, n: nat): nat
    requires n <= |ticks|
  {
    if n == 0 then 0 else if Fails(ticks, n - 1) then InARow(ticks, n - 1) + 1 else 0
  }

  /** Failing ticks need not come in a row to be counted: a quiet tick, without a
      new error and without a file, does not start the count again. */
  lemma QuietTicksBetween()
    ensures var ticks := [Tick(0, 0, 1, false), Tick(0, 0, 1, false), Tick(0, 0, 2, false), Tick(0, 0, 2, false),
              Tick(0, 0, 3, true)];
            |FailedSince(ticks, 5)| == STUCK_AFTER && InARow(ticks, 5) == 1 && SetAt(ticks, NextcloudFull)
  {
    var ticks := [Tick(0, 0, 1, false), Tick(0, 0, 1, false), Tick(0, 0, 2, false), Tick(0, 0, 2, false),
        Tick(0, 0, 3, true)];
    assert Fails(ticks, 0) && Fails(ticks, 2) && Fails(ticks, 4) && !Fails(ticks, 1) && !Fails(ticks, 3);
    assert forall i :: 0 <= i < 5 ==> !Rose(ticks, i);
    assert FailedSince(ticks, 5) == {0, 2, 4};
    SetNow(ticks);
  }

  /** The ticks of the last run of failing ones. */
  function LastRow(ticks: seq<Tick>, n: nat): set<nat>
    requires n <= |ticks|
  {
    set i: nat | i < n && Fails(ticks, i) && i >= n - InARow(ticks, n)
  }

  lemma {:induction false} RowEnds(ticks: seq<Tick>, n: nat)
    requires n <= |ticks|
    ensures InARow(ticks, n) <= n
    ensures forall j :: n - InARow(ticks, n) <= j < n ==> Fails(ticks, j) && !Rose(ticks, j)
    ensures InARow(ticks, n) < n ==> !Fails(ticks, n - InARow(ticks, n) - 1)
    ensures |LastRow(ticks, n)| == InARow(ticks, n)
  {
    if n > 0 && Fails(ticks, n - 1) {
      RowEnds(ticks, n - 1);
      FailsIsNoRise(ticks, n - 1);
      hide Fails, Rose;
      assert Fails(ticks, n - 1);
      assert LastRow(ticks, n) == LastRow(ticks, n - 1) + {n - 1};
    } else {
      assert LastRow(ticks, n) == {};
    }
  }

  /** Those counted are those in a row exactly when no counted tick is followed by
      one that does not fail. */
  lemma InARowExact(ticks: seq<Tick>, n: nat)
    requires n <= |ticks|
    ensures InARow(ticks, n) == |FailedSince(ticks, n)| <==>
              !exists i, j :: i in FailedSince(ticks, n) && i < j < n && !Fails(ticks, j)
  {
    RowEnds(ticks, n);
    hide Fails, Rose, InARow;
    var row, counted := LastRow(ticks, n), FailedSince(ticks, n);
    assert row <= counted;
    if |row| == |counted| {
      EqualBySize(row, counted);
    } else {
      assert counted != row;
      var i :| i in counted && i !in row;
      var j := n - InARow(ticks, n) - 1;
      assert i < j < n && !Fails(ticks, j);
    }
  }

  /** Those in a row are among those counted. */
  lemma InARowIsCounted(ticks: seq<Tick>, n: nat)
    requires n <= |ticks|
    ensures InARow(ticks, n) <= |FailedSince(ticks, n)|
  {
    RowEnds(ticks, n);
    hide Fails, Rose, InARow;
    SubsetIsSmaller(LastRow(ticks, n), FailedSince(ticks, n));
  }

  lemma FailsIsNoRise(ticks: seq<Tick>, i: nat)
    requires i < |ticks| && Fails(ticks, i)
    ensures !Rose(ticks, i)
  {
  }
}
