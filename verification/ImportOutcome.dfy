/** Recording what an import did, and folding the retries of what it left out
    into it. */
module ImportOutcome {
  import opened Wrappers
  import opened ImmichLog
  import opened Extraction
  import opened Sets

  /** The counts immich-go reports at its end. */
  datatype Report = Report(processed: nat, discarded: nat, errors: nat, pending: nat)
  {
    predicate Reached() { processed > 0 || discarded > 0 || errors > 0 || pending > 0 }
  }

  /** The record of an import: how many files it checked, how many are in, how
      many are not, and which. */
  datatype Verify = Verify(checked: int, matched: int, mismatch: int, problems: seq<Problem>)
  {
    predicate Balanced() { matched + mismatch == checked }

    predicate ProblemsComplete() { |problems| == mismatch }

    predicate CanRetryProblems() { problems != [] && ProblemsComplete() && exists p :: p in problems && !p.missing }
  }

  method CanRetryProblems(v: Verify) returns (can: bool)
    ensures can == v.CanRetryProblems()
    ensures can <==> |v.problems| == v.mismatch > 0 && exists i :: 0 <= i < |v.problems| && !v.problems[i].missing
  {
    if |v.problems| == 0 || |v.problems| != v.mismatch {
      return false;
    }
    var i := 0;
    while i < |v.problems|
      invariant i <= |v.problems| && forall k :: 0 <= k < i ==> v.problems[k].missing
    {
      if !v.problems[i].missing {
        assert v.problems[i] in v.problems;
        return true;
      }
      i := i + 1;
    }
    return false;
  }

  /** What a retry builds on: the record it started from, and the files it could
      not find to send. */
  datatype Retry = Retry(prev: Verify, missing: seq<Problem>)
  {
    function SentFiles(): seq<Problem> { Sent(prev.problems, FilesOf(missing)) }
  }

  /** How many of the files a retry was about are left out after it: reported
      so, given no outcome, or not found. */
  function Pending(report: Report, retry: Retry): nat {
    var sent := |retry.SentFiles()|;
    var seen := report.processed + report.discarded + report.errors + report.pending;
    (if !report.Reached() then sent
     else if seen < sent then report.pending + (sent - seen)
     else report.pending) + |retry.missing|
  }

  function Mapped(named: seq<Problem>, problems: seq<Problem>): (r: seq<Problem>)
    ensures |r| == |named|
  {
    seq(|named|, i requires 0 <= i < |named| => named[i].(file := OriginOf(named[i].file, problems)))
  }

  /** The record of an import, from its own report. */
  function Recorded(report: Report, named: seq<Problem>): Verify {
    var bad := report.errors + report.pending;
    Verify(report.processed + bad, report.processed, bad, if bad > 0 then named else [])
  }

  /** The record after a retry. */
  function Folded(report: Report, named: seq<Problem>, retry: Retry): Verify {
    var bad := report.errors + Pending(report, retry);
    var listed := if report.errors + report.pending > 0 then Mapped(named, retry.prev.problems) else [];
    Verify(retry.prev.checked, retry.prev.checked - bad, bad,
           (if report.Reached() then listed else retry.SentFiles()) + retry.missing)
  }

  /** The record an import or a retry that got to its report leaves. */
  function Outcome(report: Report, named: seq<Problem>, retry: Option<Retry>): Verify {
    if retry.Some? then Folded(report, named, retry.value) else Recorded(report, named)
  }

  /** How many files it leaves out. */
  function Left(report: Report, retry: Option<Retry>): nat {
    report.errors + (if retry.Some? then Pending(report, retry.value) else report.pending)
  }

  lemma LeftIsMismatch(report: Report, named: seq<Problem>, retry: Retry)
    ensures Folded(report, named, retry).mismatch == Left(report, Some(retry))
  {
  }

  /** Where the track stops: done, or failed on so many errors and pending. */
  datatype Stop = Finished | LeftOut(errors: nat, pending: nat) | Empty

  class Ledger {
    var verify: Verify
    var assets: int
    var stop: Stop

    constructor ()
      ensures assets == 0
    {
      verify, assets, stop := Verify(0, 0, 0, []), 0, Empty;
    }

    method FinishPhotosImport(report: Report, named: seq<Problem>, retry: Option<Retry>)
      modifies this
      ensures !report.Reached() && retry.None? ==> stop == Empty && verify == old(verify)
      ensures report.Reached() && retry.None? ==>
                && verify == Recorded(report, named)
                && stop == if verify.mismatch == 0 then Finished else LeftOut(report.errors, report.pending)
      ensures retry.Some? ==>
                && verify == Folded(report, named, retry.value)
                && stop == if verify.mismatch == 0 then Finished
                    else LeftOut(report.errors, Pending(report, retry.value))
      ensures retry.None? && report != Report(0, 0, 0, 0) ==>
                var bad := report.errors + report.pending;
                && verify.checked == report.processed + bad && verify.matched == report.processed
                && verify.mismatch == bad && verify.problems == if bad > 0 then named else []
      ensures retry.Some? ==>
                var prev, sent := retry.value.prev, Sent(retry.value.prev.problems, FilesOf(retry.value.missing));
                var seen := report.processed + report.discarded + report.errors + report.pending;
                var silent := if seen < |sent| then |sent| - seen else 0;
                && verify.checked == prev.checked && verify.matched == prev.checked - verify.mismatch
                && verify.mismatch == report.errors + report.pending + silent + |retry.value.missing|
                && verify.problems ==
                   (if seen == 0 then sent else if report.errors + report.pending > 0 then Mapped(named, prev.problems)
                    else []) + retry.value.missing
      ensures assets == if report.processed == 0 then old(assets)
                else if retry.Some? then old(assets) + report.processed else report.processed
    {
      hide OriginOf, Sent, FilesOf;
      var processed, discarded, errs, pending := report.processed, report.discarded, report.errors, report.pending;
      if !report.Reached() && retry.None? {
        stop := Empty;
        return;
      }
      if processed > 0 {
        assets := if retry.Some? then assets + processed else processed;
      }
      var v := Verify(processed + errs + pending, processed, errs + pending, []);
      if errs > 0 || pending > 0 {
        v := v.(problems := named);
      }
      if retry.Some? {
        var prev := retry.value.prev;
        var mapped := MapBack(v.problems, prev.problems);
        v := v.(problems := mapped);
        var sent := SentOf(prev.problems, retry.value.missing);
        if !report.Reached() {
          v := v.(problems := sent);
          pending := |sent|;
        } else {
          var seen := processed + discarded + errs + pending;
          if seen < |sent| {
            pending := pending + (|sent| - seen);
          }
        }
        v := v.(problems := v.problems + retry.value.missing);
        pending := pending + |retry.value.missing|;
        v := v.(checked := prev.checked, mismatch := errs + pending);
        v := v.(matched := prev.checked - v.mismatch);
      }
      verify := v;
      stop := if errs > 0 || pending > 0 then LeftOut(errs, pending) else Finished;
    }

    /** A retry that found none of its files says so for each. */
    method NothingFound(retry: Retry)
      requires retry.prev.mismatch >= 0
      modifies this`verify, this`stop
      ensures verify == retry.prev.(problems := retry.missing) && stop == LeftOut(0, retry.prev.mismatch)
    {
      verify := retry.prev.(problems := retry.missing);
      stop := LeftOut(0, retry.prev.mismatch);
    }
  }

  method MapBack(named: seq<Problem>, problems: seq<Problem>) returns (r: seq<Problem>)
    ensures r == Mapped(named, problems)
  {
    hide OriginOf;
    r := named;
    var i := 0;
    while i < |r|
      invariant i <= |r| == |named|
      invariant forall k :: 0 <= k < i ==> r[k] == named[k].(file := OriginOf(named[k].file, problems))
      invariant forall k :: i <= k < |r| ==> r[k] == named[k]
    {
      r := r[i := r[i].(file := OriginOf(r[i].file, problems))];
      i := i + 1;
    }
  }

  // ----- Nothing is dropped -----

  lemma {:induction false} SentAll(problems: seq<Problem>)
    ensures Sent(problems, {}) == problems
    decreases |problems|
  {
    if problems != [] {
      SentAll(problems[..|problems| - 1]);
    }
  }

  /** A retry ends in done exactly when every file was found, nothing was reported
      wrong, and as many files were processed or discarded as were left out. */
  lemma DoneExact(report: Report, named: seq<Problem>, retry: Retry)
    ensures Folded(report, named, retry).mismatch == 0 <==>
              && retry.missing == [] && report.errors == 0 && report.pending == 0
              && report.processed + report.discarded >= |retry.prev.problems|
  {
    if retry.missing == [] {
      assert FilesOf(retry.missing) == {};
      SentAll(retry.prev.problems);
    }
  }

  /** When the record names everything it counts, done means that as many files
      were processed or discarded as were left out, and the record says all of it is
      in. */
  lemma DoneMeansAllIn(report: Report, named: seq<Problem>, retry: Retry)
    requires retry.prev.CanRetryProblems() && Folded(report, named, retry).mismatch == 0
    ensures report.Reached() && report.processed + report.discarded >= retry.prev.mismatch > 0
    ensures var v := Folded(report, named, retry); v.matched == v.checked == retry.prev.checked
  {
    DoneExact(report, named, retry);
  }

  /** Entries of the list for one file are all lost or all found. */
  ghost predicate ByFile(problems: seq<Problem>, lost: seq<nat>) {
    && (forall k :: 0 <= k < |lost| ==> lost[k] < |problems|)
    && forall i, j ::
         0 <= i < |problems| && 0 <= j < |problems| && problems[i].file == problems[j].file && i in lost ==>
           j in lost
  }

  ghost predicate LostThese(problems: seq<Problem>, missing: seq<Problem>, lost: seq<nat>) {
    && (forall j, k :: 0 <= j < k < |lost| ==> lost[j] != lost[k])
    && |missing| == |lost|
    && forall k :: 0 <= k < |lost| ==> lost[k] < |problems| && missing[k] == NotFound(problems[lost[k]])
  }

  /** What the copying out of the archives reports is such a list. */
  lemma ReportedAreLost(missing: seq<Problem>, lost: seq<nat>, staging: Staging, problems: seq<Problem>,
                        breaks: Breaks)
    requires Reports(missing, lost, staging, problems, breaks, All(|problems|))
    ensures LostThese(problems, missing, lost)
  {
    hide Copied;
    assert forall k :: 0 <= k < |lost| ==> lost[k] in lost && lost[k] in All(|problems|);
  }

  /** A file that its archive holds is copied for all of its entries or for none. */
  ghost predicate BreaksByFile(staging: Staging, problems: seq<Problem>, breaks: Breaks) {
    forall i, j ::
      0 <= i < |problems| && 0 <= j < |problems| && problems[i].file == problems[j].file && i in breaks ==>
        j in breaks || Source(staging, problems[i].file).None?
  }

  /** And its entries share their fate exactly when breaking copies do. */
  lemma LostByFileExact(missing: seq<Problem>, lost: seq<nat>, staging: Staging, problems: seq<Problem>,
                        breaks: Breaks)
    requires Reports(missing, lost, staging, problems, breaks, All(|problems|))
    ensures ByFile(problems, lost) <==> BreaksByFile(staging, problems, breaks)
  {
    ReportedAreLost(missing, lost, staging, problems, breaks);
    forall i | 0 <= i < |problems|
      ensures i in lost <==> Source(staging, problems[i].file).None? || i in breaks
    {
      assert i in All(|problems|);
    }
    hide Reports, LostThese, Source, Copied;
    assert forall k :: 0 <= k < |lost| ==> lost[k] in lost;
    if BreaksByFile(staging, problems, breaks) {
      forall i, j | 0 <= i < |problems| && 0 <= j < |problems| && problems[i].file == problems[j].file && i in lost
        ensures j in lost
      {
      }
    } else {
      var i, j :| 0 <= i < |problems| && 0 <= j < |problems| && problems[i].file == problems[j].file && i in breaks
                  && j !in breaks && Source(staging, problems[i].file).Some?;
      assert i in lost && j !in lost;
    }
  }

  /** Those of the first n problems that are about one of the files. */
  function Hits(problems: seq<Problem>, files: set<string>, n: nat): set<nat>
    requires n <= |problems|
  {
    set i: nat | i < n && problems[i].file in files
  }

  lemma {:induction false} SentCount(problems: seq<Problem>, files: set<string>, n: nat)
    requires n <= |problems|
    ensures |Sent(problems[..n], files)| + |Hits(problems, files, n)| == n
  {
    if n > 0 {
      var m := n - 1;
      SentCount(problems, files, m);
      assert problems[..n][..m] == problems[..m];
      var before := Hits(problems, files, m);
      assert Hits(problems, files, n) == if problems[m].file in files then before + {m} else before;
    } else {
      assert Hits(problems, files, n) == {};
    }
  }

  /** What is sent and what is missing are all of it exactly when entries for one
      file share their fate. */
  lemma SentAndMissing(problems: seq<Problem>, missing: seq<Problem>, lost: seq<nat>)
    requires LostThese(problems, missing, lost)
    ensures |Sent(problems, FilesOf(missing))| + |missing| == |problems| <==> ByFile(problems, lost)
  {
    hide Sent;
    SentCount(problems, FilesOf(missing), |problems|);
    assert problems[..|problems|] == problems;
    DistinctSize(lost);
    HitsAreLost(problems, missing, lost);
  }

  lemma HitsAreLost(problems: seq<Problem>, missing: seq<Problem>, lost: seq<nat>)
    requires LostThese(problems, missing, lost)
    ensures |Hits(problems, FilesOf(missing), |problems|)| == |SetOf(lost)| <==> ByFile(problems, lost)
  {
    var hit := Hits(problems, FilesOf(missing), |problems|);
    forall i | i in lost ensures i in hit {
      var k :| 0 <= k < |lost| && lost[k] == i;
      assert missing[k].file == problems[i].file;
    }
    assert SetOf(lost) <= hit;
    if ByFile(problems, lost) {
      forall i | i in hit ensures i in lost {
        var k :| 0 <= k < |missing| && missing[k].file == problems[i].file;
        assert lost[k] in lost && problems[lost[k]].file == problems[i].file;
      }
      assert hit == SetOf(lost);
    } else {
      var i, j :| 0 <= i < |problems| && 0 <= j < |problems| && problems[i].file == problems[j].file
                  && i in lost && j !in lost;
      assert i in hit;
      assert j in hit - SetOf(lost);
      SmallerByOne(SetOf(lost), hit, j);
    }
  }

  /** The counts of a retry, whatever its report, cover what was left out: as many
      files are processed, discarded or still counted as left out. */
  lemma NothingDropped(report: Report, named: seq<Problem>, retry: Retry, lost: seq<nat>)
    requires LostThese(retry.prev.problems, retry.missing, lost) && ByFile(retry.prev.problems, lost)
    ensures report.processed + report.discarded + Folded(report, named, retry).mismatch >= |retry.prev.problems|
  {
    hide Sent, FilesOf;
    SentAndMissing(retry.prev.problems, retry.missing, lost);
  }

  /** A file listed twice of which one copy fails is dropped: it counts once as
      missing, and not at all as sent. */
  lemma TwiceListedIsDropped(p: Problem)
    ensures var retry := Retry(Verify(2, 0, 2, [p, p]), [NotFound(p)]);
            Folded(Report(0, 0, 0, 0), [], retry) == Verify(2, 1, 1, [NotFound(p)])
  {
    var retry := Retry(Verify(2, 0, 2, [p, p]), [NotFound(p)]);
    assert NotFound(p).file in FilesOf([NotFound(p)]) by {
      assert [NotFound(p)][0].file == p.file;
    }
    assert [p, p][..1] == [p] && [p][..0] == [];
    assert Sent([p], FilesOf([NotFound(p)])) == [];
    assert Sent([p, p], FilesOf([NotFound(p)])) == [];
  }
}
