/** Chains of retries, file by file. */
module RetryChains {
  import opened Names
  import opened ImmichLog
  import opened Extraction
  import opened ImportOutcome

  // ----- What a report counts -----

  /** What became of one file in the folder that was sent. Silent: folder mode
      skipped it without a word. */
  datatype Fate = Processed | Discarded | Errored | StillPending | Silent

  function Count(fates: seq<Fate>, f: Fate): nat {
    if fates == [] then 0 else Count(fates[..|fates| - 1], f) + (if fates[|fates| - 1] == f then 1 else 0)
  }

  function SettledCount(fates: seq<Fate>): nat { Count(fates, Processed) + Count(fates, Discarded) }

  function BadCount(fates: seq<Fate>): nat { Count(fates, Errored) + Count(fates, StillPending) }

  lemma {:induction false} CountsAddUp(fates: seq<Fate>)
    ensures SettledCount(fates) + BadCount(fates) + Count(fates, Silent) == |fates|
  {
    if fates != [] {
      CountsAddUp(fates[..|fates| - 1]);
    }
  }

  /** The report on the files sent and on what broken copies left beside them. */
  function ReportOn(fates: seq<Fate>, extra: seq<Fate>): Report {
    Report(Count(fates, Processed) + Count(extra, Processed), Count(fates, Discarded) + Count(extra, Discarded),
           Count(fates, Errored) + Count(extra, Errored), Count(fates, StillPending) + Count(extra, StillPending))
  }

  /** A retry whose report reached counts at least the files that are truly left out
      exactly when the leftovers of broken copies do not stand in for silent files:
      none of them is settled while some silent file is noticed, or enough of them
      are bad to make up for every silent one. */
  lemma RetryCountsExact(retry: Retry, fates: seq<Fate>, extra: seq<Fate>, named: seq<Problem>)
    requires |fates| == |retry.SentFiles()| && ReportOn(fates, extra).Reached()
    ensures Folded(ReportOn(fates, extra), named, retry).mismatch
              >= BadCount(fates) + Count(fates, Silent) + |retry.missing| <==>
              if Count(fates, Silent) > SettledCount(extra) + BadCount(extra) then SettledCount(extra) == 0
              else Count(fates, Silent) <= BadCount(extra)
  {
    CountsAddUp(fates);
    hide Count, Mapped;
  }

  /** Without leftovers it counts exactly them. */
  lemma RetryCountsAll(retry: Retry, fates: seq<Fate>, named: seq<Problem>)
    requires |fates| == |retry.SentFiles()|
    ensures Folded(ReportOn(fates, []), named, retry).mismatch ==
              BadCount(fates) + Count(fates, Silent) + |retry.missing|
  {
    CountsAddUp(fates);
    assert Count([], Processed) == Count([], Discarded) == Count([], Errored) == Count([], StillPending) == 0;
    hide Count, Mapped;
  }

  /** The record of an import that reached its report: in are the files processed,
      left out the errors and the pending, and checked all but those discarded or
      skipped. */
  lemma ImportCountsExact(fates: seq<Fate>, named: seq<Problem>)
    ensures var v := Recorded(ReportOn(fates, []), named);
            && v.matched == Count(fates, Processed) && v.mismatch == Count(fates, Errored) + Count(fates, StillPending)
            && v.checked + Count(fates, Discarded) + Count(fates, Silent) == |fates|
            && (|named| == v.mismatch ==> v.ProblemsComplete() && v.problems == named)
  {
    CountsAddUp(fates);
    assert Count([], Processed) == Count([], Discarded) == Count([], Errored) == Count([], StillPending) == 0;
    hide Count;
  }

  // ----- Files, with how often each is listed -----

  function Files(problems: seq<Problem>): multiset<string> {
    if problems == [] then multiset{}
    else Files(problems[..|problems| - 1]) + multiset{problems[|problems| - 1].file}
  }

  lemma {:induction false} FilesSize(problems: seq<Problem>)
    ensures |Files(problems)| == |problems|
  {
    if problems != [] {
      FilesSize(problems[..|problems| - 1]);
    }
  }

  lemma {:induction false} FilesOfBoth(a: seq<Problem>, b: seq<Problem>)
    ensures Files(a + b) == Files(a) + Files(b)
    decreases |b|
  {
    if b == [] {
      assert a + b == a;
    } else {
      var n := |b| - 1;
      assert (a + b)[..|a + b| - 1] == a + b[..n];
      FilesOfBoth(a, b[..n]);
    }
  }

  /** The files sent whose fate is one of these. */
  function WithFate(sent: seq<Problem>, fates: seq<Fate>, which: set<Fate>): multiset<string>
    requires |sent| == |fates|
  {
    if sent == [] then multiset{}
    else
      var n := |sent| - 1;
      if fates[n] in which then WithFate(sent[..n], fates[..n], which) + multiset{sent[n].file}
      else WithFate(sent[..n], fates[..n], which)
  }

  function SettledFiles(sent: seq<Problem>, fates: seq<Fate>): multiset<string>
    requires |sent| == |fates|
  {
    WithFate(sent, fates, {Processed, Discarded})
  }

  function BadFiles(sent: seq<Problem>, fates: seq<Fate>): multiset<string>
    requires |sent| == |fates|
  {
    WithFate(sent, fates, {Errored, StillPending})
  }

  function SilentFiles(sent: seq<Problem>, fates: seq<Fate>): multiset<string>
    requires |sent| == |fates|
  {
    WithFate(sent, fates, {Silent})
  }

  /** Every file sent has one fate. */
  lemma {:induction false} FatesSplitFiles(sent: seq<Problem>, fates: seq<Fate>)
    requires |sent| == |fates|
    ensures Files(sent) == SettledFiles(sent, fates) + BadFiles(sent, fates) + SilentFiles(sent, fates)
    decreases |sent|
  {
    if sent == [] {
      NothingSplits(sent, fates);
    } else {
      hide Files, WithFate;
      var n := |sent| - 1;
      var s, f := sent[..n], fates[..n];
      FatesSplitFiles(s, f);
      LastFile(sent);
      LastFate(sent, fates, {Processed, Discarded});
      LastFate(sent, fates, {Errored, StillPending});
      LastFate(sent, fates, {Silent});
      AddToOne(SettledFiles(s, f), BadFiles(s, f), SilentFiles(s, f), multiset{sent[n].file});
      match fates[n] {
        case Processed =>
        case Discarded =>
        case Errored =>
        case StillPending =>
        case Silent =>
      }
    }
  }

  lemma LastFile(problems: seq<Problem>)
    requires problems != []
    ensures Files(problems) == Files(problems[..|problems| - 1]) + multiset{problems[|problems| - 1].file}
  {
  }

  lemma LastFate(sent: seq<Problem>, fates: seq<Fate>, which: set<Fate>)
    requires |sent| == |fates| > 0
    ensures var n := |sent| - 1;
            WithFate(sent, fates, which) ==
              if fates[n] in which then WithFate(sent[..n], fates[..n], which) + multiset{sent[n].file}
              else WithFate(sent[..n], fates[..n], which)
  {
  }

  lemma NothingSplits(sent: seq<Problem>, fates: seq<Fate>)
    requires sent == [] && fates == []
    ensures Files(sent) == multiset{}
    ensures SettledFiles(sent, fates) == BadFiles(sent, fates) == SilentFiles(sent, fates) == multiset{}
  {
  }

  lemma AddToOne(a: multiset<string>, b: multiset<string>, c: multiset<string>, x: multiset<string>)
    ensures (a + x) + b + c == a + b + c + x
    ensures a + (b + x) + c == a + b + c + x
    ensures a + b + (c + x) == a + b + c + x
  {
  }

  /** The counts are those of the files. */
  lemma {:induction false} BadFilesSize(sent: seq<Problem>, fates: seq<Fate>)
    requires |sent| == |fates|
    ensures |BadFiles(sent, fates)| == BadCount(fates) && |SilentFiles(sent, fates)| == Count(fates, Silent)
    decreases |sent|
  {
    if sent != [] {
      BadFilesSize(sent[..|sent| - 1], fates[..|sent| - 1]);
    }
  }

  /** The files of the problems in s, among the first n. */
  function FilesAt(problems: seq<Problem>, s: set<nat>, n: nat): multiset<string>
    requires n <= |problems|
  {
    if n == 0 then multiset{}
    else if n - 1 in s then FilesAt(problems, s, n - 1) + multiset{problems[n - 1].file}
    else FilesAt(problems, s, n - 1)
  }

  lemma {:induction false} OneMoreAt(problems: seq<Problem>, s: set<nat>, i: nat, n: nat)
    requires n <= |problems| && i < |problems| && i !in s
    ensures FilesAt(problems, s + {i}, n) ==
              if i < n then FilesAt(problems, s, n) + multiset{problems[i].file} else FilesAt(problems, s, n)
  {
    if n > 0 {
      hide FilesAt;
      OneMoreAt(problems, s, i, n - 1);
      LastAt(problems, s, n);
      LastAt(problems, s + {i}, n);
      if i < n - 1 && n - 1 in s {
        Swap(FilesAt(problems, s, n - 1), multiset{problems[i].file}, multiset{problems[n - 1].file});
      }
    }
  }

  lemma LastAt(problems: seq<Problem>, s: set<nat>, n: nat)
    requires 0 < n <= |problems|
    ensures FilesAt(problems, s, n) ==
              if n - 1 in s then FilesAt(problems, s, n - 1) + multiset{problems[n - 1].file}
              else FilesAt(problems, s, n - 1)
  {
  }

  lemma Swap(a: multiset<string>, b: multiset<string>, c: multiset<string>)
    ensures a + b + c == a + c + b
  {
  }

  lemma {:induction false} NoneAt(problems: seq<Problem>, n: nat)
    requires n <= |problems|
    ensures FilesAt(problems, {}, n) == multiset{}
  {
    if n > 0 {
      NoneAt(problems, n - 1);
    }
  }

  lemma {:induction false} MissingFiles(problems: seq<Problem>, missing: seq<Problem>, lost: seq<nat>)
    requires LostThese(problems, missing, lost)
    ensures Files(missing) == FilesAt(problems, SetOf(lost), |problems|)
    decreases |lost|
  {
    if lost == [] {
      assert SetOf(lost) == {};
      NoneAt(problems, |problems|);
    } else {
      var n := |lost| - 1;
      MissingFiles(problems, missing[..n], lost[..n]);
      assert lost == lost[..n] + [lost[n]];
      assert SetOf(lost) == SetOf(lost[..n]) + {lost[n]};
      OneMoreAt(problems, SetOf(lost[..n]), lost[n], |problems|);
    }
  }

  lemma {:induction false} SentFilesAt(problems: seq<Problem>, files: set<string>, s: set<nat>, n: nat)
    requires n <= |problems| && forall i :: 0 <= i < n ==> (problems[i].file in files <==> i in s)
    ensures Files(problems[..n]) == Files(Sent(problems[..n], files)) + FilesAt(problems, s, n)
  {
    if n > 0 {
      var m := n - 1;
      var x, sent, at := multiset{problems[m].file}, Files(Sent(problems[..m], files)), FilesAt(problems, s, m);
      hide Files, FilesAt, Sent;
      SentFilesAt(problems, files, s, m);
      LastListed(problems, m);
      LastSent(problems, files, m);
      LastAt(problems, s, n);
      Swap(sent, x, at);
    }
  }

  lemma LastListed(problems: seq<Problem>, m: nat)
    requires m < |problems|
    ensures Files(problems[..m + 1]) == Files(problems[..m]) + multiset{problems[m].file}
  {
    assert problems[..m + 1][..m] == problems[..m];
  }

  lemma LastSent(problems: seq<Problem>, files: set<string>, m: nat)
    requires m < |problems|
    ensures Files(Sent(problems[..m + 1], files)) ==
              if problems[m].file in files then Files(Sent(problems[..m], files))
              else Files(Sent(problems[..m], files)) + multiset{problems[m].file}
  {
    assert problems[..m + 1][..m] == problems[..m];
    var sent := Sent(problems[..m], files);
    OneFile(problems[m]);
    assert Sent(problems[..m + 1], files) == if problems[m].file in files then sent else sent + [problems[m]] by {
      assert sent + [] == sent;
    }
    hide Files, Sent;
    FilesOfBoth(sent, [problems[m]]);
  }

  /** What is sent and what is missing is the list, file by file. */
  lemma SentAndMissingFiles(problems: seq<Problem>, missing: seq<Problem>, lost: seq<nat>)
    requires LostThese(problems, missing, lost) && ByFile(problems, lost)
    ensures Files(problems) == Files(Sent(problems, FilesOf(missing))) + Files(missing)
  {
    forall i | 0 <= i < |problems| ensures problems[i].file in FilesOf(missing) <==> i in SetOf(lost) {
      if i in lost {
        var k :| 0 <= k < |lost| && lost[k] == i;
        assert missing[k].file == problems[i].file;
      }
      if problems[i].file in FilesOf(missing) {
        var k :| 0 <= k < |missing| && missing[k].file == problems[i].file;
        assert lost[k] in lost && problems[lost[k]].file == problems[i].file;
      }
    }
    SentFilesAt(problems, FilesOf(missing), SetOf(lost), |problems|);
    assert problems[..|problems|] == problems;
    MissingFiles(problems, missing, lost);
  }

  // ----- Attempts -----

  /** One click on "retry only these": the files that could not be copied, what
      became of the others and of the leftovers, and what the log names. Or none
      could be copied, or the retry stopped before it could say anything. */
  datatype Attempt =
    | Ran(missing: seq<Problem>, fates: seq<Fate>, extra: seq<Fate>, named: seq<Problem>)
    | FoundNone(missing: seq<Problem>)
    | Stopped

  function AfterAttempt(v: Verify, a: Attempt): Verify {
    match a
    case Ran(missing, fates, extra, named) => Folded(ReportOn(fates, extra), named, Retry(v, missing))
    case FoundNone(missing) => v.(problems := missing)
    case Stopped => v
  }

  function AfterAttempts(v: Verify, attempts: seq<Attempt>): Verify {
    if attempts == [] then v else AfterAttempt(AfterAttempts(v, attempts[..|attempts| - 1]), attempts[|attempts| - 1])
  }

  /** Over any chain of retries of an import, the files checked stay the import's,
      and what is in and what is not always add up to them. */
  lemma {:induction false} ChainBalances(report: Report, named: seq<Problem>, attempts: seq<Attempt>)
    ensures var v := AfterAttempts(Recorded(report, named), attempts);
            v.Balanced() && v.checked == report.processed + report.errors + report.pending
    decreases |attempts|
  {
    if attempts != [] {
      hide Pending, Mapped, ReportOn;
      ChainBalances(report, named, attempts[..|attempts| - 1]);
    }
  }

  /** The missing are problems of the list, each once, and entries for one file share
      their fate. */
  ghost predicate SplitByFile(problems: seq<Problem>, missing: seq<Problem>) {
    exists lost :: LostThese(problems, missing, lost) && ByFile(problems, lost)
  }

  /** The runner lets the retry through, and it is about the files of the list. */
  ghost predicate Permitted(v: Verify, a: Attempt) {
    && v.CanRetryProblems()
    && (a.Ran? ==> SplitByFile(v.problems, a.missing) && |a.fates| == |Retry(v, a.missing).SentFiles()|)
    && (a.FoundNone? ==> SplitByFile(v.problems, a.missing) && |a.missing| == |v.problems|)
  }

  /** The log names files that were sent and went wrong, none more often than it
      did. */
  ghost predicate LogTells(v: Verify, a: Attempt) {
    a.Ran? && |a.fates| == |Retry(v, a.missing).SentFiles()| ==>
      Files(Mapped(a.named, v.problems)) <= BadFiles(Retry(v, a.missing).SentFiles(), a.fates)
  }

  /** The record v is what a retry the runner lets through makes of prev. */
  ghost predicate FromRetry(prev: Verify, v: Verify) {
    exists a :: Permitted(prev, a) && v == AfterAttempt(prev, a)
  }

  /** A retry is one of these whatever report it ends with: at worst every file was
      skipped without a word, and the report is about leftovers. */
  lemma AnyReportIsARetry(prev: Verify, missing: seq<Problem>, report: Report, named: seq<Problem>)
    requires prev.CanRetryProblems() && SplitByFile(prev.problems, missing)
    ensures FromRetry(prev, Folded(report, named, Retry(prev, missing)))
  {
    hide Mapped, Pending, Sent;
    var n := |Retry(prev, missing).SentFiles()|;
    var fates := Times(Silent, n);
    var extra := Times(Processed, report.processed) + Times(Discarded, report.discarded)
                 + Times(Errored, report.errors) + Times(StillPending, report.pending);
    forall f ensures Count(extra, f) == Count(Times(Processed, report.processed), f)
        + Count(Times(Discarded, report.discarded), f) + Count(Times(Errored, report.errors), f)
        + Count(Times(StillPending, report.pending), f)
    {
      CountOfBoth(Times(Processed, report.processed), Times(Discarded, report.discarded), f);
      CountOfBoth(Times(Processed, report.processed) + Times(Discarded, report.discarded),
          Times(Errored, report.errors), f);
      CountOfBoth(Times(Processed, report.processed) + Times(Discarded, report.discarded)
          + Times(Errored, report.errors), Times(StillPending, report.pending), f);
    }
    assert ReportOn(fates, extra) == report;
    var a := Ran(missing, fates, extra, named);
    assert Permitted(prev, a) && AfterAttempt(prev, a) == Folded(report, named, Retry(prev, missing));
  }

  function Times(f: Fate, n: nat): (r: seq<Fate>)
    ensures |r| == n && forall g :: Count(r, g) == if f == g then n else 0
  {
    if n == 0 then [] else
      var s := Times(f, n - 1);
      assert (s + [f])[..|s|] == s;
      s + [f]
  }

  lemma {:induction false} CountOfBoth(a: seq<Fate>, b: seq<Fate>, f: Fate)
    ensures Count(a + b, f) == Count(a, f) + Count(b, f)
    decreases |b|
  {
    if b == [] {
      assert a + b == a;
    } else {
      assert (a + b)[..|a + b| - 1] == a + b[..|b| - 1];
      CountOfBoth(a, b[..|b| - 1], f);
    }
  }

  ghost predicate AllPermitted(v: Verify, attempts: seq<Attempt>) {
    attempts == []
    || (AllPermitted(v, attempts[..|attempts| - 1])
        && Permitted(AfterAttempts(v, attempts[..|attempts| - 1]), attempts[|attempts| - 1]))
  }

  ghost predicate LogsTell(v: Verify, attempts: seq<Attempt>) {
    attempts == []
    || (LogsTell(v, attempts[..|attempts| - 1])
        && LogTells(AfterAttempts(v, attempts[..|attempts| - 1]), attempts[|attempts| - 1]))
  }

  predicate NoLeftovers(attempts: seq<Attempt>) {
    forall k :: 0 <= k < |attempts| && attempts[k].Ran? ==> attempts[k].extra == []
  }

  /** The files an attempt processed or discarded, of those it sent. */
  function SettledBy(v: Verify, a: Attempt): multiset<string> {
    if a.Ran? && |a.fates| == |Retry(v, a.missing).SentFiles()|
    then SettledFiles(Retry(v, a.missing).SentFiles(), a.fates)
    else multiset{}
  }

  /** The files that a chain has settled. */
  function SettledIn(v: Verify, attempts: seq<Attempt>): multiset<string> {
    if attempts == [] then multiset{}
    else
      var n := |attempts| - 1;
      SettledIn(v, attempts[..n]) + SettledBy(AfterAttempts(v, attempts[..n]), attempts[n])
  }

  /** One retry without leftovers: every file of the list is settled or truly left
      out, the record counts exactly those left out, and names none but them. */
  lemma RetrySettlesOrKeeps(v: Verify, a: Attempt) returns (left: multiset<string>)
    requires Permitted(v, a) && LogTells(v, a) && NoLeftovers([a])
    ensures Files(v.problems) == SettledBy(v, a) + left
    ensures AfterAttempt(v, a).mismatch == |left| && Files(AfterAttempt(v, a).problems) <= left
  {
    FilesSize(v.problems);
    match a {
      case Stopped =>
        left := Files(v.problems);
      case FoundNone(missing) =>
        var lost :| LostThese(v.problems, missing, lost) && ByFile(v.problems, lost);
        SentAndMissingFiles(v.problems, missing, lost);
        FilesSize(missing);
        FilesSize(Sent(v.problems, FilesOf(missing)));
        left := Files(v.problems);
      case Ran(missing, fates, extra, named) =>
        assert [a][0].extra == [];
        left := RanSettlesOrKeeps(v, missing, fates, named);
    }
  }

  lemma RanSettlesOrKeeps(v: Verify, missing: seq<Problem>, fates: seq<Fate>, named: seq<Problem>)
    returns (left: multiset<string>)
    requires SplitByFile(v.problems, missing) && |fates| == |Retry(v, missing).SentFiles()|
    requires Files(Mapped(named, v.problems)) <= BadFiles(Retry(v, missing).SentFiles(), fates)
    ensures Files(v.problems) == SettledFiles(Retry(v, missing).SentFiles(), fates) + left
    ensures var v' := Folded(ReportOn(fates, []), named, Retry(v, missing));
            v'.mismatch == |left| && Files(v'.problems) <= left
  {
    var sent := Retry(v, missing).SentFiles();
    var lost :| LostThese(v.problems, missing, lost) && ByFile(v.problems, lost);
    SentAndMissingFiles(v.problems, missing, lost);
    FatesSplitFiles(sent, fates);
    BadFilesSize(sent, fates);
    RetryCountsAll(Retry(v, missing), fates, named);
    FilesSize(missing);
    left := BadFiles(sent, fates) + SilentFiles(sent, fates) + Files(missing);
    NamedFiles(v, missing, fates, named);
    Regroup(SettledFiles(sent, fates), BadFiles(sent, fates), SilentFiles(sent, fates), Files(missing));
    hide Count, Files, WithFate, Sent, FilesOf, Folded, ReportOn, LostThese, ByFile, Mapped;
  }

  /** What the record names is what went wrong or is missing, or everything when
      nothing was recognised. */
  lemma NamedFiles(v: Verify, missing: seq<Problem>, fates: seq<Fate>, named: seq<Problem>)
    requires |fates| == |Retry(v, missing).SentFiles()|
    requires Files(Mapped(named, v.problems)) <= BadFiles(Retry(v, missing).SentFiles(), fates)
    ensures var sent := Retry(v, missing).SentFiles();
            Files(Folded(ReportOn(fates, []), named, Retry(v, missing)).problems)
              <= BadFiles(sent, fates) + SilentFiles(sent, fates) + Files(missing)
  {
    var sent, report := Retry(v, missing).SentFiles(), ReportOn(fates, []);
    FatesSplitFiles(sent, fates);
    CountsAddUp(fates);
    assert Count([], Processed) == Count([], Discarded) == Count([], Errored) == Count([], StillPending) == 0;
    FilesOfBoth(sent, missing);
    FilesOfBoth(Mapped(named, v.problems), missing);
    FilesOfBoth([], missing);
    NoneSettled(sent, fates);
    hide Count, Mapped, Files, BadFiles, SilentFiles, SettledFiles;
  }

  /** When the log names everything that went wrong, and nothing was skipped or
      nothing recognised at all, the record after a retry without leftovers names
      exactly the files left out, and is complete: what is left can be retried. */
  lemma RetryNamesAll(v: Verify, missing: seq<Problem>, fates: seq<Fate>, named: seq<Problem>)
    requires SplitByFile(v.problems, missing) && |fates| == |Retry(v, missing).SentFiles()|
    requires Files(Mapped(named, v.problems)) == BadFiles(Retry(v, missing).SentFiles(), fates)
    requires Count(fates, Silent) == 0 || Count(fates, Silent) == |fates|
    ensures var v', sent := Folded(ReportOn(fates, []), named, Retry(v, missing)), Retry(v, missing).SentFiles();
            && v'.ProblemsComplete()
            && Files(v.problems) == SettledFiles(sent, fates) + Files(v'.problems)
  {
    var sent := Retry(v, missing).SentFiles();
    var lost :| LostThese(v.problems, missing, lost) && ByFile(v.problems, lost);
    SentAndMissingFiles(v.problems, missing, lost);
    FatesSplitFiles(sent, fates);
    NamedAreLeft(v, missing, fates, named);
    BadFilesSize(sent, fates);
    RetryCountsAll(Retry(v, missing), fates, named);
    var v' := Folded(ReportOn(fates, []), named, Retry(v, missing));
    FilesSize(v'.problems);
    FilesSize(missing);
    Regroup(SettledFiles(sent, fates), BadFiles(sent, fates), SilentFiles(sent, fates), Files(missing));
    hide Count, Files, WithFate, Sent, FilesOf, Folded, ReportOn, LostThese, ByFile;
    assert |v'.problems| == BadCount(fates) + Count(fates, Silent) + |missing|;
  }

  lemma Regroup(a: multiset<string>, b: multiset<string>, c: multiset<string>, d: multiset<string>)
    ensures a + b + c + d == a + (b + c + d) && |b + c + d| == |b| + |c| + |d|
  {
  }

  lemma ProblemsAre(report: Report, named: seq<Problem>, retry: Retry)
    ensures Folded(report, named, retry).problems ==
              (if !report.Reached() then retry.SentFiles()
               else if report.errors + report.pending > 0 then Mapped(named, retry.prev.problems) else [])
              + retry.missing
  {
    hide Pending, Mapped;
  }

  lemma NamedAreLeft(v: Verify, missing: seq<Problem>, fates: seq<Fate>, named: seq<Problem>)
    requires |fates| == |Retry(v, missing).SentFiles()|
    requires Files(Mapped(named, v.problems)) == BadFiles(Retry(v, missing).SentFiles(), fates)
    requires Count(fates, Silent) == 0 || Count(fates, Silent) == |fates|
    ensures var sent := Retry(v, missing).SentFiles();
            Files(Folded(ReportOn(fates, []), named, Retry(v, missing)).problems) ==
              BadFiles(sent, fates) + SilentFiles(sent, fates) + Files(missing)
  {
    var retry, report := Retry(v, missing), ReportOn(fates, []);
    var sent := retry.SentFiles();
    ProblemsAre(report, named, retry);
    CountsAddUp(fates);
    NoFates();
    BadFilesSize(sent, fates);
    hide Count, Mapped, Files, WithFate, Sent, Folded;
    if !report.Reached() {
      FatesSplitFiles(sent, fates);
      FilesOfBoth(sent, missing);
      NoneSettled(sent, fates);
    } else {
      EmptyBySize(SilentFiles(sent, fates));
      if report.errors + report.pending > 0 {
        FilesOfBoth(Mapped(named, v.problems), missing);
      } else {
        EmptyBySize(BadFiles(sent, fates));
        assert [] + missing == missing;
      }
    }
  }

  lemma EmptyBySize(a: multiset<string>)
    ensures |a| == 0 ==> forall b: multiset<string> :: a + b == b && b + a == b
  {
  }

  lemma {:induction false} NoneSettled(sent: seq<Problem>, fates: seq<Fate>)
    requires |sent| == |fates|
    ensures SettledCount(fates) == 0 ==> SettledFiles(sent, fates) == multiset{}
    decreases |sent|
  {
    if sent != [] {
      NoneSettled(sent[..|sent| - 1], fates[..|sent| - 1]);
    }
  }

  /** Over any chain of permitted retries without leftovers, with a log that tells
      the truth: every file left out at first is settled in one of them or is left
      out now, neither twice; the record counts exactly those, and names none but
      them. So a chain that ends in done has settled every single one. */
  lemma {:induction false} ChainSettlesEachFile(v: Verify, attempts: seq<Attempt>) returns (left: multiset<string>)
    requires v.ProblemsComplete() && AllPermitted(v, attempts) && LogsTell(v, attempts) && NoLeftovers(attempts)
    ensures Files(v.problems) == SettledIn(v, attempts) + left
    ensures AfterAttempts(v, attempts).mismatch == |left| && Files(AfterAttempts(v, attempts).problems) <= left
    ensures AfterAttempts(v, attempts).mismatch == 0 ==> SettledIn(v, attempts) == Files(v.problems)
    decreases |attempts|
  {
    if attempts == [] {
      FilesSize(v.problems);
      left := Files(v.problems);
    } else {
      hide AfterAttempt, Permitted, LogTells, SettledBy, Files;
      var n := |attempts| - 1;
      var prev, a := AfterAttempts(v, attempts[..n]), attempts[n];
      var before := ChainSettlesEachFile(v, attempts[..n]);
      left := RetrySettlesOrKeeps(prev, a);
      PermittedIsComplete(prev, a);
      FilesSize(prev.problems);
      SameBySize(Files(prev.problems), before);
    }
  }

  /** Processed or discarded in all, leftovers counted too. */
  function Outcomes(attempts: seq<Attempt>): nat {
    if attempts == [] then 0
    else
      var a := attempts[|attempts| - 1];
      Outcomes(attempts[..|attempts| - 1])
      + (if a.Ran? then SettledCount(a.fates) + SettledCount(a.extra) else 0)
  }

  /** Leftovers or not, and whatever the log names, the counts of a chain cover
      what was left out at first. */
  lemma {:induction false} ChainCounts(v: Verify, attempts: seq<Attempt>)
    requires AllPermitted(v, attempts)
    ensures AfterAttempts(v, attempts).mismatch + Outcomes(attempts) >= v.mismatch
    decreases |attempts|
  {
    if attempts != [] {
      hide Folded, LostThese, ByFile;
      var before, a := attempts[..|attempts| - 1], attempts[|attempts| - 1];
      ChainCounts(v, before);
      if a.Ran? {
        var prev := AfterAttempts(v, before);
        var lost :| LostThese(prev.problems, a.missing, lost) && ByFile(prev.problems, lost);
        NothingDropped(ReportOn(a.fates, a.extra), a.named, Retry(prev, a.missing), lost);
      }
    }
  }

  /** After a retry that found none of its files no further one is offered. */
  lemma NoRetryOfNothing(v: Verify, problems: seq<Problem>)
    ensures !AfterAttempt(v,
              FoundNone(seq(|problems|, i requires 0 <= i < |problems| => NotFound(problems[i])))).CanRetryProblems()
  {
  }

  lemma PermittedIsComplete(v: Verify, a: Attempt)
    requires Permitted(v, a)
    ensures |v.problems| == v.mismatch
  {
  }

  lemma SameBySize(a: multiset<string>, b: multiset<string>)
    requires a <= b && |a| == |b|
    ensures a == b
  {
    assert b == a + (b - a);
    assert |b - a| == 0;
  }

  /** A leftover can stand in for a file. Of three files left out, the first one's
      copy breaks and what it left is imported, the second is skipped without a
      word, the third goes wrong; then the third and the first are sent again. The
      chain ends in done, and the second was never settled. */
  lemma LeftoverHidesFile(a: Problem, b: Problem, c: Problem)
    requires a.file != b.file && a.file != c.file && b.file != c.file
    requires LastIndex(c.file, '/') < 0 && !a.missing && !b.missing && !c.missing
    ensures var v := Verify(3, 0, 3, [a, b, c]);
            var attempts := [Ran([NotFound(a)], [Silent, Errored], [Processed], [c]),
                Ran([], [Processed, Processed], [], [])];
            && AllPermitted(v, attempts) && LogsTell(v, attempts) && AfterAttempts(v, attempts).mismatch == 0
            && b.file !in SettledIn(v, attempts)
  {
    var v, v1 := Verify(3, 0, 3, [a, b, c]), Verify(3, 1, 2, [c, NotFound(a)]);
    var a1, a2 := Ran([NotFound(a)], [Silent, Errored], [Processed], [c]), Ran([], [Processed, Processed], [], []);
    FirstHides(a, b, c);
    SecondIsDone(c, NotFound(a));
    hide AfterAttempt, Permitted, LogTells, SettledBy;
    assert [a1, a2][..1] == [a1] && [a1][..0] == [];
    assert AfterAttempts(v, []) == v && AfterAttempts(v, [a1]) == AfterAttempt(v, a1) == v1;
    assert AllPermitted(v, []) && AllPermitted(v, [a1]) && LogsTell(v, []) && LogsTell(v, [a1]);
    assert SettledIn(v, [a1]) == SettledIn(v, []) + SettledBy(v, a1);
    assert SettledIn(v, [a1, a2]) == SettledIn(v, [a1]) + SettledBy(v1, a2);
  }

  lemma FirstHides(a: Problem, b: Problem, c: Problem)
    requires a.file != b.file && a.file != c.file && b.file != c.file
    requires LastIndex(c.file, '/') < 0 && !a.missing && !b.missing && !c.missing
    ensures var v, a1 := Verify(3, 0, 3, [a, b, c]), Ran([NotFound(a)], [Silent, Errored], [Processed], [c]);
            && Permitted(v, a1) && LogTells(v, a1) && b.file !in SettledBy(v, a1)
            && AfterAttempt(v, a1) == Verify(3, 1, 2, [c, NotFound(a)])
  {
    var v, missing := Verify(3, 0, 3, [a, b, c]), [NotFound(a)];
    SentWithout(a, b, c);
    hide LastIndex, Sent, FilesOf, Count, WithFate, Files, Mapped, Folded, SplitByFile;
    TwoFates(b, c, Silent, Errored);
    OneFile(c);
    MappedOne(c, v.problems);
    FirstRecord(a, b, c);
    assert a in v.problems;
  }

  lemma MappedOne(c: Problem, problems: seq<Problem>)
    requires LastIndex(c.file, '/') < 0
    ensures Mapped([c], problems) == [c]
  {
  }

  lemma FirstRecord(a: Problem, b: Problem, c: Problem)
    requires Sent([a, b, c], FilesOf([NotFound(a)])) == [b, c] && Mapped([c], [a, b, c]) == [c]
    ensures Folded(ReportOn([Silent, Errored], [Processed]), [c], Retry(Verify(3, 0, 3, [a, b, c]), [NotFound(a)]))
              == Verify(3, 1, 2, [c, NotFound(a)])
  {
    hide Sent, FilesOf, Count, Mapped;
    TwoFates(b, c, Silent, Errored);
    OneFate(Processed);
    assert ReportOn([Silent, Errored], [Processed]) == Report(1, 0, 1, 0);
  }

  /** The first of three is missing: the other two are sent. */
  lemma SentWithout(a: Problem, b: Problem, c: Problem)
    requires a.file != b.file && a.file != c.file && b.file != c.file
    ensures Sent([a, b, c], FilesOf([NotFound(a)])) == [b, c] && SplitByFile([a, b, c], [NotFound(a)])
  {
    var list, missing := [a, b, c], [NotFound(a)];
    assert missing[0].file == a.file;
    assert FilesOf(missing) == {a.file};
    assert list[..2] == [a, b] && [a, b][..1] == [a] && [a][..0] == [];
    assert Sent([a], {a.file}) == [];
    assert Sent([a, b], {a.file}) == [b];
    assert LostThese(list, missing, [0]) && ByFile(list, [0]);
  }

  lemma SecondIsDone(c: Problem, a: Problem)
    requires c.file != a.file && !c.missing
    ensures var v1, a2 := Verify(3, 1, 2, [c, a]), Ran([], [Processed, Processed], [], []);
            && Permitted(v1, a2) && LogTells(v1, a2) && AfterAttempt(v1, a2).mismatch == 0
            && SettledBy(v1, a2) == multiset{c.file, a.file}
  {
    var list := [c, a];
    AllOfTwo(c, a);
    hide Sent, FilesOf, Count, WithFate, Files, Mapped, Folded, SplitByFile;
    NoFates();
    TwoFates(c, a, Processed, Processed);
    SecondRecord(c, a);
    assert c in list;
    MappedNone(list);
  }

  lemma MappedNone(problems: seq<Problem>)
    ensures Mapped([], problems) == []
  {
  }

  /** With none missing both are sent. */
  lemma AllOfTwo(c: Problem, a: Problem)
    ensures Sent([c, a], FilesOf([])) == [c, a] && SplitByFile([c, a], [])
  {
    assert FilesOf([]) == {};
    SentAll([c, a]);
    assert LostThese([c, a], [], []) && ByFile([c, a], []);
  }

  lemma SecondRecord(c: Problem, a: Problem)
    requires Sent([c, a], FilesOf([])) == [c, a]
    ensures Folded(ReportOn([Processed, Processed], []), [], Retry(Verify(3, 1, 2, [c, a]), [])).mismatch == 0
  {
    hide Sent, FilesOf, Count, Mapped;
    NoFates();
    TwoFates(c, a, Processed, Processed);
    assert ReportOn([Processed, Processed], []) == Report(2, 0, 0, 0);
  }

  lemma NoFates()
    ensures Files([]) == multiset{} && forall f :: Count([], f) == 0
  {
  }

  lemma OneFate(f: Fate)
    ensures forall g :: Count([f], g) == if f == g then 1 else 0
  {
    assert [f][..0] == [];
  }

  lemma OneFile(p: Problem)
    ensures Files([p]) == multiset{p.file}
  {
    assert [p][..0] == [];
  }

  lemma TwoFates(p: Problem, q: Problem, f: Fate, g: Fate)
    ensures forall h :: Count([f, g], h) == (if f == h then 1 else 0) + (if g == h then 1 else 0)
    ensures forall which :: WithFate([p, q], [f, g], which) ==
              (if f in which then multiset{p.file} else multiset{})
              + (if g in which then multiset{q.file} else multiset{})
  {
    OneFate(f);
    assert [f, g][..1] == [f] && [p, q][..1] == [p] && [f][..0] == [] && [p][..0] == [];
    forall which ensures WithFate([p], [f], which) == if f in which then multiset{p.file} else multiset{} {
      assert WithFate([], [], which) == multiset{};
    }
  }
}
