/** Reading an import's log for the files it did not bring over. */
module ImmichLog {

  const MAX_PROBLEMS: nat := 100

  /** One line of the log; file is empty when the line names none. */
  datatype Line = Line(level: string, step: string, file: string, extra: string)
  {
    predicate Names(f: string) { f != "" && file == f }

    predicate Err() { level == "ERR" }

    predicate Discovers() { !Err() && (step == "discovered image" || step == "discovered video") }

    /** The metadata matching that comes before an outcome. */
    predicate Matches() { !Err() && (step == "associated metadata" || step == "missing metadata") }

    function Reason(): string { if extra == "" then step else step + " " + extra }
  }

  datatype Problem = Problem(file: string, pending: bool, reason: string, missing: bool)

  type Log = seq<Line>

  // ----- What the log says, on its first n lines -----

  /** Line i is the first error about its file. */
  predicate FirstError(log: Log, i: nat)
    requires i < |log|
  {
    log[i].file != "" && log[i].Err() && forall j :: 0 <= j < i && log[j].Err() ==> log[j].file != log[i].file
  }

  /** Line i is the first to discover its file. */
  predicate FirstFound(log: Log, i: nat)
    requires i < |log|
  {
    log[i].file != "" && log[i].Discovers() && forall j :: 0 <= j < i && log[j].Discovers() ==>
        log[j].file != log[i].file
  }

  /** Line i discovers f, and nothing but metadata matching names f afterwards. */
  predicate OpenedAt(log: Log, n: nat, f: string, i: nat)
    requires i < n <= |log|
  {
    log[i].Names(f) && log[i].Discovers() && forall j :: i < j < n && log[j].Names(f) ==> log[j].Matches()
  }

  /** f was discovered, and no outcome followed. */
  ghost predicate IsOpen(log: Log, n: nat, f: string)
    requires n <= |log|
  {
    exists i :: 0 <= i < n && OpenedAt(log, n, f, i)
  }

  /** The step of the last line that names f. */
  function LastStep(log: Log, n: nat, f: string): string
    requires n <= |log|
  {
    if n == 0 then "" else if log[n - 1].Names(f) then log[n - 1].step else LastStep(log, n - 1, f)
  }

  /** The files with an error, each once, in the order of its first. */
  function Errors(log: Log, n: nat): seq<Problem>
    requires n <= |log|
  {
    if n == 0 then []
    else if FirstError(log, n - 1) then
      Errors(log, n - 1) + [Problem(log[n - 1].file, false, log[n - 1].Reason(), false)]
    else Errors(log, n - 1)
  }

  /** The files discovered, each once, in the order found. */
  function Found(log: Log, n: nat): seq<string>
    requires n <= |log|
  {
    if n == 0 then [] else Found(log, n - 1) + (if FirstFound(log, n - 1) then [log[n - 1].file] else [])
  }

  /** Those of the files that are still open, each with its last step. */
  ghost function StillOpen(log: Log, files: seq<string>): seq<Problem> {
    if files == [] then []
    else
      var n := |files| - 1;
      if IsOpen(log, |log|, files[n]) then
        StillOpen(log, files[..n]) + [Problem(files[n], true, LastStep(log, |log|, files[n]), false)]
      else StillOpen(log, files[..n])
  }

  function Cut(problems: seq<Problem>): seq<Problem> {
    if |problems| <= MAX_PROBLEMS then problems else problems[..MAX_PROBLEMS]
  }

  /** What the log names: the errors, then the files left open. */
  ghost function Named(log: Log): seq<Problem> {
    Errors(log, |log|) + StillOpen(log, Found(log, |log|))
  }

  // ----- The scan -----

  lemma OpenStep(log: Log, n: nat, f: string)
    requires n < |log|
    ensures IsOpen(log, n + 1, f) <==>
              if log[n].Names(f) then log[n].Discovers() || (log[n].Matches() && IsOpen(log, n, f))
              else IsOpen(log, n, f)
  {
    if IsOpen(log, n, f) {
      var i :| 0 <= i < n && OpenedAt(log, n, f, i);
      assert OpenedAt(log, n + 1, f, i) <==> (log[n].Names(f) ==> log[n].Matches());
    }
    if log[n].Names(f) && log[n].Discovers() {
      assert OpenedAt(log, n + 1, f, n);
    }
    if IsOpen(log, n + 1, f) {
      var i :| 0 <= i < n + 1 && OpenedAt(log, n + 1, f, i);
      if i < n {
        assert OpenedAt(log, n, f, i);
      }
    }
  }

  ghost predicate OpenMap(log: Log, n: nat, open: map<string, string>)
    requires n <= |log|
  {
    && (forall f :: f in open <==> IsOpen(log, n, f))
    && (forall f :: f in open ==> open[f] == LastStep(log, n, f))
  }

  lemma OpenMapStep(log: Log, n: nat, open: map<string, string>, open': map<string, string>)
    requires n < |log| && OpenMap(log, n, open)
    requires var e := log[n];
             open' == if e.file == "" then open
                      else if e.Discovers() then open[e.file := e.step]
                      else if e.Matches() then (if e.file in open then open[e.file := e.step] else open)
                      else open - {e.file}
    ensures OpenMap(log, n + 1, open')
  {
    forall f ensures f in open' <==> IsOpen(log, n + 1, f) {
      OpenStep(log, n, f);
    }
    hide IsOpen;
  }

  /** The files discovered, and those with an error, on the first n lines. */
  ghost predicate SeenSet(log: Log, n: nat, seen: set<string>)
    requires n <= |log|
  {
    forall f :: f in seen <==> exists j :: 0 <= j < n && log[j].Names(f) && log[j].Discovers()
  }

  ghost predicate NamedSet(log: Log, n: nat, named: set<string>)
    requires n <= |log|
  {
    forall f :: f in named <==> exists j :: 0 <= j < n && log[j].Names(f) && log[j].Err()
  }

  lemma SeenStep(log: Log, n: nat, seen: set<string>)
    requires n < |log| && SeenSet(log, n, seen)
    ensures FirstFound(log, n) <==> log[n].file != "" && log[n].Discovers() && log[n].file !in seen
    ensures log[n].file in seen ==> seen + {log[n].file} == seen
    ensures SeenSet(log, n + 1, if log[n].file != "" && log[n].Discovers() then seen + {log[n].file} else seen)
  {
    var seen' := if log[n].file != "" && log[n].Discovers() then seen + {log[n].file} else seen;
    forall f ensures f in seen' <==> exists j :: 0 <= j < n + 1 && log[j].Names(f) && log[j].Discovers() {
      if f in seen {
        var j :| 0 <= j < n && log[j].Names(f) && log[j].Discovers();
      } else if f in seen' {
        assert log[n].Names(f);
      }
    }
    if log[n].file in seen {
      var j :| 0 <= j < n && log[j].Names(log[n].file) && log[j].Discovers();
    } else if log[n].file != "" {
      assert forall j :: 0 <= j < n && log[j].Discovers() ==> !log[j].Names(log[n].file);
    }
  }

  lemma NamedStep(log: Log, n: nat, named: set<string>)
    requires n < |log| && NamedSet(log, n, named)
    ensures FirstError(log, n) <==> log[n].file != "" && log[n].Err() && log[n].file !in named
    ensures log[n].file in named ==> named + {log[n].file} == named
    ensures NamedSet(log, n + 1, if log[n].file != "" && log[n].Err() then named + {log[n].file} else named)
  {
    var named' := if log[n].file != "" && log[n].Err() then named + {log[n].file} else named;
    forall f ensures f in named' <==> exists j :: 0 <= j < n + 1 && log[j].Names(f) && log[j].Err() {
      if f in named {
        var j :| 0 <= j < n && log[j].Names(f) && log[j].Err();
      } else if f in named' {
        assert log[n].Names(f);
      }
    }
    if log[n].file in named {
      var j :| 0 <= j < n && log[j].Names(log[n].file) && log[j].Err();
    } else if log[n].file != "" {
      assert forall j :: 0 <= j < n && log[j].Err() ==> !log[j].Names(log[n].file);
    }
  }

  method ImmichProblems(log: Log) returns (problems: seq<Problem>)
    ensures problems == Cut(Named(log))
    ensures problems <= Named(log) && |problems| == if |Named(log)| < 100 then |Named(log)| else 100
  {
    hide IsOpen, LastStep, Errors, Found, Cut, Add;
    var open, order;
    problems, open, order := Scan(log);
    NoneOpenYet(log);
    assert order[..0] == [] && Errors(log, |log|) + [] == Errors(log, |log|);
    var k := 0;
    while k < |order|
      invariant k <= |order|
      invariant problems == Cut(Errors(log, |log|) + StillOpen(log, order[..k]))
    {
      OpenListStep(log, order, k);
      if order[k] in open {
        CutAdds(Errors(log, |log|) + StillOpen(log, order[..k]), Problem(order[k], true, open[order[k]], false));
        problems := Add(problems, Problem(order[k], true, open[order[k]], false));
        assert Errors(log, |log|) + StillOpen(log, order[..k]) + [Problem(order[k], true, open[order[k]], false)]
            == Errors(log, |log|) + (StillOpen(log, order[..k]) + [Problem(order[k], true, open[order[k]], false)]);
      }
      k := k + 1;
    }
    assert order[..k] == order;
    CutIs(Named(log));
  }

  lemma CutIs(problems: seq<Problem>)
    ensures Cut(problems) <= problems && |Cut(problems)| == if |problems| < 100 then |problems| else 100
  {
  }

  /** The loop over the lines: the errors so far, the files still open and the
      order they were found in. */
  method Scan(log: Log) returns (problems: seq<Problem>, open: map<string, string>, order: seq<string>)
    ensures problems == Cut(Errors(log, |log|)) && order == Found(log, |log|) && OpenMap(log, |log|, open)
  {
    hide OpenMap, SeenSet, NamedSet, FirstError, FirstFound, Add, Errors, Found, Cut;
    problems, open, order := [], map[], [];
    var seen: set<string> := {};
    var named: set<string> := {};
    NothingYet(log);
    var i := 0;
    while i < |log|
      invariant i <= |log|
      invariant OpenMap(log, i, open)
      invariant order == Found(log, i) && problems == Cut(Errors(log, i))
      invariant SeenSet(log, i, seen) && NamedSet(log, i, named)
    {
      SeenStep(log, i, seen);
      NamedStep(log, i, named);
      ListsStep(log, i);
      var e := log[i];
      ghost var was := open;
      if e.file != "" {
        if e.Err() {
          if e.file !in named {
            named := named + {e.file};
            CutAdds(Errors(log, i), Problem(e.file, false, e.Reason(), false));
            problems := Add(problems, Problem(e.file, false, e.Reason(), false));
          }
          open := open - {e.file};
        } else if e.Discovers() {
          open := open[e.file := e.step];
          if e.file !in seen {
            seen := seen + {e.file};
            order := order + [e.file];
          }
        } else if e.Matches() {
          if e.file in open {
            open := open[e.file := e.step];
          }
        } else {
          open := open - {e.file};
        }
      }
      OpenMapStep(log, i, was, open);
      i := i + 1;
    }
  }

  lemma NothingYet(log: Log)
    ensures OpenMap(log, 0, map[]) && SeenSet(log, 0, {}) && NamedSet(log, 0, {})
    ensures Cut(Errors(log, 0)) == [] && Found(log, 0) == []
  {
  }

  lemma NoneOpenYet(log: Log)
    ensures StillOpen(log, []) == []
  {
  }

  lemma OpenListStep(log: Log, files: seq<string>, k: nat)
    requires k < |files|
    ensures StillOpen(log, files[..k + 1]) ==
              if IsOpen(log, |log|, files[k])
              then StillOpen(log, files[..k]) + [Problem(files[k], true, LastStep(log, |log|, files[k]), false)]
              else StillOpen(log, files[..k])
  {
    hide IsOpen, LastStep;
    assert files[..k + 1][..k] == files[..k];
  }

  lemma ListsStep(log: Log, n: nat)
    requires n < |log|
    ensures Errors(log, n + 1) ==
              if FirstError(log, n) then Errors(log, n) + [Problem(log[n].file, false, log[n].Reason(), false)]
              else Errors(log, n)
    ensures Found(log, n + 1) == if FirstFound(log, n) then Found(log, n) + [log[n].file] else Found(log, n)
  {
    hide FirstError, FirstFound;
  }

  lemma CutAdds(all: seq<Problem>, p: Problem)
    ensures Add(Cut(all), p) == Cut(all + [p])
  {
  }

  /** One more, up to the cap. */
  function Add(problems: seq<Problem>, p: Problem): seq<Problem> {
    if |problems| < MAX_PROBLEMS then problems + [p] else problems
  }

  // ----- What the list says -----

  /** The line behind the kth error of the list. */
  function ErrorLine(log: Log, n: nat, k: nat): (i: nat)
    requires n <= |log| && k < |Errors(log, n)|
    ensures i < n && FirstError(log, i) && Errors(log, n)[k] == Problem(log[i].file, false, log[i].Reason(), false)
  {
    if k < |Errors(log, n - 1)| then ErrorLine(log, n - 1, k) else n - 1
  }

  lemma {:induction false} ErrorsInOrder(log: Log, n: nat, j: nat, k: nat)
    requires n <= |log| && j < k < |Errors(log, n)|
    ensures ErrorLine(log, n, j) < ErrorLine(log, n, k)
  {
    if k < |Errors(log, n - 1)| {
      ErrorsInOrder(log, n - 1, j, k);
    }
  }

  lemma {:induction false} EveryErrorListed(log: Log, n: nat, i: nat) returns (k: nat)
    requires i < n <= |log| && log[i].file != "" && log[i].Err()
    ensures k < |Errors(log, n)| && Errors(log, n)[k].file == log[i].file
  {
    if i == n - 1 && FirstError(log, i) {
      k := |Errors(log, n)| - 1;
    } else if i == n - 1 {
      var j :| 0 <= j < i && log[j].Err() && log[j].file == log[i].file;
      k := EveryErrorListed(log, n - 1, j);
    } else {
      k := EveryErrorListed(log, n - 1, i);
    }
  }

  predicate HasError(log: Log, f: string) {
    exists i :: 0 <= i < |log| && log[i].Names(f) && log[i].Err()
  }

  predicate ListedAsError(log: Log, f: string) {
    exists k :: 0 <= k < |Errors(log, |log|)| && Errors(log, |log|)[k].file == f
  }

  /** Each file with an error line is listed exactly once as an error, in the
      order of its first, with what that line says. */
  lemma ErrorsExact(log: Log)
    ensures forall f :: ListedAsError(log, f) <==> HasError(log, f)
    ensures forall j, k :: 0 <= j < k < |Errors(log, |log|)| ==>
              Errors(log, |log|)[j].file != Errors(log, |log|)[k].file
    ensures forall k :: 0 <= k < |Errors(log, |log|)| ==>
              var i := ErrorLine(log, |log|, k);
              Errors(log, |log|)[k] == Problem(log[i].file, false, log[i].Reason(), false)
  {
    var n := |log|;
    forall f ensures ListedAsError(log, f) <==> HasError(log, f) {
      if k :| 0 <= k < |Errors(log, n)| && Errors(log, n)[k].file == f {
        var i := ErrorLine(log, n, k);
        assert log[i].Names(f);
      }
      if i :| 0 <= i < |log| && log[i].Names(f) && log[i].Err() {
        var k := EveryErrorListed(log, n, i);
      }
    }
    forall j, k | 0 <= j < k < |Errors(log, n)| ensures Errors(log, n)[j].file != Errors(log, n)[k].file {
      ErrorsInOrder(log, n, j, k);
      assert FirstError(log, ErrorLine(log, n, k));
    }
  }

  function FoundLine(log: Log, n: nat, k: nat): (i: nat)
    requires n <= |log| && k < |Found(log, n)|
    ensures i < n && FirstFound(log, i) && Found(log, n)[k] == log[i].file
  {
    if k < |Found(log, n - 1)| then FoundLine(log, n - 1, k) else n - 1
  }

  lemma {:induction false} FoundInOrder(log: Log, n: nat, j: nat, k: nat)
    requires n <= |log| && j < k < |Found(log, n)|
    ensures FoundLine(log, n, j) < FoundLine(log, n, k) && Found(log, n)[j] != Found(log, n)[k]
  {
    if k < |Found(log, n - 1)| {
      FoundInOrder(log, n - 1, j, k);
    } else {
      assert FirstFound(log, n - 1);
    }
  }

  lemma {:induction false} EveryOpenFound(log: Log, n: nat, i: nat)
    requires i < n <= |log| && log[i].file != "" && log[i].Discovers()
    ensures log[i].file in Found(log, n)
  {
    if i == n - 1 && !FirstFound(log, i) {
      var j :| 0 <= j < i && log[j].Discovers() && log[j].file == log[i].file;
      EveryOpenFound(log, n - 1, j);
    } else if i < n - 1 {
      EveryOpenFound(log, n - 1, i);
    }
  }

  lemma {:induction false} StillOpenExact(log: Log, files: seq<string>, p: Problem)
    ensures p in StillOpen(log, files) <==>
              p.file in files && IsOpen(log, |log|, p.file)
                  && p == Problem(p.file, true, LastStep(log, |log|, p.file), false)
    decreases |files|
  {
    hide IsOpen, LastStep;
    if files != [] {
      var n := |files| - 1;
      assert files == files[..n] + [files[n]];
      StillOpenExact(log, files[..n], p);
    }
  }

  /** A file is listed as left open exactly when it was discovered and only
      metadata matching followed, with its last step; that step is the discovery
      or the matching. */
  lemma LeftOpenExact(log: Log, p: Problem)
    ensures p in StillOpen(log, Found(log, |log|)) <==>
              IsOpen(log, |log|, p.file) && p == Problem(p.file, true, LastStep(log, |log|, p.file), false)
    ensures IsOpen(log, |log|, p.file) ==>
              LastStep(log, |log|, p.file) in {"discovered image", "discovered video", "associated metadata",
                  "missing metadata"}
  {
    StillOpenExact(log, Found(log, |log|), p);
    if IsOpen(log, |log|, p.file) {
      var i :| 0 <= i < |log| && OpenedAt(log, |log|, p.file, i);
      EveryOpenFound(log, |log|, i);
      OpenStepOf(log, |log|, p.file, i);
    }
  }

  lemma {:induction false} OpenStepOf(log: Log, n: nat, f: string, i: nat)
    requires i < n <= |log| && OpenedAt(log, n, f, i)
    ensures LastStep(log, n, f) in {"discovered image", "discovered video", "associated metadata", "missing metadata"}
  {
    if !log[n - 1].Names(f) {
      assert OpenedAt(log, n - 1, f, i);
      OpenStepOf(log, n - 1, f, i);
    }
  }

  /** A file that errs and is discovered again is listed twice, so the list can
      be longer than the files it names. */
  lemma ErrorThenDiscoveredAgain(f: string)
    requires f != ""
    ensures var log := [Line("ERR", "upload failed", f, ""), Line("INF", "discovered image", f, "")];
            Named(log) == [Problem(f, false, "upload failed", false), Problem(f, true, "discovered image", false)]
  {
    var log := [Line("ERR", "upload failed", f, ""), Line("INF", "discovered image", f, "")];
    assert Errors(log, 0) == [] && FirstError(log, 0) && !FirstError(log, 1);
    assert Errors(log, 1) == [Problem(f, false, "upload failed", false)] && Errors(log, 2) == Errors(log, 1);
    assert Found(log, 0) == [] && !FirstFound(log, 0) && FirstFound(log, 1);
    assert Found(log, 1) == [] && Found(log, 2) == [f];
    assert OpenedAt(log, 2, f, 1);
    assert LastStep(log, 2, f) == "discovered image";
    assert StillOpen(log, []) == [];
  }

  predicate ListedTwice(log: seq<Problem>, f: string) {
    exists j, k :: 0 <= j < k < |log| && log[j].file == f && log[k].file == f
  }

  lemma {:induction false} StillOpenOnce(log: Log, files: seq<string>)
    requires forall j, k :: 0 <= j < k < |files| ==> files[j] != files[k]
    ensures forall j, k :: 0 <= j < k < |StillOpen(log, files)| ==>
              StillOpen(log, files)[j].file != StillOpen(log, files)[k].file
    decreases |files|
  {
    hide IsOpen, LastStep;
    if files != [] {
      var n := |files| - 1;
      var before := StillOpen(log, files[..n]);
      StillOpenOnce(log, files[..n]);
      forall j | 0 <= j < |before| ensures before[j].file != files[n] {
        StillOpenExact(log, files[..n], before[j]);
      }
    }
  }

  /** The list names a file twice exactly when it has an error and is still open:
      it was discovered again after its last error. */
  lemma ListedTwiceExact(log: Log, f: string)
    ensures ListedTwice(Named(log), f) <==> HasError(log, f) && IsOpen(log, |log|, f)
  {
    var errors, found := Errors(log, |log|), Found(log, |log|);
    forall j, k | 0 <= j < k < |found| ensures found[j] != found[k] {
      FoundInOrder(log, |log|, j, k);
    }
    StillOpenOnce(log, found);
    ErrorsExact(log);
    var open := StillOpen(log, found);
    var p := Problem(f, true, LastStep(log, |log|, f), false);
    LeftOpenExact(log, p);
    forall i | 0 <= i < |open| ensures IsOpen(log, |log|, open[i].file) {
      LeftOpenExact(log, open[i]);
    }
    hide IsOpen, LastStep, Errors, Found, StillOpen, HasError;
    TwiceInTwoLists(errors, open, f);
    assert ListedAsError(log, f) <==> exists k :: 0 <= k < |errors| && errors[k].file == f;
    if IsOpen(log, |log|, f) {
      assert p in open;
    }
  }

  /** Two lists that each name a file once name it twice together exactly when both
      do. */
  lemma TwiceInTwoLists(a: seq<Problem>, b: seq<Problem>, f: string)
    requires forall j, k :: 0 <= j < k < |a| ==> a[j].file != a[k].file
    requires forall j, k :: 0 <= j < k < |b| ==> b[j].file != b[k].file
    ensures ListedTwice(a + b, f) <==>
              (exists j :: 0 <= j < |a| && a[j].file == f) && (exists k :: 0 <= k < |b| && b[k].file == f)
  {
    var all := a + b;
    if j, k :| 0 <= j < |a| && a[j].file == f && 0 <= k < |b| && b[k].file == f {
      assert all[j].file == f && all[|a| + k].file == f;
    }
    if ListedTwice(all, f) {
      var j, k :| 0 <= j < k < |all| && all[j].file == f && all[k].file == f;
      assert j < |a| && k >= |a|;
      assert a[j].file == f && b[k - |a|].file == f;
    }
  }

  // ----- In the log's own labels -----

  /** Line i names f, is no error, and is labelled as a discovery. */
  predicate SaysDiscovered(log: Log, i: nat, f: string)
    requires i < |log|
  {
    log[i].file == f && log[i].level != "ERR" && log[i].step in {"discovered image", "discovered video"}
  }

  /** It names f without an error, and is labelled as a discovery or as metadata
      matching. */
  predicate SaysNoOutcome(log: Log, i: nat, f: string)
    requires i < |log|
  {
    && log[i].file == f && log[i].level != "ERR"
    && log[i].step in {"discovered image", "discovered video", "associated metadata", "missing metadata"}
  }

  /** A line says that f was discovered, and every later one that names f says
      nothing of an outcome. */
  predicate LeftWithout(log: Log, f: string) {
    f != ""
    && exists i ::
         && 0 <= i < |log| && SaysDiscovered(log, i, f)
         && forall j :: i < j < |log| && log[j].file == f ==> SaysNoOutcome(log, j, f)
  }

  /** Line i is the last that names f. */
  predicate LastAbout(log: Log, i: nat, f: string)
    requires i < |log|
  {
    log[i].file == f && forall j :: i < j < |log| ==> log[j].file != f
  }

  /** Line i is the first error that names f. */
  predicate FirstErrorAbout(log: Log, i: nat, f: string)
    requires i < |log|
  {
    log[i].file == f && log[i].level == "ERR" && forall j :: 0 <= j < i && log[j].level == "ERR" ==> log[j].file != f
  }

  lemma {:induction false} OpenInLabels(log: Log, n: nat, f: string)
    requires n <= |log|
    ensures IsOpen(log, n, f) <==>
              f != "" && exists i :: 0 <= i < n && SaysDiscovered(log, i, f)
                             && forall j :: i < j < n && log[j].file == f ==> SaysNoOutcome(log, j, f)
  {
    if n > 0 {
      OpenInLabels(log, n - 1, f);
      OpenStep(log, n - 1, f);
      hide IsOpen;
      if log[n - 1].Names(f) && log[n - 1].Discovers() {
        assert SaysDiscovered(log, n - 1, f);
      }
      if IsOpen(log, n, f) && !(log[n - 1].Names(f) && log[n - 1].Discovers()) {
        var i :| 0 <= i < n - 1 && SaysDiscovered(log, i, f)
                 && forall j :: i < j < n - 1 && log[j].file == f ==> SaysNoOutcome(log, j, f);
        assert forall j :: i < j < n && log[j].file == f ==> SaysNoOutcome(log, j, f);
      }
    }
  }

  lemma {:induction false} LastStepIs(log: Log, n: nat, f: string)
    requires f != "" && n <= |log| && exists i :: 0 <= i < n && log[i].file == f
    ensures exists i :: 0 <= i < n && log[i].file == f && (forall j :: i < j < n ==> log[j].file != f)
                        && LastStep(log, n, f) == log[i].step
  {
    if log[n - 1].file == f {
      assert LastStep(log, n, f) == log[n - 1].step;
    } else {
      LastStepIs(log, n - 1, f);
      var i :| 0 <= i < n - 1 && log[i].file == f && (forall j :: i < j < n - 1 ==> log[j].file != f)
               && LastStep(log, n - 1, f) == log[i].step;
      assert forall j :: i < j < n ==> log[j].file != f;
    }
  }

  /** What is listed as pending: the files the log discovers and leaves without an
      outcome, and for each the label of the last line about it. */
  lemma PendingInLabels(log: Log, p: Problem)
    ensures p in Named(log) && p.pending <==>
              LeftWithout(log, p.file) && p.pending && !p.missing
              && exists i :: 0 <= i < |log| && LastAbout(log, i, p.file) && p.reason == log[i].step
  {
    NamedOrPending(log, p);
    LeftOpenExact(log, p);
    OpenInLabels(log, |log|, p.file);
    if LeftWithout(log, p.file) {
      LastStepIs(log, |log|, p.file);
      var i :| 0 <= i < |log| && log[i].file == p.file && (forall j :: i < j < |log| ==> log[j].file != p.file)
               && LastStep(log, |log|, p.file) == log[i].step;
      assert LastAbout(log, i, p.file);
      assert forall k :: 0 <= k < |log| && LastAbout(log, k, p.file) ==> k == i;
    }
  }

  /** The errors of the list are not pending, and the rest is. */
  lemma NamedOrPending(log: Log, p: Problem)
    ensures p in Named(log) && p.pending <==> p in StillOpen(log, Found(log, |log|)) && p.pending
    ensures p in Named(log) && !p.pending <==> p in Errors(log, |log|) && !p.pending
    ensures p in Errors(log, |log|) ==> !p.pending
  {
    var errors, open := Errors(log, |log|), StillOpen(log, Found(log, |log|));
    StillOpenExact(log, Found(log, |log|), p);
    if p in errors {
      var k :| 0 <= k < |errors| && errors[k] == p;
      assert FirstError(log, ErrorLine(log, |log|, k));
    }
    assert p in Named(log) <==> p in errors || p in open;
  }

  /** What is listed as an error: the files a line with the level ERR names, each as
      its first such line says: the label, and the rest of the line after a space if
      there is any. */
  lemma ErrorsInLabels(log: Log, p: Problem)
    ensures p in Named(log) && !p.pending <==>
              p.file != "" && !p.pending && !p.missing
              && exists i :: 0 <= i < |log| && FirstErrorAbout(log, i, p.file)
                     && p.reason == if log[i].extra == "" then log[i].step else log[i].step + " " + log[i].extra
  {
    NamedOrPending(log, p);
    var errors := Errors(log, |log|);
    if p in errors {
      var k :| 0 <= k < |errors| && errors[k] == p;
      assert FirstErrorAbout(log, ErrorLine(log, |log|, k), p.file);
    }
    if i :| p.file != "" && !p.pending && !p.missing && 0 <= i < |log| && FirstErrorAbout(log, i, p.file)
            && p.reason == (if log[i].extra == "" then log[i].step else log[i].step + " " + log[i].extra) {
      var k := EveryErrorListed(log, |log|, i);
      var l := ErrorLine(log, |log|, k);
      assert FirstError(log, l) && l == i;
      assert errors[k] == p;
    }
  }

  /** Line i is the first to discover f. */
  predicate FirstFoundAbout(log: Log, i: nat, f: string)
    requires i < |log|
  {
    SaysDiscovered(log, i, f) && forall j :: 0 <= j < i ==> !SaysDiscovered(log, j, f)
  }

  lemma {:induction false} StillOpenInOrder(log: Log, files: seq<string>, j: nat, k: nat) returns (a: nat, b: nat)
    requires j < k < |StillOpen(log, files)|
    ensures a < b < |files| && files[a] == StillOpen(log, files)[j].file && files[b] == StillOpen(log, files)[k].file
    decreases |files|
  {
    hide IsOpen, LastStep;
    var n := |files| - 1;
    var before := StillOpen(log, files[..n]);
    if k < |before| {
      a, b := StillOpenInOrder(log, files[..n], j, k);
    } else {
      StillOpenExact(log, files[..n], before[j]);
      a :| 0 <= a < n && files[a] == before[j].file;
      b := n;
    }
  }

  /** The errors come first, by their first lines; then the files left pending, by
      the lines that first discovered them. */
  lemma NamedInOrder(log: Log, j: nat, k: nat)
    requires j < k < |Named(log)|
    ensures Named(log)[j].pending ==> Named(log)[k].pending
    ensures !Named(log)[k].pending ==>
              exists a, b :: 0 <= a < b < |log| && FirstErrorAbout(log, a, Named(log)[j].file)
                  && FirstErrorAbout(log, b, Named(log)[k].file)
    ensures Named(log)[j].pending ==>
              exists a, b :: 0 <= a < b < |log| && FirstFoundAbout(log, a, Named(log)[j].file)
                  && FirstFoundAbout(log, b, Named(log)[k].file)
  {
    var errors, open := Errors(log, |log|), StillOpen(log, Found(log, |log|));
    var p, q := Named(log)[j], Named(log)[k];
    NamedOrPending(log, p);
    NamedOrPending(log, q);
    assert Named(log) == errors + open;
    if k < |errors| {
      ErrorLinesInOrder(log, j, k);
    } else {
      StillOpenExact(log, Found(log, |log|), q);
      hide IsOpen, LastStep, FirstErrorAbout, FirstFoundAbout, Named, StillOpen, Errors;
      if j >= |errors| {
        FoundLinesInOrder(log, j - |errors|, k - |errors|);
      }
    }
  }

  lemma ErrorLinesInOrder(log: Log, j: nat, k: nat)
    requires j < k < |Errors(log, |log|)|
    ensures var errors := Errors(log, |log|);
            exists a, b :: 0 <= a < b < |log| && FirstErrorAbout(log, a, errors[j].file)
                && FirstErrorAbout(log, b, errors[k].file)
  {
    ErrorsInOrder(log, |log|, j, k);
    var a, b := ErrorLine(log, |log|, j), ErrorLine(log, |log|, k);
    hide Errors;
    assert FirstErrorAbout(log, a, Errors(log, |log|)[j].file) && FirstErrorAbout(log, b, Errors(log, |log|)[k].file);
  }

  lemma FoundLinesInOrder(log: Log, j: nat, k: nat)
    requires j < k < |StillOpen(log, Found(log, |log|))|
    ensures var open := StillOpen(log, Found(log, |log|));
            exists a, b :: 0 <= a < b < |log| && FirstFoundAbout(log, a, open[j].file)
                && FirstFoundAbout(log, b, open[k].file)
  {
    var open, found := StillOpen(log, Found(log, |log|)), Found(log, |log|);
    var x, y := StillOpenInOrder(log, found, j, k);
    FoundInOrder(log, |log|, x, y);
    var a, b := FoundLine(log, |log|, x), FoundLine(log, |log|, y);
    hide StillOpen, Found;
    assert FirstFoundAbout(log, a, open[j].file) && FirstFoundAbout(log, b, open[k].file);
  }
}
