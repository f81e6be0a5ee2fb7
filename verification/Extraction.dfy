/** Copying the files an import left out back out of their archives, into
    numbered folders, and finding the way back from such a copy to its file. */
module Extraction {
  import opened Wrappers
  import opened Decimal
  import opened Names
  import opened ImmichLog

  type Content = seq<int>

  /** The archives in staging: each by its file name, with its entries. One that
      cannot be opened is not here. */
  type Staging = map<string, map<string, Content>>

  /** The retry folder: what lies in folder i under which name. */
  type Folder = map<(nat, string), Content>

  /** The copies that break, by the number of their problem: None before their file
      is created, otherwise with these bytes left behind. */
  type Breaks = map<nat, Option<Content>>

  /** strings.Cut at the first occurrence of c. */
  function IndexOf(s: string, c: char): (i: nat)
    ensures i <= |s| && (i < |s| ==> s[i] == c) && forall k :: 0 <= k < i ==> s[k] != c
  {
    if s == "" || s[0] == c then 0 else 1 + IndexOf(s[1..], c)
  }

  predicate HasArchive(file: string) { IndexOf(file, ':') < |file| }

  function ArchiveOf(file: string): string { file[..IndexOf(file, ':')] }

  function PathOf(file: string): string
    requires HasArchive(file)
  {
    file[IndexOf(file, ':') + 1..]
  }

  /** The bytes of a file left out, as its archive holds them. */
  function Source(staging: Staging, file: string): Option<Content> {
    if !HasArchive(file) then None
    else
      var zip := Base(ArchiveOf(file)) + ".zip";
      if zip in staging && PathOf(file) in staging[zip] then Some(staging[zip][PathOf(file)]) else None
  }

  /** The name before the first colon is the archive's, without its ".zip"; the rest
      is the path in it. */
  lemma SourceExact(staging: Staging, archive: string, path: string)
    requires forall k :: 0 <= k < |archive| ==> archive[k] != ':'
    ensures var zip := Base(archive) + ".zip";
            Source(staging, archive + ":" + path) ==
              if zip in staging && path in staging[zip] then Some(staging[zip][path]) else None
    ensures Source(staging, archive) == None
  {
    hide Base;
    IndexOfAbsent(archive, ':');
    ColonAfter(archive, path);
  }

  lemma {:induction false} IndexOfAbsent(s: string, c: char)
    requires forall k :: 0 <= k < |s| ==> s[k] != c
    ensures IndexOf(s, c) == |s|
  {
    if s != "" {
      IndexOfAbsent(s[1..], c);
    }
  }

  function NotFound(p: Problem): Problem { p.(missing := true) }

  /** Problem i is copied: its archive holds it, and copying it does not break. */
  predicate Copied(staging: Staging, problems: seq<Problem>, breaks: Breaks, i: nat)
    requires i < |problems|
  {
    Source(staging, problems[i].file).Some? && i !in breaks
  }

  /** The copy of problem i breaks and leaves its file behind. */
  predicate LeavesFile(staging: Staging, problems: seq<Problem>, breaks: Breaks, i: nat)
    requires i < |problems|
  {
    Source(staging, problems[i].file).Some? && i in breaks && breaks[i].Some?
  }

  /** What copying problem i leaves in the folder, if anything. */
  function Deposit(staging: Staging, problems: seq<Problem>, breaks: Breaks, i: nat): (c: Option<Content>)
    requires i < |problems|
    ensures c.Some? ==> HasArchive(problems[i].file)
    ensures c.Some? <==> Copied(staging, problems, breaks, i) || LeavesFile(staging, problems, breaks, i)
  {
    if Source(staging, problems[i].file).None? then None
    else if i in breaks then breaks[i]
    else Source(staging, problems[i].file)
  }

  /** Where problem i goes. */
  function Place(problems: seq<Problem>, i: nat): (nat, string)
    requires i < |problems| && HasArchive(problems[i].file)
  {
    (i, Base(PathOf(problems[i].file)))
  }

  /** Of the problems in done the folder holds the copied ones, byte for byte as in
      their archives, and what broken copies left behind; and nothing else. */
  ghost predicate Holds(folder: Folder, staging: Staging, problems: seq<Problem>, breaks: Breaks, done: set<nat>)
    requires forall i :: i in done ==> i < |problems|
  {
    && (forall i :: i in done && Deposit(staging, problems, breaks, i).Some? ==>
          Place(problems, i) in folder && Some(folder[Place(problems, i)]) == Deposit(staging, problems, breaks, i))
    && (forall key :: key in folder ==>
          key.0 in done && Deposit(staging, problems, breaks, key.0).Some? && key == Place(problems, key.0))
  }

  /** The missing are exactly the problems in done that were not copied, each
      once; lost lists them by number. */
  ghost predicate Reports(missing: seq<Problem>, lost: seq<nat>, staging: Staging, problems: seq<Problem>,
                          breaks: Breaks, done: set<nat>)
    requires forall i :: i in done ==> i < |problems|
  {
    && (forall i :: i in lost <==> i in done && !Copied(staging, problems, breaks, i))
    && (forall j, k :: 0 <= j < k < |lost| ==> lost[j] != lost[k])
    && |missing| == |lost| && forall k :: 0 <= k < |lost| && lost[k] < |problems| ==>
        missing[k] == NotFound(problems[lost[k]])
  }

  function SetOf(s: seq<nat>): (r: set<nat>)
    ensures forall i :: i in r <==> i in s
  {
    set i | i in s
  }

  /** The problems of one archive. */
  predicate OfArchive(problems: seq<Problem>, archive: string, i: nat)
    requires i < |problems|
  {
    HasArchive(problems[i].file) && ArchiveOf(problems[i].file) == archive
  }

  /** Copies the given problems out of one archive. */
  method ExtractFrom(staging: Staging, archive: string, folder: Folder, problems: seq<Problem>, indexes: seq<nat>,
                     breaks: Breaks, ghost done: set<nat>)
    returns (copied: set<nat>, folder': Folder)
    requires Increasing(indexes) && forall k :: 0 <= k < |indexes| ==>
              indexes[k] < |problems| && indexes[k] !in done && OfArchive(problems, archive, indexes[k])
    requires forall i :: i in done ==> i < |problems|
    requires Holds(folder, staging, problems, breaks, done)
    ensures forall k :: 0 <= k < |indexes| ==> (indexes[k] in copied <==> Copied(staging, problems, breaks, indexes[k]))
    ensures Holds(folder', staging, problems, breaks, done + SetOf(indexes))
  {
    hide HasArchive, ArchiveOf, PathOf, Base, Holds, OfArchive, Copied, LeavesFile, Deposit;
    copied, folder' := {}, folder;
    assert indexes[..0] == [] && done + SetOf([]) == done;
    var zip := Base(archive) + ".zip";
    var k := 0;
    while k < |indexes|
      invariant k <= |indexes|
      invariant forall j :: 0 <= j < k ==> (indexes[j] in copied <==> Copied(staging, problems, breaks, indexes[j]))
      invariant forall i :: i in copied ==> i in indexes[..k]
      invariant Holds(folder', staging, problems, breaks, done + SetOf(indexes[..k]))
    {
      var i := indexes[k];
      ghost var before := done + SetOf(indexes[..k]);
      OneMoreIndex(indexes, k);
      assert done + SetOf(indexes[..k + 1]) == before + {i};
      CopiedWhen(staging, archive, problems, breaks, i);
      HoldsOneMore(folder', staging, problems, breaks, before, i);
      if zip in staging {
        var name := PathOf(problems[i].file);
        if name in staging[zip] {
          if i !in breaks {
            folder' := folder'[(i, Base(name)) := staging[zip][name]];
            copied := copied + {i};
          } else if breaks[i].Some? {
            folder' := folder'[(i, Base(name)) := breaks[i].value];
          }
        }
      }
      k := k + 1;
    }
    assert indexes[..k] == indexes;
  }

  lemma OneMoreIndex(s: seq<nat>, k: nat)
    requires Increasing(s) && k < |s|
    ensures s[..k + 1] == s[..k] + [s[k]] && s[k] !in s[..k] && SetOf(s[..k + 1]) == SetOf(s[..k]) + {s[k]}
  {
  }

  /** A problem of this archive is copied when the archive opens and holds it. */
  lemma CopiedWhen(staging: Staging, archive: string, problems: seq<Problem>, breaks: Breaks, i: nat)
    requires i < |problems| && OfArchive(problems, archive, i)
    ensures HasArchive(problems[i].file)
    ensures var zip, name := Base(archive) + ".zip", PathOf(problems[i].file);
            && (Copied(staging, problems, breaks, i) <==> zip in staging && name in staging[zip] && i !in breaks)
            && Deposit(staging, problems, breaks, i) == (if zip !in staging || name !in staging[zip] then None
                                                      else if i in breaks then breaks[i]
                                                      else Some(staging[zip][name]))
            && (zip in staging && name in staging[zip] ==>
                Source(staging, problems[i].file) == Some(staging[zip][name]))
            && Place(problems, i) == (i, Base(name))
  {
    hide HasArchive, PathOf, Base;
  }

  lemma HoldsOneMore(folder: Folder, staging: Staging, problems: seq<Problem>, breaks: Breaks, done: set<nat>, i: nat)
    requires (forall j :: j in done ==> j < |problems|) && i < |problems| && i !in done
    requires Holds(folder, staging, problems, breaks, done)
    ensures var left := Deposit(staging, problems, breaks, i);
            if left.Some? then Holds(folder[Place(problems, i) := left.value], staging, problems, breaks, done + {i})
            else Holds(folder, staging, problems, breaks, done + {i})
  {
    hide HasArchive, PathOf, Base, Deposit;
  }

  function All(n: nat): (s: set<nat>)
    ensures forall i: nat :: i in s <==> i < n
  {
    if n == 0 then {} else All(n - 1) + {n - 1}
  }

  predicate Increasing(s: seq<nat>) { forall j, k :: 0 <= j < k < |s| ==> s[j] < s[k] }

  /** The first n problems that have an archive, grouped by it. */
  ghost predicate Grouped(problems: seq<Problem>, n: nat, groups: map<string, seq<nat>>)
    requires n <= |problems|
  {
    && (forall a :: a in groups ==> GroupOk(problems, n, a, groups[a]))
    && (forall i :: 0 <= i < n && HasArchive(problems[i].file) ==> InGroup(groups, ArchiveOf(problems[i].file), i))
  }

  ghost predicate GroupOk(problems: seq<Problem>, n: nat, archive: string, group: seq<nat>)
    requires n <= |problems|
  {
    Increasing(group) && forall k :: 0 <= k < |group| ==> group[k] < n && OfArchive(problems, archive, group[k])
  }

  predicate InGroup(groups: map<string, seq<nat>>, archive: string, i: nat) {
    archive in groups && i in groups[archive]
  }

  method GroupByArchive(staging: Staging, problems: seq<Problem>, breaks: Breaks)
    returns (groups: map<string, seq<nat>>, missing: seq<Problem>, ghost lost: seq<nat>, ghost done: set<nat>)
    ensures Grouped(problems, |problems|, groups)
    ensures forall i: nat :: i in done <==> i < |problems| && !HasArchive(problems[i].file)
    ensures Reports(missing, lost, staging, problems, breaks, done)
  {
    hide HasArchive, ArchiveOf, PathOf, Base, Grouped, Reports;
    groups, missing, lost, done := map[], [], [], {};
    NothingGrouped(staging, problems, breaks);
    var i := 0;
    while i < |problems|
      invariant i <= |problems| && Grouped(problems, i, groups)
      invariant forall k: nat :: k in done <==> k < i && !HasArchive(problems[k].file)
      invariant Reports(missing, lost, staging, problems, breaks, done)
    {
      var file := problems[i].file;
      GroupedOneMore(problems, i, groups);
      if !HasArchive(file) {
        LostOneMore(missing, lost, staging, problems, breaks, done, i);
        missing := missing + [NotFound(problems[i])];
        lost, done := lost + [i], done + {i};
      } else {
        var archive := ArchiveOf(file);
        groups := groups[archive := (if archive in groups then groups[archive] else []) + [i]];
      }
      i := i + 1;
    }
  }

  lemma NothingGrouped(staging: Staging, problems: seq<Problem>, breaks: Breaks)
    ensures Grouped(problems, 0, map[]) && Reports([], [], staging, problems, breaks, {})
  {
  }

  lemma GroupedOneMore(problems: seq<Problem>, i: nat, groups: map<string, seq<nat>>)
    requires i < |problems| && Grouped(problems, i, groups)
    ensures var archive := ArchiveOf(problems[i].file);
            if HasArchive(problems[i].file) then
                Grouped(problems, i + 1, groups[archive := (if archive in groups then groups[archive] else []) + [i]])
            else Grouped(problems, i + 1, groups)
  {
    hide HasArchive, ArchiveOf, GroupOk;
    var archive := ArchiveOf(problems[i].file);
    var group := if archive in groups then groups[archive] else [];
    EmptyGroup(problems, i, archive);
    forall a | a in groups ensures GroupOk(problems, i + 1, a, groups[a]) {
      GroupGrows(problems, i, a, groups[a]);
    }
    if HasArchive(problems[i].file) {
      GroupAppends(problems, i, archive, group);
    }
  }

  lemma EmptyGroup(problems: seq<Problem>, n: nat, archive: string)
    requires n <= |problems|
    ensures GroupOk(problems, n, archive, [])
  {
  }

  lemma GroupGrows(problems: seq<Problem>, i: nat, archive: string, group: seq<nat>)
    requires i < |problems| && GroupOk(problems, i, archive, group)
    ensures GroupOk(problems, i + 1, archive, group)
  {
    hide OfArchive;
  }

  lemma GroupAppends(problems: seq<Problem>, i: nat, archive: string, group: seq<nat>)
    requires i < |problems| && GroupOk(problems, i, archive, group) && OfArchive(problems, archive, i)
    ensures GroupOk(problems, i + 1, archive, group + [i]) && i in group + [i]
    ensures forall j :: j in group ==> j in group + [i]
  {
    hide OfArchive;
  }

  lemma LostOneMore(missing: seq<Problem>, lost: seq<nat>, staging: Staging, problems: seq<Problem>, breaks: Breaks,
                    done: set<nat>, i: nat)
    requires (forall j :: j in done ==> j < |problems|) && i < |problems| && i !in done
    requires Reports(missing, lost, staging, problems, breaks, done) && !Copied(staging, problems, breaks, i)
    ensures Reports(missing + [NotFound(problems[i])], lost + [i], staging, problems, breaks, done + {i})
  {
    hide Copied;
  }

  /** Those of one archive that were not copied are reported. */
  method ReportLost(problems: seq<Problem>, indexes: seq<nat>, copied: set<nat>, missing: seq<Problem>,
                    ghost lost: seq<nat>, ghost staging: Staging, ghost breaks: Breaks, ghost done: set<nat>)
    returns (missing': seq<Problem>, ghost lost': seq<nat>)
    requires Increasing(indexes) && forall k :: 0 <= k < |indexes| ==> indexes[k] < |problems| && indexes[k] !in done
    requires forall k :: 0 <= k < |indexes| ==>
              (indexes[k] in copied <==> Copied(staging, problems, breaks, indexes[k]))
    requires (forall i :: i in done ==> i < |problems|) && Reports(missing, lost, staging, problems, breaks, done)
    ensures Reports(missing', lost', staging, problems, breaks, done + SetOf(indexes))
  {
    hide Copied;
    missing', lost' := missing, lost;
    var k := 0;
    while k < |indexes|
      invariant k <= |indexes|
      invariant Reports(missing', lost', staging, problems, breaks, done + SetOf(indexes[..k]))
    {
      OneMoreIndex(indexes, k);
      if indexes[k] !in copied {
        missing', lost' := missing' + [NotFound(problems[indexes[k]])], lost' + [indexes[k]];
      }
      k := k + 1;
    }
    assert indexes[..k] == indexes;
  }

  /** Each problem either lies in its own numbered folder, byte for byte as in its
      archive, or is reported missing, once; what broken copies left lies in the
      folder too. */
  method ExtractProblems(staging: Staging, problems: seq<Problem>, breaks: Breaks)
    returns (folder: Folder, missing: seq<Problem>, ghost lost: seq<nat>)
    ensures Holds(folder, staging, problems, breaks, All(|problems|))
    ensures Reports(missing, lost, staging, problems, breaks, All(|problems|))
  {
    hide Holds, Reports, HasArchive, ArchiveOf, Copied, LeavesFile, Deposit;
    var groups; ghost var done;
    groups, missing, lost, done := GroupByArchive(staging, problems, breaks);
    folder := map[];
    NothingHeld(staging, problems, breaks, done);
    var todo := groups.Keys;
    while todo != {}
      invariant todo <= groups.Keys
      invariant forall i: nat :: i in done <==>
                i < |problems| && (HasArchive(problems[i].file) ==> ArchiveOf(problems[i].file) !in todo)
      invariant Holds(folder, staging, problems, breaks, done)
      invariant Reports(missing, lost, staging, problems, breaks, done)
      decreases |todo|
    {
      var archive :| archive in todo;
      var indexes := groups[archive];
      forall k | 0 <= k < |indexes| ensures indexes[k] < |problems| && indexes[k] !in done
          && OfArchive(problems, archive, indexes[k]) {
        assert OfArchive(problems, archive, indexes[k]);
      }
      var copied;
      copied, folder := ExtractFrom(staging, archive, folder, problems, indexes, breaks, done);
      missing, lost := ReportLost(problems, indexes, copied, missing, lost, staging, breaks, done);
      done := done + SetOf(indexes);
      todo := todo - {archive};
    }
    assert done == All(|problems|);
  }

  lemma NothingHeld(staging: Staging, problems: seq<Problem>, breaks: Breaks, done: set<nat>)
    requires forall i: nat :: i in done <==> i < |problems| && !HasArchive(problems[i].file)
    ensures Holds(map[], staging, problems, breaks, done)
  {
    hide HasArchive;
  }

  /** The copies that break and leave their file behind. */
  function Leftovers(staging: Staging, problems: seq<Problem>, breaks: Breaks): set<nat> {
    set i | i in All(|problems|) && LeavesFile(staging, problems, breaks, i)
  }

  /** The folder holds only what was copied. */
  ghost predicate OnlyCopied(folder: Folder, staging: Staging, problems: seq<Problem>, breaks: Breaks) {
    forall key :: key in folder ==> key.0 < |problems| && Copied(staging, problems, breaks, key.0)
  }

  /** The two halves overlap in exactly what broken copies left: the folder holds
      only copied entries, and the halves add up, exactly when no copy breaks after
      its file is created. */
  lemma SplitExact(folder: Folder, missing: seq<Problem>, lost: seq<nat>, staging: Staging, problems: seq<Problem>,
                   breaks: Breaks)
    requires Holds(folder, staging, problems, breaks, All(|problems|))
    requires Reports(missing, lost, staging, problems, breaks, All(|problems|))
    ensures |missing| + |folder| == |problems| + |Leftovers(staging, problems, breaks)|
    ensures |missing| + |folder| == |problems| <==> Leftovers(staging, problems, breaks) == {}
    ensures OnlyCopied(folder, staging, problems, breaks) <==> Leftovers(staging, problems, breaks) == {}
  {
    var copied, left := All(|problems|) - SetOf(lost), Leftovers(staging, problems, breaks);
    SizeOfAll(|problems|);
    DistinctSize(lost);
    CopiedOrLost(missing, lost, staging, problems, breaks);
    FolderIsPlaces(folder, staging, problems, breaks, copied);
    WhatIsLeft(folder, staging, problems, breaks);
    hide Holds, Reports, Copied, LeavesFile, HasArchive, OnlyCopied;
    SameSize(copied + left, folder.Keys, problems);
    assert SetOf(lost) <= All(|problems|);
    assert copied !! left;
  }

  lemma WhatIsLeft(folder: Folder, staging: Staging, problems: seq<Problem>, breaks: Breaks)
    requires Holds(folder, staging, problems, breaks, All(|problems|))
    ensures forall i :: i in Leftovers(staging, problems, breaks) ==>
              i < |problems| && HasArchive(problems[i].file) && !Copied(staging, problems, breaks, i)
    ensures OnlyCopied(folder, staging, problems, breaks) <==> Leftovers(staging, problems, breaks) == {}
  {
    hide HasArchive, PathOf, Base, Source;
    var left := Leftovers(staging, problems, breaks);
    if left == {} {
      forall key | key in folder ensures key.0 < |problems| && Copied(staging, problems, breaks, key.0) {
        assert key.0 in All(|problems|);
        assert key.0 !in left;
      }
    } else {
      var i :| i in left;
      assert Place(problems, i) in folder;
    }
  }

  /** A copy that breaks after its file is created is both reported missing and left
      in the folder, under its own number, to be sent. */
  lemma BrokenCopyIsSentToo(folder: Folder, missing: seq<Problem>, lost: seq<nat>, staging: Staging,
                            problems: seq<Problem>, breaks: Breaks, i: nat)
    requires Holds(folder, staging, problems, breaks, All(|problems|))
    requires Reports(missing, lost, staging, problems, breaks, All(|problems|))
    requires i < |problems| && LeavesFile(staging, problems, breaks, i)
    ensures NotFound(problems[i]) in missing
    ensures Place(problems, i) in folder && Some(folder[Place(problems, i)]) == breaks[i]
  {
    hide HasArchive, PathOf, Base;
    assert i in All(|problems|);
    var k :| 0 <= k < |lost| && lost[k] == i;
    assert missing[k] == NotFound(problems[i]);
  }

  /** One such file: its archive holds it, and copying it breaks half way. */
  lemma BreakingInput(archive: string, name: string, content: Content, part: Content)
    requires archive != "" && Base(archive) == archive && IndexOf(archive, ':') == |archive|
    ensures var p := Problem(archive + ":" + name, true, "", false);
            LeavesFile(map[archive + ".zip" := map[name := content]], [p], map[0 := Some(part)], 0)
  {
    hide Base;
    ColonAfter(archive, name);
  }

  lemma {:induction false} ColonAfter(archive: string, name: string)
    requires IndexOf(archive, ':') == |archive|
    ensures var file := archive + ":" + name; IndexOf(file, ':') == |archive|
    ensures var file := archive + ":" + name;
            HasArchive(file) && ArchiveOf(file) == archive && PathOf(file) == name
  {
    var file := archive + ":" + name;
    if archive != "" {
      assert file[1..] == archive[1..] + ":" + name;
      ColonAfter(archive[1..], name);
    }
    assert file[..|archive|] == archive && file[|archive| + 1..] == name;
  }

  lemma CopiedOrLost(missing: seq<Problem>, lost: seq<nat>, staging: Staging, problems: seq<Problem>, breaks: Breaks)
    requires Reports(missing, lost, staging, problems, breaks, All(|problems|))
    ensures forall i :: i in lost ==> i < |problems|
    ensures forall i: nat :: i in All(|problems|) - SetOf(lost) <==>
              i < |problems| && Copied(staging, problems, breaks, i)
  {
    hide Copied;
    assert forall i :: i in lost ==> i in All(|problems|);
  }

  lemma FolderIsPlaces(folder: Folder, staging: Staging, problems: seq<Problem>, breaks: Breaks, copied: set<nat>)
    requires Holds(folder, staging, problems, breaks, All(|problems|))
    requires forall i: nat :: i in copied <==> i < |problems| && Copied(staging, problems, breaks, i)
    ensures forall i :: i in copied ==> HasArchive(problems[i].file)
    ensures forall i :: i in Leftovers(staging, problems, breaks) ==> i < |problems| && HasArchive(problems[i].file)
    ensures folder.Keys == set i | i in copied + Leftovers(staging, problems, breaks) :: Place(problems, i)
  {
    hide HasArchive, Place, Source;
    var sent := copied + Leftovers(staging, problems, breaks);
    KeysOfFolder(folder, staging, problems, breaks);
    assert forall i: nat :: i in sent <==> i < |problems| && Deposit(staging, problems, breaks, i).Some?;
    hide Holds, Copied, LeavesFile, Deposit, Leftovers;
    assert folder.Keys == set i | i in sent :: Place(problems, i);
  }

  lemma KeysOfFolder(folder: Folder, staging: Staging, problems: seq<Problem>, breaks: Breaks)
    requires Holds(folder, staging, problems, breaks, All(|problems|))
    ensures forall key :: key in folder ==>
              key.0 < |problems| && Deposit(staging, problems, breaks, key.0).Some? && key == Place(problems, key.0)
    ensures forall i :: 0 <= i < |problems| && Deposit(staging, problems, breaks, i).Some? ==>
              Place(problems, i) in folder
  {
    hide HasArchive, Place, Deposit;
    assert forall i :: 0 <= i < |problems| ==> i in All(|problems|);
  }

  lemma {:induction false} SizeOfAll(n: nat)
    ensures |All(n)| == n
  {
    if n > 0 {
      SizeOfAll(n - 1);
    }
  }

  lemma {:induction false} DistinctSize(s: seq<nat>)
    requires forall j, k :: 0 <= j < k < |s| ==> s[j] != s[k]
    ensures |SetOf(s)| == |s|
  {
    if s != [] {
      var t := s[..|s| - 1];
      DistinctSize(t);
      assert s == t + [s[|s| - 1]];
      assert SetOf(s) == SetOf(t) + {s[|s| - 1]};
    } else {
      assert SetOf(s) == {};
    }
  }

  lemma {:induction false} SameSize(copied: set<nat>, kept: set<(nat, string)>, problems: seq<Problem>)
    requires forall i :: i in copied ==> i < |problems| && HasArchive(problems[i].file)
    requires kept == set i | i in copied :: Place(problems, i)
    ensures |kept| == |copied|
    decreases copied
  {
    hide HasArchive, PathOf, Base;
    if copied != {} {
      var i :| i in copied;
      var less := copied - {i};
      var keptLess := set j | j in less :: Place(problems, j);
      SameSize(less, keptLess, problems);
      assert kept == keptLess + {Place(problems, i)};
    }
  }

  // ----- The way back -----

  /** Where the last segment of a path starts. */
  function LastSegment(s: string): string { s[LastIndex(s, '/') + 1..] }

  /** The folder above the name is the number, whatever comes before it. A name
      that does not fit is kept as it is. */
  function OriginOf(file: string, problems: seq<Problem>): string {
    var i := LastIndex(file, '/');
    if i < 0 then file
    else
      var folder := LastSegment(file[..i]);
      var index := Atoi(folder[LastIndex(folder, ':') + 1..]);
      if index.Some? && 0 <= index.value < |problems| && Base(problems[index.value].file) == file[i + 1..] then
        problems[index.value].file
      else file
  }

  lemma LastSlashOfConcat(a: string, b: string)
    ensures LastIndex(a + b, '/') == if LastIndex(b, '/') < 0 then LastIndex(a, '/') else |a| + LastIndex(b, '/')
  {
    hide LastIndex;
    var i := LastIndex(b, '/');
    assert forall k :: |a| <= k < |a + b| ==> (a + b)[k] == b[k - |a|];
    LastIndexAt(a + b, '/', if i < 0 then LastIndex(a, '/') else |a| + i);
  }

  lemma NoSlash(s: string)
    requires forall k :: 0 <= k < |s| ==> s[k] != '/'
    ensures LastIndex(s, '/') == -1
  {
    hide LastIndex;
    LastIndexAt(s, '/', -1);
  }

  /** What immich-go may put before the folder. */
  predicate IsPrefix(p: string) { p == "" || p[|p| - 1] == '/' || p[|p| - 1] == ':' }

  lemma FolderOfCopy(prefix: string, i: nat)
    requires IsPrefix(prefix)
    ensures var folder := LastSegment(prefix + Written(i)); folder[LastIndex(folder, ':') + 1..] == Written(i)
  {
    hide LastIndex, Written;
    var n, p := Written(i), LastIndex(prefix, '/');
    NoSlash(n);
    LastSlashOfConcat(prefix, n);
    DropOfConcat(prefix, n, p + 1);
    ColonThenDigits(prefix[p + 1..], n);
  }

  lemma DropOfConcat(a: string, b: string, k: nat)
    requires k <= |a|
    ensures (a + b)[k..] == a[k..] + b
  {
  }

  lemma ColonThenDigits(head: string, n: string)
    requires AllDigits(n) && (head == "" || head[|head| - 1] == ':')
    ensures (head + n)[LastIndex(head + n, ':') + 1..] == n
  {
    hide LastIndex;
    assert forall k :: |head| <= k < |head + n| ==> (head + n)[k] == n[k - |head|] && IsDigit((head + n)[k]);
    LastIndexAt(head + n, ':', |head| - 1);
    assert (head + n)[|head|..] == n;
  }

  /** A copy's name leads back to the file it was copied from, whatever comes
      before its folder, as long as the last element of that file's whole name is
      the name it was copied under. */
  lemma OriginOfCopy(prefix: string, i: nat, name: string, problems: seq<Problem>)
    requires prefix == "" || prefix[|prefix| - 1] in {'/', ':'}
    requires i < |problems| <= 0x7FFF_FFFF_FFFF_FFFF
    requires name != "" && forall k :: 0 <= k < |name| ==> name[k] != '/'
    ensures OriginOf(prefix + Written(i) + "/" + name, problems) ==
              if Base(problems[i].file) == name then problems[i].file else prefix + Written(i) + "/" + name
  {
    hide LastIndex, Written, Atoi, Base, LastSegment;
    CopyPath(prefix + Written(i), name);
    FolderOfCopy(prefix, i);
    AtoiOfWritten(i);
  }

  lemma CopyPath(folder: string, name: string)
    requires forall k :: 0 <= k < |name| ==> name[k] != '/'
    ensures var s := folder + "/" + name;
            LastIndex(s, '/') == |folder| && s[..|folder|] == folder && s[|folder| + 1..] == name
  {
    hide LastIndex;
    var s := folder + "/" + name;
    assert forall k :: |folder| < k < |s| ==> s[k] == name[k - |folder| - 1];
    LastIndexAt(s, '/', |folder|);
  }

  /** A path with a slash other than at its end. */
  predicate InFolder(path: string) { LastIndex(TrimTrailing(path, '/'), '/') >= 0 }

  /** The name a file is copied under is the last element of its whole name
      exactly when it lies in a folder of its archive. */
  lemma FitsIffInFolder(archive: string, path: string)
    requires TrimTrailing(path, '/') != ""
    ensures Base(archive + ":" + path) == Base(path) <==> InFolder(path)
  {
    hide LastIndex, TrimTrailing, Base;
    var head, p := archive + ":", TrimTrailing(path, '/');
    TrimmedEnd(head, path, '/');
    BaseIs(head + path);
    BaseIs(path);
    SegmentAfter(head, p);
  }

  lemma BaseIs(path: string)
    requires TrimTrailing(path, '/') != ""
    ensures Base(path) == LastSegment(TrimTrailing(path, '/')) && Base(path) != ""
    ensures forall k :: 0 <= k < |Base(path)| ==> Base(path)[k] != '/'
  {
    hide LastIndex;
    var p := TrimTrailing(path, '/');
    assert p[|p| - 1] != '/';
    assert path != "";
  }

  /** Something that ends in a colon put before a path shows in its last segment
      exactly when the path has no slash. */
  lemma SegmentAfter(head: string, p: string)
    requires head != "" && head[|head| - 1] == ':'
    ensures LastSegment(head + p) == LastSegment(p) <==> LastIndex(p, '/') >= 0
  {
    hide LastIndex, LastSegment;
    var i, h := LastIndex(p, '/'), LastIndex(head, '/');
    var j := if i < 0 then h else |head| + i;
    NotTheLast(head, h);
    LastSlashOfConcat(head, p);
    LastSegmentIs(head + p, j);
    LastSegmentIs(p, i);
    SliceAfter(head, p, i, h);
  }

  lemma NotTheLast(head: string, h: int)
    requires head != "" && head[|head| - 1] == ':' && h == LastIndex(head, '/')
    ensures h < |head| - 1
  {
    hide LastIndex;
  }

  lemma LastSegmentIs(s: string, i: int)
    requires i == LastIndex(s, '/')
    ensures LastSegment(s) == s[i + 1..]
  {
  }

  lemma SliceAfter(head: string, p: string, i: int, h: int)
    requires -1 <= i < |p| && -1 <= h < |head| - 1
    ensures (head + p)[(if i < 0 then h else |head| + i) + 1..] == p[i + 1..] <==> i >= 0
  {
    if i < 0 {
      assert |(head + p)[h + 1..]| > |p[0..]|;
    } else {
      assert (head + p)[|head| + i + 1..] == p[i + 1..];
    }
  }

  lemma {:induction false} TrimmedEnd(head: string, s: string, c: char)
    requires TrimTrailing(s, c) != ""
    ensures TrimTrailing(head + s, c) == head + TrimTrailing(s, c)
  {
    if s[|s| - 1] == c {
      assert (head + s)[..|head + s| - 1] == head + s[..|s| - 1];
      TrimmedEnd(head, s[..|s| - 1], c);
    }
  }

  /** originOf undoes the copy of every file that lies in a folder of its archive,
      and of no other: one at the top is never found again. */
  lemma OriginUndoesCopy(prefix: string, i: nat, problems: seq<Problem>)
    requires prefix == "" || prefix[|prefix| - 1] in {'/', ':'}
    requires i < |problems| <= 0x7FFF_FFFF_FFFF_FFFF && HasArchive(problems[i].file)
    requires TrimTrailing(PathOf(problems[i].file), '/') != ""
    ensures var copy := prefix + Written(i) + "/" + Place(problems, i).1;
            OriginOf(copy, problems) == if InFolder(PathOf(problems[i].file)) then problems[i].file else copy
  {
    hide LastIndex, TrimTrailing, OriginOf, Base, LastSegment, ArchiveOf, PathOf, HasArchive, Written;
    var file := problems[i].file;
    FitsIffInFolder(ArchiveOf(file), PathOf(file));
    BaseIs(PathOf(file));
    OriginOfCopy(prefix, i, Base(PathOf(file)), problems);
    ArchiveAndPath(file);
  }

  lemma ArchiveAndPath(file: string)
    requires HasArchive(file)
    ensures file == ArchiveOf(file) + ":" + PathOf(file)
  {
    hide IndexOf;
  }

  /** A name is kept, or mapped to a file of the list that ends in the same last
      element; without a folder it is kept. */
  lemma OriginOfAny(file: string, problems: seq<Problem>)
    ensures NoSlashIn(file) ==> OriginOf(file, problems) == file
    ensures OriginOf(file, problems) != file ==>
              exists i :: 0 <= i < |problems| && OriginOf(file, problems) == problems[i].file
                          && Base(problems[i].file) == LastSegment(file)
  {
    hide LastIndex, Atoi, Base;
  }

  // ----- What was sent -----

  function FilesOf(problems: seq<Problem>): set<string> { set i | 0 <= i < |problems| :: problems[i].file }

  /** All but the files listed missing, in order. */
  function Sent(problems: seq<Problem>, missing: set<string>): seq<Problem> {
    if problems == [] then []
    else
      var n := |problems| - 1;
      Sent(problems[..n], missing) + (if problems[n].file in missing then [] else [problems[n]])
  }

  method SentOf(problems: seq<Problem>, missing: seq<Problem>) returns (sent: seq<Problem>)
    ensures sent == Sent(problems, FilesOf(missing))
  {
    var skip: set<string> := {};
    var i := 0;
    while i < |missing|
      invariant i <= |missing| && skip == FilesOf(missing[..i])
    {
      assert missing[..i + 1] == missing[..i] + [missing[i]];
      skip := skip + {missing[i].file};
      i := i + 1;
    }
    assert missing[..i] == missing;
    sent := [];
    i := 0;
    while i < |problems|
      invariant i <= |problems| && sent == Sent(problems[..i], skip)
    {
      assert problems[..i + 1][..i] == problems[..i];
      if problems[i].file !in skip {
        sent := sent + [problems[i]];
      }
      i := i + 1;
    }
    assert problems[..i] == problems;
  }
}
