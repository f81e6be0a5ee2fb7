/** Watching a person's Drive for an export that Google is still writing. */
module Takeout {
  import opened Wrappers
  import opened Decimal
  import opened Parts

  datatype Entry = Entry(name: string, size: int)

  /** What listing the folder gives: an error, no folder, or its files. */
  datatype Listing = Failed | NotThere | Files(entries: seq<Entry>)

  predicate IsArchive(e: Entry) { |e.name| >= 4 && IsZip(e.name[|e.name| - 4..]) }

  /** An archive is what is named ".zip" at its end, each letter in either case. */
  lemma ArchiveExact(stem: string, ext: string, size: int)
    requires |ext| == 4
    ensures IsArchive(Entry(stem + ext, size)) <==>
              ext[0] == '.' && (ext[1] == 'z' || ext[1] == 'Z') && (ext[2] == 'i' || ext[2] == 'I')
              && (ext[3] == 'p' || ext[3] == 'P')
    ensures !IsArchive(Entry(ext[1..], size))
  {
    assert (stem + ext)[|stem + ext| - 4..] == ext;
  }

  function Zips(es: seq<Entry>): (zs: seq<Entry>)
    ensures forall e :: e in zs <==> e in es && IsArchive(e)
  {
    if es == [] then []
    else
      var n := |es| - 1;
      assert es == es[..n] + [es[n]];
      Zips(es[..n]) + (if IsArchive(es[n]) then [es[n]] else [])
  }

  function NamesOf(es: seq<Entry>): (s: seq<string>)
    ensures |s| == |es| && forall i :: 0 <= i < |es| ==> s[i] == es[i].name
  {
    seq(|es|, i requires 0 <= i < |es| => es[i].name)
  }

  function Shown(n: int): string { if n < 0 then "-" + Written(-n) else Written(n) }

  function Item(e: Entry): string { e.name + ":" + Shown(e.size) }

  function Items(es: seq<Entry>): (s: seq<string>)
    ensures |s| == |es| && forall i :: 0 <= i < |es| ==> s[i] == Item(es[i])
  {
    seq(|es|, i requires 0 <= i < |es| => Item(es[i]))
  }

  // ----- Sorting and joining -----

  /** Lexicographic order. */
  predicate AtMost(a: string, b: string) {
    a == "" || (b != "" && (a[0] < b[0] || (a[0] == b[0] && AtMost(a[1..], b[1..]))))
  }

  function Insert(x: string, s: seq<string>): seq<string> {
    if s == [] || AtMost(x, s[0]) then [x] + s else [s[0]] + Insert(x, s[1..])
  }

  function Sorted(s: seq<string>): seq<string> {
    if s == [] then [] else Insert(s[|s| - 1], Sorted(s[..|s| - 1]))
  }

  function Join(s: seq<string>): string {
    if s == [] then "" else if |s| == 1 then s[0] else s[0] + "|" + Join(s[1..])
  }

  /** What the watcher remembers of a listing. */
  function Key(es: seq<Entry>): string { Join(Sorted(Items(Zips(es)))) }

  // ----- The watcher -----

  /** Shaped like a finished export: an archive, none of them empty, and no gap in
      the numbers. */
  predicate Shaped(es: seq<Entry>) {
    var zs := Zips(es);
    zs != [] && AllWritten(zs) && Counted(NamesOf(zs), |zs|).Complete()
  }

  predicate AllWritten(zs: seq<Entry>) { forall e :: e in zs ==> e.size > 0 }

  function Previous(seen: map<string, string>, user: string): string {
    if user in seen then seen[user] else ""
  }

  /** What the watcher does to what it remembers of everybody: at the start of a
      poll it keeps only those who still wait, and it lists one folder after the
      other. */
  datatype Event = Prune(waiting: set<string>) | Look(user: string, listing: Listing)

  function After(seen: map<string, string>, e: Event): map<string, string> {
    match e
    case Prune(waiting) => map u | u in seen && u in waiting :: seen[u]
    case Look(user, listing) => if listing.Files? then seen[user := Key(listing.entries)] else seen
  }

  /** What is remembered after the first n events since the start. */
  function SeenAfter(events: seq<Event>, n: nat): map<string, string>
    requires n <= |events|
  {
    if n == 0 then map[] else After(SeenAfter(events, n - 1), events[n - 1])
  }

  /** Whether the export is there to download; None when the folder could not be
      read. */
  function Answer(seen: map<string, string>, user: string, listing: Listing): Option<bool> {
    match listing
    case Failed => None
    case NotThere => Some(false)
    case Files(es) => Some(Shaped(es) && Key(es) == Previous(seen, user))
  }

  function Members(users: seq<string>): (s: set<string>)
    ensures forall u :: u in s <==> u in users
  {
    set u | u in users
  }

  class Watcher {
    var seen: map<string, string>
    /** Everything since the start. */
    ghost var events: seq<Event>

    ghost predicate Valid() reads this { seen == SeenAfter(events, |events|) }

    constructor ()
      ensures Valid() && events == []
    {
      seen, events := map[], [];
    }

    /** Listings of people who no longer wait are dropped. */
    method KeepWaiting(waiting: seq<string>)
      requires Valid()
      modifies this
      ensures Valid() && events == old(events) + [Prune(Members(waiting))]
      ensures seen == map u | u in old(seen) && u in waiting :: old(seen)[u]
    {
      hide SeenAfter;
      var active: set<string> := {};
      for i := 0 to |waiting|
        invariant active == Members(waiting[..i])
      {
        active := active + {waiting[i]};
      }
      assert waiting[..|waiting|] == waiting;
      OneMoreEvent(events, Prune(active));
      DropOthers(active);
      events := events + [Prune(active)];
    }

    method DropOthers(active: set<string>)
      modifies this`seen
      ensures seen == After(old(seen), Prune(active))
    {
      var todo := seen.Keys;
      while todo != {}
        invariant todo <= old(seen).Keys
        invariant seen == map u | u in old(seen) && (u in todo || u in active) :: old(seen)[u]
        decreases |todo|
      {
        var u :| u in todo;
        if u !in active {
          seen := map v | v in seen && v != u :: seen[v];
        }
        todo := todo - {u};
      }
    }

    /** One person's folder is listed. It is found ready exactly when it is whole, and
        as it was when last listed in the same wait. */
    method Ready(user: string, listing: Listing) returns (found: Option<bool>)
      requires Valid()
      modifies this
      ensures Valid() && events == old(events) + [Look(user, listing)]
      ensures found == Answer(old(seen), user, listing)
      ensures seen == After(old(seen), Look(user, listing))
      ensures found == Some(true) <==> WholeAndStable(events, |events| - 1)
      ensures found.None? <==> listing.Failed?
    {
      hide Sorted, Join, Counted, Zips, NamesOf, Items, AllWritten, WholeAndStable, SeenAfter;
      OneMoreEvent(events, Look(user, listing));
      DownloadExact(events + [Look(user, listing)], |events|);
      events := events + [Look(user, listing)];
      if listing.Failed? {
        return None;
      }
      if listing.NotThere? {
        return Some(false);
      }
      var names, items, nonEmpty := ReadListing(listing.entries);
      var key := Join(Sorted(items));
      var previous := if user in seen then seen[user] else "";
      seen := seen[user := key];
      var parts := CountParts(names, |names|);
      return Some(|names| > 0 && nonEmpty == |names| && parts.Complete() && key == previous);
    }

    /** The archives of a listing, and how many of them have been written to. */
    static method ReadListing(es: seq<Entry>) returns (names: seq<string>, items: seq<string>, nonEmpty: nat)
      ensures names == NamesOf(Zips(es)) && items == Items(Zips(es))
      ensures nonEmpty == |names| <==> AllWritten(Zips(es))
    {
      hide IsArchive, Zips, NamesOf, Items, Item, AllWritten;
      names, items, nonEmpty := [], [], 0;
      var i := 0;
      NoZips(es);
      while i < |es|
        invariant i <= |es|
        invariant names == NamesOf(Zips(es[..i])) && items == Items(Zips(es[..i]))
        invariant nonEmpty <= |names| && (nonEmpty == |names| <==> AllWritten(Zips(es[..i])))
      {
        NextEntry(es, i);
        if IsArchive(es[i]) {
          OneMoreZip(Zips(es[..i]), es[i]);
          names := names + [es[i].name];
          items := items + [Item(es[i])];
          if es[i].size > 0 {
            nonEmpty := nonEmpty + 1;
          }
        }
        i := i + 1;
      }
      assert es[..i] == es;
    }
  }

  lemma NoZips(es: seq<Entry>)
    ensures Zips(es[..0]) == [] && AllWritten([])
  {
    assert es[..0] == [];
  }

  lemma NextEntry(es: seq<Entry>, i: nat)
    requires i < |es|
    ensures Zips(es[..i + 1]) == if IsArchive(es[i]) then Zips(es[..i]) + [es[i]] else Zips(es[..i])
  {
    assert es[..i + 1][..i] == es[..i];
  }

  lemma OneMoreZip(zs: seq<Entry>, e: Entry)
    ensures NamesOf(zs + [e]) == NamesOf(zs) + [e.name] && Items(zs + [e]) == Items(zs) + [Item(e)]
    ensures AllWritten(zs + [e]) <==> AllWritten(zs) && e.size > 0
  {
    assert forall f :: f in zs + [e] <==> f in zs || f == e;
  }

  // ----- What a remembered listing stands for -----

  lemma {:induction false} AtMostTotal(a: string, b: string)
    ensures AtMost(a, b) || AtMost(b, a)
    ensures AtMost(a, b) && AtMost(b, a) ==> a == b
  {
    if a != "" && b != "" && a[0] == b[0] {
      AtMostTotal(a[1..], b[1..]);
    }
  }

  lemma {:induction false} AtMostTransitive(a: string, b: string, c: string)
    requires AtMost(a, b) && AtMost(b, c)
    ensures AtMost(a, c)
  {
    if a != "" && a[0] == b[0] && b[0] == c[0] {
      AtMostTransitive(a[1..], b[1..], c[1..]);
    }
  }

  predicate InOrder(s: seq<string>) { forall i, j :: 0 <= i < j < |s| ==> AtMost(s[i], s[j]) }

  lemma {:induction false} InsertAdds(x: string, s: seq<string>)
    ensures multiset(Insert(x, s)) == multiset(s) + multiset{x}
  {
    hide AtMost;
    if s != [] && !AtMost(x, s[0]) {
      InsertAdds(x, s[1..]);
      assert s == [s[0]] + s[1..];
    }
  }

  lemma {:induction false} InsertKeeps(x: string, s: seq<string>)
    requires InOrder(s)
    ensures InOrder(Insert(x, s))
  {
    hide AtMost;
    if s == [] || AtMost(x, s[0]) {
      forall j | 0 <= j < |s| ensures AtMost(x, s[j]) {
        if j > 0 {
          AtMostTransitive(x, s[0], s[j]);
        }
      }
    } else {
      AtMostTotal(x, s[0]);
      InsertKeeps(x, s[1..]);
      var t := Insert(x, s[1..]);
      InsertAdds(x, s[1..]);
      forall j | 0 <= j < |t| ensures AtMost(s[0], t[j]) {
        assert t[j] in multiset(t);
        assert t[j] == x || t[j] in s[1..];
      }
    }
  }

  lemma {:induction false} SortedSorts(s: seq<string>)
    ensures InOrder(Sorted(s)) && multiset(Sorted(s)) == multiset(s)
    decreases |s|
  {
    if s != [] {
      hide Insert, AtMost, InOrder;
      var n := |s| - 1;
      SortedSorts(s[..n]);
      InsertKeeps(s[n], Sorted(s[..n]));
      InsertAdds(s[n], Sorted(s[..n]));
      assert s == s[..n] + [s[n]];
    } else {
      assert InOrder([]);
    }
  }

  lemma FirstOfSorted(a: seq<string>, b: seq<string>)
    requires InOrder(a) && InOrder(b) && multiset(a) == multiset(b) && a != [] && b != []
    ensures a[0] == b[0]
  {
    hide AtMost;
    assert a[0] in multiset(b) && b[0] in multiset(a);
    var i :| 0 <= i < |b| && b[i] == a[0];
    var j :| 0 <= j < |a| && a[j] == b[0];
    AtMostTotal(a[0], b[0]);
  }

  lemma {:induction false} SortedIsUnique(a: seq<string>, b: seq<string>)
    requires InOrder(a) && InOrder(b) && multiset(a) == multiset(b)
    ensures a == b
    decreases |a|
  {
    assert |a| == |multiset(a)| == |multiset(b)| == |b|;
    if a != [] {
      FirstOfSorted(a, b);
      assert a == [a[0]] + a[1..] && b == [b[0]] + b[1..];
      assert InOrder(a[1..]) && InOrder(b[1..]);
      hide InOrder;
      assert multiset(a[1..]) == multiset(a) - multiset{a[0]};
      assert multiset(b[1..]) == multiset(b) - multiset{b[0]};
      SortedIsUnique(a[1..], b[1..]);
    }
  }

  predicate NoBar(s: string) { forall k :: 0 <= k < |s| ==> s[k] != '|' }

  /** How far s goes without a bar. */
  function UpToBar(s: string): nat {
    if s == "" || s[0] == '|' then 0 else 1 + UpToBar(s[1..])
  }

  lemma {:induction false} UpToBarIs(a: string, rest: string)
    requires NoBar(a) && (rest == "" || rest[0] == '|')
    ensures UpToBar(a + rest) == |a|
  {
    if a != "" {
      assert (a + rest)[1..] == a[1..] + rest;
      UpToBarIs(a[1..], rest);
    } else {
      assert a + rest == rest;
    }
  }

  function AfterFirst(s: seq<string>): string { if |s| <= 1 then "" else "|" + Join(s[1..]) }

  lemma JoinSplits(s: seq<string>)
    requires s != [] && NoBar(s[0])
    ensures Join(s) == s[0] + AfterFirst(s) && UpToBar(Join(s)) == |s[0]|
  {
    assert |s| == 1 ==> s[0] + "" == s[0];
    assert |s| > 1 ==> s[0] + "|" + Join(s[1..]) == s[0] + ("|" + Join(s[1..]));
    UpToBarIs(s[0], AfterFirst(s));
  }

  ghost predicate Plain(s: seq<string>) { forall k :: 0 <= k < |s| ==> s[k] != "" && NoBar(s[k]) }

  /** What was joined can be told from the whole, if no item holds a bar. */
  lemma {:induction false} JoinDetermines(a: seq<string>, b: seq<string>)
    requires Plain(a) && Plain(b) && Join(a) == Join(b)
    ensures a == b
    decreases |a|
  {
    hide NoBar;
    if a != [] && b != [] {
      JoinSplits(a);
      JoinSplits(b);
      var s := Join(a);
      assert a[0] == s[..|a[0]|] && b[0] == s[..|b[0]|];
      assert AfterFirst(a) == s[|a[0]|..] && AfterFirst(b) == s[|b[0]|..];
      assert Join(a[1..]) == if |a| == 1 then "" else AfterFirst(a)[1..];
      assert Join(b[1..]) == if |b| == 1 then "" else AfterFirst(b)[1..];
      JoinDetermines(a[1..], b[1..]);
      assert a == [a[0]] + a[1..] && b == [b[0]] + b[1..];
    } else if a != [] {
      JoinSplits(a);
    } else if b != [] {
      JoinSplits(b);
    }
  }

  lemma ShownDetermines(m: int, n: int)
    requires Shown(m) == Shown(n)
    ensures m == n
  {
    assert m < 0 ==> Shown(m)[0] == '-' && Shown(m)[1..] == Written(-m);
    assert n < 0 ==> Shown(n)[0] == '-' && Shown(n)[1..] == Written(-n);
    assert m >= 0 ==> IsDigit(Shown(m)[0]);
    assert n >= 0 ==> IsDigit(Shown(n)[0]);
    if m < 0 {
      WrittenDetermines(-m, -n);
    } else {
      WrittenDetermines(m, n);
    }
  }

  predicate NoColon(s: string) { forall k :: 0 <= k < |s| ==> s[k] != ':' }

  lemma ShownIsPlain(n: int)
    ensures NoColon(Shown(n)) && NoBar(Shown(n))
  {
    var s := Written(if n < 0 then -n else n);
    assert forall k :: 0 <= k < |s| ==> IsDigit(s[k]);
  }

  /** The size is read after the last colon. */
  lemma ItemDetermines(a: Entry, b: Entry)
    requires Item(a) == Item(b)
    ensures a == b
  {
    var s, x, y := Item(a), Shown(a.size), Shown(b.size);
    ShownIsPlain(a.size);
    ShownIsPlain(b.size);
    hide Shown;
    assert s[|a.name|] == ':' && s[|b.name|] == ':';
    assert forall k :: |a.name| < k < |s| ==> s[k] == x[k - |a.name| - 1];
    assert forall k :: |b.name| < k < |s| ==> s[k] == y[k - |b.name| - 1];
    assert |a.name| == |b.name|;
    assert a.name == s[..|a.name|] && b.name == s[..|b.name|];
    assert x == s[|a.name| + 1..] && y == s[|b.name| + 1..];
    ShownDetermines(a.size, b.size);
  }

  ghost predicate NoBars(es: seq<Entry>) { forall e :: e in es ==> NoBar(e.name) }

  lemma ItemIsPlain(e: Entry)
    requires NoBar(e.name)
    ensures Item(e) != "" && NoBar(Item(e))
  {
    ShownIsPlain(e.size);
  }

  lemma KeyIsPlain(es: seq<Entry>)
    requires NoBars(es)
    ensures Plain(Sorted(Items(es))) && multiset(Sorted(Items(es))) == multiset(Items(es))
  {
    hide Item, NoBar, Sorted;
    var s := Sorted(Items(es));
    SortedSorts(Items(es));
    forall k | 0 <= k < |s| ensures s[k] != "" && NoBar(s[k]) {
      assert s[k] in multiset(s);
      assert s[k] in multiset(Items(es));
      var i :| 0 <= i < |es| && Items(es)[i] == s[k];
      assert es[i] in es;
      ItemIsPlain(es[i]);
    }
  }

  function Without<T>(s: seq<T>, i: nat): (r: seq<T>)
    requires i < |s|
    ensures |r| == |s| - 1
  {
    s[..i] + s[i + 1..]
  }

  lemma TakeOut<T>(s: seq<T>, i: nat)
    requires i < |s|
    ensures multiset(Without(s, i)) == multiset(s) - multiset{s[i]}
  {
    assert s == s[..i] + [s[i]] + s[i + 1..];
  }

  lemma ItemsWithout(es: seq<Entry>, i: nat)
    requires i < |es|
    ensures Items(Without(es, i)) == Without(Items(es), i)
  {
    hide Item;
  }

  /** The first of a is somewhere in b, and without it they are still alike. */
  lemma ItemsDetermineStep(a: seq<Entry>, b: seq<Entry>) returns (i: nat)
    requires multiset(Items(a)) == multiset(Items(b)) && a != []
    ensures i < |b| && b[i] == a[0] && multiset(Items(Without(a, 0))) == multiset(Items(Without(b, i)))
  {
    hide Item;
    var s, t := Items(a), Items(b);
    assert s[0] in multiset(t);
    i :| 0 <= i < |b| && t[i] == s[0];
    ItemDetermines(a[0], b[i]);
    TakeOut(s, 0);
    TakeOut(t, i);
    ItemsWithout(a, 0);
    ItemsWithout(b, i);
  }

  lemma {:induction false} ItemsDetermine(a: seq<Entry>, b: seq<Entry>)
    requires multiset(Items(a)) == multiset(Items(b))
    ensures multiset(a) == multiset(b)
    decreases |a|
  {
    hide Items, Without;
    SameLength(a, b);
    if a != [] {
      var i := ItemsDetermineStep(a, b);
      ItemsDetermine(Without(a, 0), Without(b, i));
      TakeOut(a, 0);
      TakeOut(b, i);
      assert a[0] in multiset(a) && b[i] in multiset(b);
      assert multiset(a) == multiset(Without(a, 0)) + multiset{a[0]};
      assert multiset(b) == multiset(Without(b, i)) + multiset{b[i]};
    }
  }

  lemma SameLength(a: seq<Entry>, b: seq<Entry>)
    requires multiset(Items(a)) == multiset(Items(b))
    ensures |a| == |b|
  {
    hide Item;
    assert |a| == |Items(a)| == |multiset(Items(a))| == |multiset(Items(b))| == |Items(b)| == |b|;
  }

  lemma {:induction false} SameItems(a: seq<Entry>, b: seq<Entry>)
    requires multiset(a) == multiset(b)
    ensures multiset(Items(a)) == multiset(Items(b))
    decreases |a|
  {
    assert |a| == |multiset(a)| == |multiset(b)| == |b|;
    if a != [] {
      hide Items, Item, Without;
      assert a[0] in multiset(b);
      var i :| 0 <= i < |b| && b[i] == a[0];
      TakeOut(a, 0);
      TakeOut(b, i);
      SameItems(Without(a, 0), Without(b, i));
      SameItemsStep(a, 0);
      SameItemsStep(b, i);
    }
  }

  lemma SameItemsStep(es: seq<Entry>, i: nat)
    requires i < |es|
    ensures multiset(Items(es)) == multiset(Items(Without(es, i))) + multiset{Item(es[i])}
  {
    hide Item;
    ItemsWithout(es, i);
    TakeOut(Items(es), i);
    assert Items(es)[i] in multiset(Items(es));
  }

  /** Two listings are remembered alike exactly when they hold the same archives
      with the same sizes, in any order. */
  lemma KeyExact(a: seq<Entry>, b: seq<Entry>)
    requires NoBars(Zips(a)) && NoBars(Zips(b))
    ensures Key(a) == Key(b) <==> multiset(Zips(a)) == multiset(Zips(b))
  {
    var x, y := Zips(a), Zips(b);
    hide Zips, NoBars, Plain, Items, Sorted, Join, InOrder;
    KeyIsPlain(x);
    KeyIsPlain(y);
    if Key(a) == Key(b) {
      JoinDetermines(Sorted(Items(x)), Sorted(Items(y)));
      ItemsDetermine(x, y);
    }
    if multiset(x) == multiset(y) {
      SameItems(x, y);
      SortedSorts(Items(x));
      SortedSorts(Items(y));
      SortedIsUnique(Sorted(Items(x)), Sorted(Items(y)));
    }
  }

  // ----- Over whole runs -----

  lemma OneMoreEvent(events: seq<Event>, e: Event)
    ensures SeenAfter(events + [e], |events|) == SeenAfter(events, |events|)
    ensures SeenAfter(events + [e], |events| + 1) == After(SeenAfter(events, |events|), e)
  {
    hide After;
    SameStart(events, e, |events|);
  }

  lemma {:induction false} SameStart(events: seq<Event>, e: Event, n: nat)
    requires n <= |events|
    ensures SeenAfter(events + [e], n) == SeenAfter(events, n)
  {
    hide After;
    if n > 0 {
      SameStart(events, e, n - 1);
    }
  }

  /** The event lists this person's archives. */
  predicate Lists(e: Event, user: string) { e.Look? && e.user == user && e.listing.Files? }

  /** The event ends this person's wait. */
  predicate Drops(e: Event, user: string) { e.Prune? && user !in e.waiting }

  /** Event k listed this person's archives, and since then nothing has, nor has
      their wait ended. */
  predicate LastListed(events: seq<Event>, user: string, k: nat, n: nat)
    requires k < n <= |events|
  {
    Lists(events[k], user) && forall j :: k < j < n ==> !Lists(events[j], user) && !Drops(events[j], user)
  }

  /** After any events, what the watcher remembers of a person is the last listing
      of their present wait, and nothing if there has been none. */
  lemma {:induction false} RememberedIsLast(events: seq<Event>, user: string, n: nat)
    requires n <= |events|
    ensures forall k :: 0 <= k < n && LastListed(events, user, k, n) ==>
              Previous(SeenAfter(events, n), user) == Key(events[k].listing.entries)
    ensures Previous(SeenAfter(events, n), user) == "" || exists k :: 0 <= k < n && LastListed(events, user, k, n)
  {
    hide Key;
    if n > 0 {
      RememberedIsLast(events, user, n - 1);
      var e := events[n - 1];
      if Lists(e, user) {
        assert LastListed(events, user, n - 1, n);
      } else {
        assert forall k :: 0 <= k < n - 1 && LastListed(events, user, k, n) ==> LastListed(events, user, k, n - 1);
        if Previous(SeenAfter(events, n), user) != "" {
          var k :| 0 <= k < n - 1 && LastListed(events, user, k, n - 1);
          assert LastListed(events, user, k, n);
        }
      }
    }
  }

  lemma KeyOfShaped(es: seq<Entry>)
    requires Zips(es) != []
    ensures Key(es) != ""
  {
    var s := Items(Zips(es));
    SortedSorts(s);
    assert |Sorted(s)| == |multiset(Sorted(s))| == |s|;
    var first := Sorted(s)[0];
    assert first in multiset(Sorted(s));
    assert first in s;
    hide Zips, Sorted;
    assert first != "";
  }

  /** What a download starts from, at event n: archives, none of them empty; either
      each carries its own part number and the numbers are one to their count, or
      none carries one; and the last listing before it in the same wait is
      remembered alike, so that it held the same archives with the same sizes, if
      no name holds a bar. */
  ghost predicate WholeAndStable(events: seq<Event>, n: nat)
    requires n < |events|
  {
    && events[n].Look? && events[n].listing.Files?
    && var es := events[n].listing.entries;
    && (exists e :: e in es && IsArchive(e)) && (forall e :: e in es && IsArchive(e) ==> e.size > 0)
    && (Numbered(NamesOf(Zips(es))) ==> EachNumberedOnce(NamesOf(Zips(es))))
    && exists k :: 0 <= k < n && LastListed(events, events[n].user, k, n) && SameListing(events[k].listing.entries, es)
  }

  ghost predicate SameListing(a: seq<Entry>, b: seq<Entry>) {
    Key(a) == Key(b) && (NoBars(Zips(a)) && NoBars(Zips(b)) ==> multiset(Zips(a)) == multiset(Zips(b)))
  }

  /** Over any run of the watcher, for any number of people: a download starts
      exactly when the listing is such. */
  lemma DownloadExact(events: seq<Event>, n: nat)
    requires n < |events| && events[n].Look?
    ensures Answer(SeenAfter(events, n), events[n].user, events[n].listing) == Some(true) <==> WholeAndStable(events, n)
  {
    hide Numbered, EachNumberedOnce, Key, Counted, NoBars, SeenAfter, IsArchive, LastListed;
    if events[n].listing.Files? {
      var es := events[n].listing.entries;
      ShapedExact(es);
      RememberedIsLast(events, events[n].user, n);
      if Shaped(es) && Key(es) == Previous(SeenAfter(events, n), events[n].user) {
        KeyOfShaped(es);
        var k :| 0 <= k < n && LastListed(events, events[n].user, k, n);
        LastIsListed(events, events[n].user, k, n);
        SameKey(events[k].listing.entries, es);
      }
    }
  }

  lemma LastIsListed(events: seq<Event>, user: string, k: nat, n: nat)
    requires k < n <= |events| && LastListed(events, user, k, n)
    ensures Lists(events[k], user)
  {
  }

  lemma SameKey(a: seq<Entry>, b: seq<Entry>)
    requires Key(a) == Key(b)
    ensures SameListing(a, b)
  {
    hide Key, Zips, NoBars;
    if NoBars(Zips(a)) && NoBars(Zips(b)) {
      KeyExact(a, b);
    }
  }

  lemma ShapedExact(es: seq<Entry>)
    ensures Shaped(es) <==>
              (exists e :: e in es && IsArchive(e)) && (forall e :: e in es && IsArchive(e) ==> e.size > 0)
              && (Numbered(NamesOf(Zips(es))) ==> EachNumberedOnce(NamesOf(Zips(es))))
  {
    var zs := Zips(es);
    hide Numbered, EachNumberedOnce, Counted, IsArchive, Zips;
    WholeFolderExact(NamesOf(zs));
    assert forall e :: e in zs <==> e in es && IsArchive(e);
    if zs != [] {
      assert zs[0] in zs;
    }
  }

  /** The archives of a listing, as often as they are listed. */
  lemma {:induction false} ZipsExact(es: seq<Entry>, e: Entry)
    ensures multiset(Zips(es))[e] == if IsArchive(e) then multiset(es)[e] else 0
    decreases |es|
  {
    if es != [] {
      hide IsArchive;
      var n := |es| - 1;
      ZipsExact(es[..n], e);
      assert es == es[..n] + [es[n]];
      assert multiset(es) == multiset(es[..n]) + multiset{es[n]};
      NextEntry(es, n);
      assert es[..n + 1] == es;
    }
  }

  /** A bar in a name makes two different folders look alike: any two archives,
      and one named after both. */
  lemma BarsDeceive(a: Entry, b: Entry)
    requires IsArchive(a) && IsArchive(b) && AtMost(Item(a), Item(b))
    ensures var one := Entry(Item(a) + "|" + b.name, b.size);
            Zips([one]) == [one] && Zips([a, b]) == [a, b] && Key([one]) == Key([a, b])
  {
    var one := Entry(Item(a) + "|" + b.name, b.size);
    JoinedName(Item(a), b);
    OneZip(one);
    TwoZips(a, b);
    SortedPair(Item(a), Item(b));
    SortedOne(Item(one));
    assert Items([one]) == [Item(one)] && Items([a, b]) == [Item(a), Item(b)] by {
      hide Item;
    }
    hide Item, Items, Zips, Sorted, Join, IsArchive;
  }

  lemma JoinedName(head: string, e: Entry)
    requires IsArchive(e)
    ensures var one := Entry(head + "|" + e.name, e.size); IsArchive(one) && Item(one) == head + "|" + Item(e)
  {
    hide IsZip, Shown;
    var x := head + "|";
    assert (x + e.name)[|x + e.name| - 4..] == e.name[|e.name| - 4..];
    assert x + e.name + ":" + Shown(e.size) == x + (e.name + ":" + Shown(e.size));
  }

  lemma OneZip(e: Entry)
    requires IsArchive(e)
    ensures Zips([e]) == [e]
  {
    hide IsArchive;
    assert [e][..0] == [];
  }

  lemma TwoZips(a: Entry, b: Entry)
    requires IsArchive(a) && IsArchive(b)
    ensures Zips([a, b]) == [a, b]
  {
    hide IsArchive;
    OneZip(a);
    assert [a, b][..1] == [a];
  }

  lemma SortedOne(x: string)
    ensures Sorted([x]) == [x] && Join([x]) == x
  {
    assert [x][..0] == [];
  }

  lemma SortedPair(x: string, y: string)
    requires AtMost(x, y)
    ensures Join(Sorted([x, y])) == x + "|" + y
  {
    hide AtMost;
    AtMostTotal(x, y);
    SortedOne(x);
    SortedOne(y);
    assert [x, y][..1] == [x] && [x][1..] == [] && [x, y][1..] == [y];
    assert Insert(y, []) == [y];
    assert Sorted([x, y]) == [x, y];
  }

  lemma {:induction false} JoinEnds(s: seq<string>)
    requires |s| >= 2
    ensures Join(s) == Join(s[..|s| - 1]) + "|" + s[|s| - 1]
    ensures exists k :: 0 <= k < |Join(s)| && Join(s)[k] == '|'
  {
    var n := |s| - 1;
    if n > 1 {
      JoinEnds(s[1..]);
      assert s[1..][..n - 1] == s[..n][1..];
      var head := Join(s[1..n]);
      assert Join(s[..n]) == s[0] + "|" + head;
      assert s[0] + "|" + (head + "|" + s[n]) == s[0] + "|" + head + "|" + s[n];
    } else {
      assert s[1..] == [s[1]] && s[..1] == [s[0]];
    }
    assert Join(s)[|s[0]|] == '|';
  }

  lemma SortedItems(zs: seq<Entry>)
    ensures |Sorted(Items(zs))| == |zs|
    ensures forall x :: x in Sorted(Items(zs)) ==> exists e :: e in zs && Item(e) == x
  {
    hide Item, Sorted;
    var s := Items(zs);
    SortedSorts(s);
    assert |multiset(Sorted(s))| == |multiset(s)|;
    forall x | x in Sorted(s) ensures exists e :: e in zs && Item(e) == x {
      assert x in multiset(Sorted(s));
      assert x in multiset(s);
      var i :| 0 <= i < |s| && s[i] == x;
      assert zs[i] in zs;
    }
  }

  lemma KeyOfOne(e: Entry)
    requires IsArchive(e)
    ensures Zips([e]) == [e] && Key([e]) == Item(e)
  {
    OneZip(e);
    SortedOne(Item(e));
    assert Items([e]) == [Item(e)] by {
      hide Item;
    }
  }

  /** One archive, named after all of them, is remembered as they are. */
  lemma AllInOne(es: seq<Entry>) returns (one: Entry)
    requires |Zips(es)| >= 2
    ensures Zips([one]) == [one] && Key([one]) == Key(es)
  {
    hide Item, Zips, IsArchive, Items, Sorted, Join;
    var s := Sorted(Items(Zips(es)));
    SortedItems(Zips(es));
    assert s[|s| - 1] in s;
    var e :| e in Zips(es) && Item(e) == s[|s| - 1];
    JoinEnds(s);
    var head := Join(s[..|s| - 1]);
    one := Entry(head + "|" + e.name, e.size);
    JoinedName(head, e);
    KeyOfOne(one);
  }

  /** A listing in which no name holds a bar can be mistaken for another one exactly
      when it holds at least two archives. */
  lemma MistakenExact(a: seq<Entry>)
    requires NoBars(Zips(a))
    ensures (exists b :: Key(b) == Key(a) && multiset(Zips(b)) != multiset(Zips(a))) <==> |Zips(a)| >= 2
  {
    hide Zips, IsArchive, Key;
    if |Zips(a)| >= 2 {
      var one := AllInOne(a);
      assert |multiset(Zips([one]))| == 1 < |multiset(Zips(a))|;
      assert multiset(Zips([one])) != multiset(Zips(a));
    } else {
      forall b | Key(b) == Key(a) ensures multiset(Zips(b)) == multiset(Zips(a)) {
        if Zips(a) == [] {
          NothingKept(a);
          NothingKept(b);
        } else {
          OneIsKnown(a, b);
        }
      }
    }
  }

  lemma NothingKept(es: seq<Entry>)
    ensures Key(es) == "" <==> Zips(es) == []
  {
    if Zips(es) != [] {
      KeyOfShaped(es);
    } else {
      assert Items([]) == [] && Sorted([]) == [];
    }
  }

  /** One archive without a bar is remembered unlike anything else. */
  lemma OneIsKnown(a: seq<Entry>, b: seq<Entry>)
    requires |Zips(a)| == 1 && NoBar(Zips(a)[0].name) && Key(b) == Key(a)
    ensures Zips(b) == Zips(a)
  {
    var e, s := Zips(a)[0], Sorted(Items(Zips(b)));
    assert e in Zips(a);
    hide Item, Zips, Items, Sorted, Join;
    KeyOfOne(e);
    ItemIsPlain(e);
    NothingKept(a);
    NothingKept(b);
    assert Zips(a) == [e];
    assert Key(a) == Key([e]) == Item(e);
    SortedItems(Zips(b));
    if |Zips(b)| >= 2 {
      JoinEnds(s);
      assert false;
    }
    var f := Zips(b)[0];
    assert f in Zips(b);
    KeyOfOne(f);
    assert Zips(b) == [f];
    assert Key(b) == Key([f]);
    ItemDetermines(e, f);
  }
}
