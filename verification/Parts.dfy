/** A split export measured against the number of files it was declared to
    have. */
module Parts {
  import opened Wrappers
  import opened Decimal
  import opened Names
  import opened Sets

  // ----- The number in a name -----

  predicate IsZip(ext: string) {
    |ext| == 4 && ext[0] == '.' && ext[1] in {'z', 'Z'} && ext[2] in {'i', 'I'} && ext[3] in {'p', 'P'}
  }

  /** What a browser adds to a file downloaded again: nothing, or " (k)". */
  predicate IsCopyMark(s: string) {
    s == "" || (|s| >= 4 && s[..2] == " (" && s[|s| - 1] == ')' && AllDigits(s[2..|s| - 1]))
  }

  /** The name is some prefix, a dash, one to four digits, perhaps a browser's
      mark, and ".zip" in any case. */
  predicate IsPart(name: string, prefix: string, digits: string, mark: string, ext: string) {
    && name == prefix + "-" + digits + mark + ext
    && 1 <= |digits| <= 4 && AllDigits(digits) && IsCopyMark(mark) && IsZip(ext)
  }

  /** How many digits s ends in. */
  function DigitsAtEnd(s: string): (n: nat)
    ensures n <= |s| && AllDigits(s[|s| - n..]) && (n < |s| ==> !IsDigit(s[|s| - n - 1]))
  {
    if s == "" || !IsDigit(s[|s| - 1]) then 0 else 1 + DigitsAtEnd(s[..|s| - 1])
  }

  /** s without the browser's mark it ends in, if any. */
  function Unmarked(s: string): string {
    if s == "" || s[|s| - 1] != ')' then s
    else
      var t := s[..|s| - 1];
      var n := DigitsAtEnd(t);
      if n > 0 && |t| - n >= 2 && t[|t| - n - 2..|t| - n] == " (" then t[..|t| - n - 2] else s
  }

  /** The part number of a name, if it is shaped like one of a split export. */
  function PartNumber(name: string): Option<nat> {
    if |name| < 4 || !IsZip(name[|name| - 4..]) then None
    else
      var s := Unmarked(name[..|name| - 4]);
      var n := DigitsAtEnd(s);
      if 1 <= n <= 4 && n < |s| && s[|s| - n - 1] == '-' then Some(Value(s[|s| - n..])) else None
  }

  lemma {:induction false} DigitsAtEndIs(s: string, n: nat)
    requires n <= |s| && AllDigits(s[|s| - n..]) && (n < |s| ==> !IsDigit(s[|s| - n - 1]))
    ensures DigitsAtEnd(s) == n
  {
    if n > 0 {
      OneDigitLess(s, n);
      hide AllDigits, IsDigit;
      DigitsAtEndIs(s[..|s| - 1], n - 1);
    }
  }

  lemma OneDigitLess(s: string, n: nat)
    requires 0 < n <= |s| && AllDigits(s[|s| - n..]) && (n < |s| ==> !IsDigit(s[|s| - n - 1]))
    ensures var t := s[..|s| - 1];
            && IsDigit(s[|s| - 1]) && AllDigits(t[|t| - (n - 1)..])
            && (n - 1 < |t| ==> !IsDigit(t[|t| - (n - 1) - 1]))
  {
    hide IsDigit;
    var t, d := s[..|s| - 1], s[|s| - n..];
    assert d[n - 1] == s[|s| - 1];
    assert t[|t| - (n - 1)..] == d[..n - 1];
  }

  lemma UnmarkedIs(s: string, mark: string)
    requires IsCopyMark(mark) && s != "" && IsDigit(s[|s| - 1])
    ensures Unmarked(s + mark) == s
  {
    if mark != "" {
      var n := |mark| - 3;
      var t := (s + mark)[..|s + mark| - 1];
      assert t == s + " (" + mark[2..|mark| - 1];
      DigitsAtEndIs(t, n);
      assert t[|t| - n - 2..|t| - n] == " (";
      assert t[..|t| - n - 2] == s;
    } else {
      assert s + mark == s;
    }
  }

  lemma PartNumberReads(name: string, prefix: string, digits: string, mark: string, ext: string)
    requires IsPart(name, prefix, digits, mark, ext)
    ensures PartNumber(name) == Some(Value(digits))
  {
    var s := prefix + "-" + digits;
    assert name[..|name| - 4] == s + mark && name[|name| - 4..] == ext;
    assert s[|s| - 1] == digits[|digits| - 1];
    UnmarkedIs(s, mark);
    assert s[|s| - |digits|..] == digits;
    DigitsAtEndIs(s, |digits|);
  }

  lemma UnmarkedSplits(s: string) returns (mark: string)
    ensures IsCopyMark(mark) && s == Unmarked(s) + mark
  {
    var t := Unmarked(s);
    if t == s {
      mark := "";
    } else {
      mark := s[|t|..];
      var u := s[..|s| - 1];
      var n := DigitsAtEnd(u);
      assert mark[..2] == u[|u| - n - 2..|u| - n];
      assert mark[2..|mark| - 1] == u[|u| - n..];
    }
  }

  lemma PartNumberSplits(name: string) returns (prefix: string, digits: string, mark: string, ext: string)
    requires PartNumber(name).Some?
    ensures IsPart(name, prefix, digits, mark, ext) && PartNumber(name) == Some(Value(digits))
  {
    hide IsZip, IsCopyMark, Unmarked, Value;
    var stem := name[..|name| - 4];
    ext := name[|name| - 4..];
    var s := Unmarked(stem);
    var k := DigitsAtEnd(s);
    prefix, digits := s[..|s| - k - 1], s[|s| - k..];
    mark := UnmarkedSplits(stem);
    assert s == prefix + "-" + digits;
  }

  /** The number is read off exactly the names shaped like a part. */
  lemma PartNumberExact(name: string, n: nat)
    ensures PartNumber(name) == Some(n) <==>
              exists prefix, digits, mark, ext :: IsPart(name, prefix, digits, mark, ext) && Value(digits) == n
  {
    hide PartNumber, Value, IsZip, IsCopyMark;
    if prefix, digits, mark, ext :| IsPart(name, prefix, digits, mark, ext) && Value(digits) == n {
      PartNumberReads(name, prefix, digits, mark, ext);
    }
    if PartNumber(name) == Some(n) {
      var prefix, digits, mark, ext := PartNumberSplits(name);
    }
  }

  /** A dash, one to four digits, perhaps a space and a number in brackets, and ".zip"
      in any case make the part those digits say; five digits or more make none. */
  lemma PartInWords(prefix: string, digits: string, mark: string, ext: string)
    requires digits != "" && forall k :: 0 <= k < |digits| ==> '0' <= digits[k] <= '9'
    requires mark == "" || (|mark| >= 4 && mark[0] == ' ' && mark[1] == '(' && mark[|mark| - 1] == ')'
                            && forall k :: 2 <= k < |mark| - 1 ==> '0' <= mark[k] <= '9')
    requires |ext| == 4 && ext[0] == '.' && (ext[1] == 'z' || ext[1] == 'Z') && (ext[2] == 'i' || ext[2] == 'I')
              && (ext[3] == 'p' || ext[3] == 'P')
    ensures PartNumber(prefix + "-" + digits + mark + ext) == if |digits| <= 4 then Some(Value(digits)) else None
  {
    MarkInWords(mark);
    assert IsZip(ext) && AllDigits(digits);
    hide PartNumber, Value, IsZip, IsCopyMark, AllDigits;
    if |digits| <= 4 {
      PartNumberReads(prefix + "-" + digits + mark + ext, prefix, digits, mark, ext);
    } else {
      TooManyDigits(prefix, digits, mark, ext);
    }
  }

  lemma MarkInWords(mark: string)
    requires mark == "" || (|mark| >= 4 && mark[0] == ' ' && mark[1] == '(' && mark[|mark| - 1] == ')'
                            && forall k :: 2 <= k < |mark| - 1 ==> '0' <= mark[k] <= '9')
    ensures IsCopyMark(mark)
  {
    if mark != "" {
      assert mark[..2] == " (";
    }
  }

  lemma TooManyDigits(prefix: string, digits: string, mark: string, ext: string)
    requires |digits| > 4 && AllDigits(digits) && IsCopyMark(mark) && IsZip(ext)
    ensures PartNumber(prefix + "-" + digits + mark + ext) == None
  {
    var s := prefix + "-" + digits;
    var name := s + mark + ext;
    assert name[..|name| - 4] == s + mark && name[|name| - 4..] == ext;
    assert s[|s| - 1] == digits[|digits| - 1];
    UnmarkedIs(s, mark);
    assert s[|s| - |digits|..] == digits;
    DigitsAtEndIs(s, |digits|);
  }

  /** Whatever is put before a part's name, it stays that part. */
  lemma PrefixKeepsNumber(prefix: string, name: string)
    requires PartNumber(name).Some?
    ensures PartNumber(prefix + name) == PartNumber(name)
  {
    var p, digits, mark, ext := PartNumberSplits(name);
    hide IsZip, PartNumber, IsCopyMark;
    assert prefix + name == (prefix + p) + "-" + digits + mark + ext;
    PartNumberReads(prefix + name, prefix + p, digits, mark, ext);
  }

  lemma BareNumberIsNoPart(digits: string, ext: string)
    requires 1 <= |digits| <= 4 && AllDigits(digits) && IsZip(ext)
    ensures PartNumber(digits + ext) == None
  {
    hide Value;
    var name := digits + ext;
    assert name[..|name| - 4] == digits && name[|name| - 4..] == ext;
    assert digits[0..] == digits;
    DigitsAtEndIs(digits, |digits|);
    UnmarkedIs(digits, "");
    assert digits + "" == digits;
  }

  lemma Reassociate(a: string, b: string, c: string)
    ensures a + (b + c) == a + b + "" + c
  {
    assert a + b + "" == a + b;
  }

  /** But a hash and a dash put before a name that is nothing but a number make a
      part of it. */
  lemma PrefixMakesNumber(prefix: string, digits: string, ext: string)
    requires 1 <= |digits| <= 4 && AllDigits(digits) && IsZip(ext)
    ensures PartNumber(digits + ext) == None && PartNumber(prefix + "-" + (digits + ext)) == Some(Value(digits))
  {
    hide PartNumber, IsZip, Value;
    BareNumberIsNoPart(digits, ext);
    Reassociate(prefix + "-", digits, ext);
    PartNumberReads(prefix + "-" + (digits + ext), prefix, digits, "", ext);
  }

  /** The name is nothing but a number, perhaps a browser's mark, and ".zip". */
  ghost predicate IsBareNumber(name: string) {
    exists digits, mark, ext :: IsBare(name, digits, mark, ext)
  }

  predicate IsBare(name: string, digits: string, mark: string, ext: string) {
    name == digits + mark + ext && 1 <= |digits| <= 4 && AllDigits(digits) && IsCopyMark(mark) && IsZip(ext)
  }

  /** A prefix and a dash make a part of exactly the names that are one already or
      are nothing but a number. */
  lemma PrefixNumbersExact(prefix: string, name: string)
    ensures PartNumber(prefix + "-" + name).Some? <==> PartNumber(name).Some? || IsBareNumber(name)
  {
    hide PartNumber, IsBareNumber;
    var long := prefix + "-" + name;
    if PartNumber(name).Some? {
      PrefixKeepsNumber(prefix + "-", name);
    } else if IsBareNumber(name) {
      BareBecomesPart(prefix, name);
    }
    if PartNumber(long).Some? {
      var p, digits, mark, ext := PartNumberSplits(long);
      DashInPrefixOrName(prefix, name, p, digits, mark, ext);
    }
  }

  lemma BareBecomesPart(prefix: string, name: string)
    requires IsBareNumber(name)
    ensures PartNumber(prefix + "-" + name).Some?
  {
    hide PartNumber, IsZip, IsCopyMark;
    var digits, mark, ext :| IsBare(name, digits, mark, ext);
    assert prefix + "-" + (digits + mark + ext) == prefix + "-" + digits + mark + ext;
    PartNumberReads(prefix + "-" + name, prefix, digits, mark, ext);
  }

  /** No dash lies past the one before the digits. */
  lemma NoDashAfter(digits: string, mark: string, ext: string)
    requires AllDigits(digits) && IsCopyMark(mark) && IsZip(ext)
    ensures forall k :: 0 <= k < |digits + mark + ext| ==> (digits + mark + ext)[k] != '-'
  {
    assert forall k :: 0 <= k < |digits| ==> digits[k] != '-';
    assert forall k :: 0 <= k < |mark| ==> mark[k] != '-' by {
      if mark != "" {
        assert mark[..2][0] == ' ' && mark[..2][1] == '(';
        assert forall k :: 2 <= k < |mark| - 1 ==> mark[k] == mark[2..|mark| - 1][k - 2];
      }
    }
  }

  lemma DashInPrefixOrName(prefix: string, name: string, p: string, digits: string, mark: string, ext: string)
    requires IsPart(prefix + "-" + name, p, digits, mark, ext)
    ensures PartNumber(name).Some? || IsBareNumber(name)
  {
    var long, tail := prefix + "-" + name, digits + mark + ext;
    NoDashAfter(digits, mark, ext);
    hide PartNumber, IsZip, IsCopyMark;
    assert long == p + "-" + tail;
    DashNotLater(prefix, name, p, tail);
    if |p| == |prefix| {
      assert name == long[|p| + 1..] == tail;
      assert IsBare(name, digits, mark, ext);
    } else {
      var q := p[|prefix| + 1..];
      assert name == long[|prefix| + 1..] == q + "-" + tail;
      assert q + "-" + tail == q + "-" + digits + mark + ext;
      PartNumberReads(name, q, digits, mark, ext);
    }
  }

  lemma DashNotLater(prefix: string, name: string, p: string, tail: string)
    requires prefix + "-" + name == p + "-" + tail && forall k :: 0 <= k < |tail| ==> tail[k] != '-'
    ensures |prefix| <= |p|
  {
    var long := prefix + "-" + name;
    assert long[|prefix|] == '-';
    assert forall k :: |p| < k < |long| ==> (p + "-" + tail)[k] == tail[k - |p| - 1];
  }

  // ----- Counting -----

  datatype Parts = Parts(expected: int, have: nat, missing: seq<nat>, tooMany: bool)
  {
    predicate Complete() { expected > 0 && !tooMany && have == expected && |missing| == 0 }
  }

  /** Some name is shaped like a part. */
  predicate Numbered(names: seq<string>) {
    exists i :: 0 <= i < |names| && PartNumber(names[i]).Some?
  }

  /** The part numbers in the names; there is no part zero. */
  function Numbers(names: seq<string>): set<nat> {
    set i | 0 <= i < |names| && PartNumber(names[i]).Some?
        && PartNumber(names[i]).value > 0 :: PartNumber(names[i]).value
  }

  /** The part numbers a declared count asks for. */
  function AllParts(expected: nat): (s: set<nat>)
    ensures forall n :: n in s <==> 1 <= n <= expected
  {
    if expected == 0 then {} else AllParts(expected - 1) + {expected}
  }

  function Absent(numbers: set<nat>, n: nat, expected: nat): (s: seq<nat>)
    requires n <= expected + 1
    ensures forall k :: k in s <==> n <= k <= expected && k !in numbers
    decreases expected + 1 - n
  {
    if n > expected then [] else (if n in numbers then [] else [n]) + Absent(numbers, n + 1, expected)
  }

  predicate Above(numbers: set<nat>, expected: int) { exists n :: n in numbers && n > expected }

  /** The measure of a set of names: by their numbers as soon as one has one, and
      by how many there are otherwise. */
  function Counted(names: seq<string>, expected: int): Parts {
    if expected <= 0 then Parts(expected, |names|, [], false)
    else if Numbered(names) || names == [] then
      Parts(expected, |Numbers(names)|, Absent(Numbers(names), 1, expected),
            Above(Numbers(names), expected) || |Numbers(names)| > expected)
    else Parts(expected, |names|, [], |names| > expected)
  }

  lemma OneMoreName(names: seq<string>, i: nat)
    requires i < |names|
    ensures Numbered(names[..i + 1]) <==> Numbered(names[..i]) || PartNumber(names[i]).Some?
    ensures Numbers(names[..i + 1]) == Numbers(names[..i])
                                       + (if PartNumber(names[i]).Some?
                                           && PartNumber(names[i]).value > 0 then {PartNumber(names[i]).value} else {})
  {
    hide PartNumber;
    var s, t := names[..i], names[..i + 1];
    assert t == s + [names[i]];
    if Numbered(s) {
      var k :| 0 <= k < |s| && PartNumber(s[k]).Some?;
      assert PartNumber(t[k]).Some?;
    }
    if PartNumber(names[i]).Some? {
      assert t[i] == names[i];
    }
    forall n | n in Numbers(s) ensures n in Numbers(t) {
      var k :| 0 <= k < |s| && PartNumber(s[k]).Some? && PartNumber(s[k]).value > 0 && PartNumber(s[k]).value == n;
      assert PartNumber(t[k]).value == n;
    }
  }

  /** Some file is shaped like part n. */
  predicate HasPart(names: seq<string>, n: nat) {
    exists i :: 0 <= i < |names| && PartNumber(names[i]) == Some(n)
  }

  /** Without a declared count nothing is said of the parts; without a number in any
      name, files count as parts. */
  lemma MeasureOfFiles(names: seq<string>, expected: int)
    requires expected <= 0 || (names != [] && forall i :: 0 <= i < |names| ==> PartNumber(names[i]).None?)
    ensures Counted(names, expected) == Parts(expected, |names|, [], 0 < expected < |names|)
  {
    hide PartNumber;
  }

  /** The numbers that are there count, each once; those from one to the declared
      count that are not are missing, in order; and one above it is too many. */
  ghost predicate CountsNumbers(p: Parts, names: seq<string>, expected: nat) {
    && p.expected == expected
    && (exists s: set<nat> :: p.have == |s| && forall n: nat :: n in s <==> n > 0 && HasPart(names, n))
    && (forall n: nat :: n in p.missing <==> 1 <= n <= expected && !HasPart(names, n))
    && (forall j, k :: 0 <= j < k < |p.missing| ==> p.missing[j] < p.missing[k])
    && (p.tooMany <==> exists n: nat :: HasPart(names, n) && n > expected)
  }

  /** That is the measure as soon as a name is shaped like a part, or while there is
      none. */
  lemma MeasureOfNumbers(names: seq<string>, expected: nat)
    requires expected > 0 && (names == [] || exists i :: 0 <= i < |names| && PartNumber(names[i]).Some?)
    ensures CountsNumbers(Counted(names, expected), names, expected)
  {
    NumbersExact(names);
    var numbers := Numbers(names);
    assert Numbered(names) || names == [] by {
      hide PartNumber;
    }
    hide PartNumber, Numbered, Numbers, HasPart;
    AbsentInOrder(numbers, 1, expected);
    AboveExact(numbers, expected);
  }

  lemma AboveExact(numbers: set<nat>, expected: nat)
    requires 0 !in numbers
    ensures Above(numbers, expected) || |numbers| > expected <==> exists n :: n in numbers && n > expected
  {
    if !Above(numbers, expected) {
      SizeOfAllParts(expected);
      assert numbers <= AllParts(expected);
      SubsetIsSmaller(numbers, AllParts(expected));
    }
  }

  lemma NumbersExact(names: seq<string>)
    ensures forall n: nat :: n in Numbers(names) <==> n > 0 && HasPart(names, n)
  {
    hide PartNumber;
    forall n | n in Numbers(names) ensures n > 0 && HasPart(names, n) {
      var i := NumberedFile(names, n);
    }
  }

  lemma {:induction false} AbsentInOrder(numbers: set<nat>, n: nat, expected: nat)
    requires n <= expected + 1
    ensures Increasing(Absent(numbers, n, expected))
    decreases expected + 1 - n
  {
    if n <= expected {
      AbsentInOrder(numbers, n + 1, expected);
      var rest := Absent(numbers, n + 1, expected);
      forall k | 0 <= k < |rest| ensures rest[k] > n {
        assert rest[k] in rest;
      }
      assert Absent(numbers, n, expected) == (if n in numbers then [] else [n]) + rest;
    }
  }

  predicate Increasing(s: seq<nat>) { forall j, k :: 0 <= j < k < |s| ==> s[j] < s[k] }

  method CountParts(names: seq<string>, expected: int) returns (p: Parts)
    ensures p == Counted(names, expected)
  {
    hide PartNumber, Numbered, Numbers, Above, Absent;
    if expected <= 0 {
      return Parts(expected, |names|, [], false);
    }
    var seen: set<nat> := {};
    var numbered, tooMany, have := false, false, |names|;
    var missing: seq<nat> := [];
    NoNames(names);
    NoneAbove(expected);
    var i := 0;
    while i < |names|
      invariant i <= |names|
      invariant seen == Numbers(names[..i]) && numbered == Numbered(names[..i])
      invariant tooMany == Above(seen, expected)
    {
      OneMoreName(names, i);
      var m := PartNumber(names[i]);
      if m.Some? {
        numbered := true;
        if m.value >= 1 {
          if m.value > expected {
            tooMany := true;
          }
          assert Above(seen + {m.value}, expected) <==> Above(seen, expected) || m.value > expected by {
            OneMoreNumber(seen, m.value, expected);
          }
          seen := seen + {m.value};
        }
      }
      i := i + 1;
    }
    assert names[..i] == names;
    if numbered || |names| == 0 {
      have := |seen|;
      missing := ListMissing(seen, expected);
    } else {
      NoNumbers(names);
    }
    if have > expected {
      tooMany := true;
    }
    p := Parts(expected, have, missing, tooMany);
  }

  /** The numbers from one to the count that have not been seen. */
  method ListMissing(seen: set<nat>, expected: nat) returns (missing: seq<nat>)
    ensures missing == Absent(seen, 1, expected)
  {
    hide Absent;
    missing := [];
    var n := 1;
    while n <= expected
      invariant 1 <= n <= expected + 1
      invariant missing + Absent(seen, n, expected) == Absent(seen, 1, expected)
    {
      AbsentStep(seen, n, expected);
      if n !in seen {
        missing := missing + [n];
      }
      n := n + 1;
    }
    AbsentStep(seen, n, expected);
  }

  lemma AbsentStep(numbers: set<nat>, n: nat, expected: nat)
    requires n <= expected + 1
    ensures Absent(numbers, n, expected) ==
              if n > expected then [] else (if n in numbers then [] else [n]) + Absent(numbers, n + 1, expected)
  {
  }

  lemma NoneAbove(expected: int)
    ensures !Above({}, expected)
  {
  }

  lemma NoNames(names: seq<string>)
    ensures !Numbered(names[..0]) && Numbers(names[..0]) == {}
  {
    assert names[..0] == [];
  }

  lemma NoNumbers(names: seq<string>)
    requires !Numbered(names)
    ensures Numbers(names) == {}
  {
    hide PartNumber;
  }

  lemma OneMoreNumber(seen: set<nat>, n: nat, expected: int)
    ensures Above(seen + {n}, expected) <==> Above(seen, expected) || n > expected
  {
    assert n in seen + {n};
    if Above(seen, expected) {
      var k :| k in seen && k > expected;
      assert k in seen + {n};
    }
  }

  // ----- Completeness -----

  lemma {:induction false} SizeOfAllParts(expected: nat)
    ensures |AllParts(expected)| == expected
  {
    if expected > 0 {
      SizeOfAllParts(expected - 1);
    }
  }

  lemma NumbersArePositive(names: seq<string>)
    ensures forall n :: n in Numbers(names) ==> n > 0
  {
    hide PartNumber;
  }

  /** A split export is complete exactly when a count was declared and either
      some name is shaped like a part and the numbers are one to the count, or
      none is and there are as many files. */
  lemma CompleteExact(names: seq<string>, expected: int)
    ensures Counted(names, expected).Complete() <==>
              expected > 0 && if Numbered(names) then Numbers(names) == AllParts(expected) else |names| == expected
  {
    hide PartNumber, Numbered, Numbers;
    if expected > 0 && (Numbered(names) || names == []) {
      SizeOfAllParts(expected);
      NumbersArePositive(names);
      var p, numbers := Counted(names, expected), Numbers(names);
      assert p.missing == [] ==> AllParts(expected) <= numbers by {
        assert forall k :: k in AllParts(expected) && k !in numbers ==> k in p.missing;
      }
      assert p.missing == [] && !Above(numbers, expected) ==> numbers == AllParts(expected);
      if numbers == AllParts(expected) {
        assert forall k :: k !in p.missing;
        assert p.missing == [] || p.missing[0] in p.missing;
      }
      if names == [] {
        NoNames(names);
        assert names[..0] == names;
        assert 1 in AllParts(expected);
      }
    }
  }

  lemma SameNumbers(a: seq<string>, b: seq<string>)
    requires forall s :: s in a <==> s in b
    ensures Numbers(a) == Numbers(b) && (Numbered(a) <==> Numbered(b))
  {
    hide PartNumber;
    assert forall i :: 0 <= i < |a| ==> a[i] in b;
    assert forall i :: 0 <= i < |b| ==> b[i] in a;
  }

  /** The order of the names does not matter. */
  lemma OrderDoesNotMatter(a: seq<string>, b: seq<string>, expected: int)
    requires multiset(a) == multiset(b)
    ensures Counted(a, expected).Complete() <==> Counted(b, expected).Complete()
  {
    CompleteExact(a, expected);
    CompleteExact(b, expected);
    hide PartNumber, Numbered, Numbers, Counted;
    assert forall s :: s in a <==> s in multiset(a);
    assert forall s :: s in b <==> s in multiset(b);
    assert |a| == |multiset(a)| == |multiset(b)| == |b|;
    SameNumbers(a, b);
  }

  /** Once one name is numbered, neither a part sent again, under whatever prefix,
      nor a file without a number changes the answer. */
  lemma ResentPartDoesNotMatter(names: seq<string>, prefix: string, i: nat, expected: int)
    requires i < |names| && PartNumber(names[i]).Some?
    ensures Counted(names + [prefix + names[i]], expected).Complete() <==> Counted(names, expected).Complete()
  {
    PrefixKeepsNumber(prefix, names[i]);
    AddedName(names, prefix + names[i], expected);
    assert PartNumber(names[i]).value > 0 ==> PartNumber(names[i]).value in Numbers(names);
  }

  lemma UnnumberedExtraDoesNotMatter(names: seq<string>, extra: string, expected: int)
    requires Numbered(names) && PartNumber(extra).None?
    ensures Counted(names + [extra], expected).Complete() <==> Counted(names, expected).Complete()
  {
    AddedName(names, extra, expected);
  }

  lemma AddedName(names: seq<string>, name: string, expected: int)
    requires Numbered(names)
    requires PartNumber(name).Some? && PartNumber(name).value > 0 ==> PartNumber(name).value in Numbers(names)
    ensures Counted(names + [name], expected).Complete() <==> Counted(names, expected).Complete()
  {
    hide PartNumber, Counted, Numbered, Numbers;
    var all := names + [name];
    assert all[..|names|] == names && all[..|names| + 1] == all;
    OneMoreName(all, |names|);
    CompleteExact(names, expected);
    CompleteExact(all, expected);
    assert Numbers(all) == Numbers(names);
  }

  // ----- A folder measured against its own number of files -----

  /** Numbers one to n on n files: each file has its own. */
  lemma {:induction false} EachItsOwn(names: seq<string>)
    requires Numbers(names) == AllParts(|names|)
    ensures forall i :: 0 <= i < |names| ==> PartNumber(names[i]).Some? && 1 <= PartNumber(names[i]).value <= |names|
    ensures forall i, j :: 0 <= i < j < |names| ==> PartNumber(names[i]) != PartNumber(names[j])
  {
    hide PartNumber;
    forall k | 0 <= k < |names|
      ensures PartNumber(names[k]).Some? && PartNumber(names[k]).value > 0
      ensures forall j :: 0 <= j < |names| && j != k ==> PartNumber(names[j]) != PartNumber(names[k])
    {
      LeaveOneOut(names, k);
    }
    forall i | 0 <= i < |names| ensures PartNumber(names[i]).value <= |names| {
      assert PartNumber(names[i]).value in Numbers(names);
    }
  }

  /** Without the kth file one number is gone, by counting. */
  lemma LeaveOneOut(names: seq<string>, k: nat)
    requires Numbers(names) == AllParts(|names|) && k < |names|
    ensures PartNumber(names[k]).Some? && PartNumber(names[k]).value > 0
    ensures forall j :: 0 <= j < |names| && j != k ==> PartNumber(names[j]) != PartNumber(names[k])
  {
    hide PartNumber;
    var rest := names[..k] + names[k + 1..];
    AtMostOneEach(rest);
    SizeOfAllParts(|names|);
    var n := PartNumber(names[k]);
    if n.None? || n.value == 0 || exists j :: 0 <= j < |names| && j != k && PartNumber(names[j]) == n {
      forall m | m in Numbers(names) ensures m in Numbers(rest) {
        var j := NumberedFile(names, m);
        if j == k {
          j :| 0 <= j < |names| && j != k && PartNumber(names[j]) == n;
        }
        StillNumbered(names, k, j);
      }
      hide Numbers;
      SubsetIsSmaller(Numbers(names), Numbers(rest));
    }
  }

  lemma NumberedFile(names: seq<string>, m: nat) returns (j: nat)
    requires m in Numbers(names)
    ensures j < |names| && PartNumber(names[j]) == Some(m) && m > 0
  {
    hide PartNumber;
    j :| 0 <= j < |names| && PartNumber(names[j]).Some? && PartNumber(names[j]).value > 0
        && PartNumber(names[j]).value == m;
  }

  lemma StillNumbered(names: seq<string>, k: nat, j: nat)
    requires k < |names| && j < |names| && j != k && PartNumber(names[j]).Some? && PartNumber(names[j]).value > 0
    ensures PartNumber(names[j]).value in Numbers(names[..k] + names[k + 1..])
  {
    hide PartNumber;
    assert (names[..k] + names[k + 1..])[if j < k then j else j - 1] == names[j];
  }

  lemma {:induction false} AtMostOneEach(names: seq<string>)
    ensures |Numbers(names)| <= |names|
    decreases |names|
  {
    hide PartNumber, Numbers;
    if names == [] {
      NoNames(names);
      assert names[..0] == names;
    } else {
      var n := |names| - 1;
      AtMostOneEach(names[..n]);
      OneMoreName(names, n);
      assert names[..n + 1] == names;
    }
  }

  /** A folder measured against its own number of files is complete exactly when
      it has a file and either no file is shaped like a part, or each carries its
      own number and the numbers are one to that many. */
  lemma WholeFolderExact(names: seq<string>)
    ensures Counted(names, |names|).Complete() <==> names != [] && (Numbered(names) ==> EachNumberedOnce(names))
  {
    hide PartNumber, Numbered, Counted;
    CompleteExact(names, |names|);
    if Numbered(names) && Numbers(names) == AllParts(|names|) {
      EachItsOwn(names);
    }
    if EachNumberedOnce(names) {
      OnceEachIsAll(names);
    }
  }

  predicate EachNumberedOnce(names: seq<string>) {
    && (forall i :: 0 <= i < |names| ==> PartNumber(names[i]).Some? && 1 <= PartNumber(names[i]).value <= |names|)
    && (forall i, j :: 0 <= i < j < |names| ==> PartNumber(names[i]) != PartNumber(names[j]))
  }

  lemma OnceEachIsAll(names: seq<string>)
    requires EachNumberedOnce(names)
    ensures Numbers(names) == AllParts(|names|)
  {
    hide PartNumber;
    SizeOfAllParts(|names|);
    DistinctNumbers(names);
    assert Numbers(names) <= AllParts(|names|);
    EqualBySize(Numbers(names), AllParts(|names|));
  }

  lemma {:induction false} DistinctNumbers(names: seq<string>)
    requires forall i :: 0 <= i < |names| ==> PartNumber(names[i]).Some? && PartNumber(names[i]).value > 0
    requires forall i, j :: 0 <= i < j < |names| ==> PartNumber(names[i]) != PartNumber(names[j])
    ensures |Numbers(names)| == |names|
    decreases |names|
  {
    hide PartNumber;
    if names != [] {
      var n := |names| - 1;
      DistinctNumbers(names[..n]);
      OneMoreName(names, n);
      assert names[..n + 1] == names;
      assert PartNumber(names[n]).value !in Numbers(names[..n]);
    }
  }

  // ----- A part that went through the upload store -----

  /** The store's names hold no space and no bracket, so a part a browser marked
      as downloaded again is no longer one once it is stored. */
  lemma StoredCopyIsNoPart(name: string, prefix: string, digits: string, mark: string, ext: string)
    requires IsPart(name, prefix, digits, mark, ext) && mark != ""
    ensures PartNumber(name) == Some(Value(digits)) && PartNumber(Sanitize(name)) == None
  {
    PartNumberReads(name, prefix, digits, mark, ext);
    var head := prefix + "-" + digits + mark[..|mark| - 1];
    assert name == head + (")" + ext);
    var p := SanitizedEnd(name, head, ext);
    assert Sanitize(name) == (p + "_") + ext;
    UnderscoreIsNoPart(p, ext);
  }

  /** A part that is not so marked stays that part. */
  lemma StoredPartStays(name: string, prefix: string, digits: string, ext: string)
    requires IsPart(name, prefix, digits, "", ext)
    ensures PartNumber(Sanitize(name)) == PartNumber(name) == Some(Value(digits))
  {
    hide PartNumber, Sanitize, IsZip, Value, AllDigits;
    PartNumberReads(name, prefix, digits, "", ext);
    var p := SanitizedPart(name, prefix, digits, ext);
    PartNumberReads(Sanitize(name), p, digits, "", ext);
  }

  lemma SanitizedPart(name: string, prefix: string, digits: string, ext: string) returns (p: string)
    requires IsPart(name, prefix, digits, "", ext)
    ensures IsPart(Sanitize(name), p, digits, "", ext)
  {
    SafeEnd(digits, ext);
    hide Base, Replaced, TrimTrailing, TrimLeading, IsZip, AllDigits;
    var end := "-" + digits + ext;
    Regroup(prefix, digits, ext);
    var q := BaseEnd(name, prefix, end);
    ReplacedConcat(q, end);
    p := TrimmedEnd(Replaced(q), end);
    Regroup(p, digits, ext);
  }

  lemma Regroup(a: string, b: string, c: string)
    ensures a + "-" + b + "" + c == a + ("-" + b + c)
  {
    assert a + "-" + b + "" == a + "-" + b;
  }

  lemma SafeEnd(digits: string, ext: string)
    requires AllDigits(digits) && IsZip(ext)
    ensures var end := "-" + digits + ext;
            && end[0] == '-' && end[|end| - 1] != '.' && Replaced(end) == end
            && forall k :: 0 <= k < |end| ==> end[k] != '/'
  {
    var end := "-" + digits + ext;
    forall k | 0 <= k < |end| ensures Safe(end[k]) {
      if 0 < k <= |digits| {
        assert end[k] == digits[k - 1] && IsDigit(digits[k - 1]);
      }
    }
    assert end[|end| - 1] == ext[3];
  }

  lemma ReplacedConcat(a: string, b: string)
    ensures Replaced(a + b) == Replaced(a) + Replaced(b)
  {
  }

  /** A part keeps its number when it is stored exactly when no browser has marked
      its name. */
  lemma StoredPartExact(name: string, prefix: string, digits: string, mark: string, ext: string)
    requires IsPart(name, prefix, digits, mark, ext)
    ensures PartNumber(Sanitize(name)) == PartNumber(name) <==> mark == ""
  {
    assert AllDigits(digits);
    hide PartNumber, Sanitize, IsPart, Value;
    if mark == "" {
      StoredPartStays(name, prefix, digits, ext);
    } else {
      StoredCopyIsNoPart(name, prefix, digits, mark, ext);
    }
  }

  lemma UnderscoreIsNoPart(p: string, ext: string)
    requires IsZip(ext)
    ensures PartNumber((p + "_") + ext) == None
  {
    var name, stem := (p + "_") + ext, p + "_";
    assert name[..|name| - 4] == stem;
    assert stem[|stem| - 1] == '_';
  }

  lemma SanitizedEnd(name: string, head: string, ext: string) returns (p: string)
    requires IsZip(ext) && name == head + (")" + ext)
    ensures Sanitize(name) == (p + "_") + ext
  {
    hide Base, Replaced, TrimTrailing, TrimLeading;
    var q := BaseEnd(name, head, ")" + ext);
    ReplacedEnd(q, ext);
    p := TrimmedEnd(Replaced(q), "_" + ext) by {
      assert ("_" + ext)[4] == ext[3];
    }
    assert p + ("_" + ext) == (p + "_") + ext;
  }

  lemma ReplacedEnd(q: string, ext: string)
    requires IsZip(ext)
    ensures |ext| == 4 && ext[3] != '.' && Replaced(q + (")" + ext)) == Replaced(q) + ("_" + ext)
  {
  }

  lemma TrimmedEnd(s: string, end: string) returns (p: string)
    requires end != "" && end[0] != '.' && end[|end| - 1] != '.'
    ensures TrimTrailing(TrimLeading(s + end, '.'), '.') == p + end
  {
    hide TrimLeading, TrimTrailing;
    LeadingEnd(s, end, '.');
    var r := TrimLeading(s + end, '.');
    p := r[..|r| - |end|];
    assert r == p + end;
    assert r[|r| - 1] == end[|end| - 1];
    NothingTrailing(r, '.');
  }

  lemma NothingTrailing(s: string, c: char)
    requires s != "" && s[|s| - 1] != c
    ensures TrimTrailing(s, c) == s
  {
  }

  lemma BaseEnd(name: string, head: string, end: string) returns (q: string)
    requires name == head + end && end != "" && forall k :: 0 <= k < |end| ==> end[k] != '/'
    ensures Base(name) == q + end
  {
    hide LastIndex, TrimTrailing;
    var i := LastIndex(name, '/');
    assert name[|name| - 1] == end[|end| - 1];
    NothingTrailing(name, '/');
    assert forall k :: |head| <= k < |name| ==> name[k] == end[k - |head|];
    q := head[i + 1..];
  }

  lemma {:induction false} LeadingEnd(p: string, end: string, c: char)
    requires end != "" && end[0] != c
    ensures var r := TrimLeading(p + end, c); |r| >= |end| && r[|r| - |end|..] == end
  {
    if p != "" && p[0] == c {
      assert (p + end)[1..] == p[1..] + end;
      LeadingEnd(p[1..], end, c);
    } else if p == "" {
      assert p + end == end;
    }
  }
}
