/** File names as they come from outside, and as they are kept on disk. */
module Names {

  /** strings.LastIndex of one character. */
  function LastIndex(s: string, c: char): (i: int)
    ensures -1 <= i < |s|
    ensures i >= 0 ==> s[i] == c
    ensures forall k :: i < k < |s| ==> s[k] != c
  {
    if s == "" then -1 else if s[|s| - 1] == c then |s| - 1 else LastIndex(s[..|s| - 1], c)
  }

  /** Where the last one is, is told by what is there and after it. */
  lemma {:induction false} LastIndexAt(s: string, c: char, i: int)
    requires -1 <= i < |s| && (i >= 0 ==> s[i] == c) && forall k :: i < k < |s| ==> s[k] != c
    ensures LastIndex(s, c) == i
  {
    if i < |s| - 1 {
      LastIndexAt(s[..|s| - 1], c, i);
    }
  }

  function TrimTrailing(s: string, c: char): (t: string)
    ensures t <= s && (t == "" || t[|t| - 1] != c)
  {
    if s == "" || s[|s| - 1] != c then s else TrimTrailing(s[..|s| - 1], c)
  }

  function TrimLeading(s: string, c: char): (t: string)
    ensures |t| <= |s| && t == s[|s| - |t|..] && (t == "" || t[0] != c)
  {
    if s == "" || s[0] != c then s else TrimLeading(s[1..], c)
  }

  /** filepath.Base: the last element of a path. */
  function Base(path: string): (b: string)
    ensures b != ""
  {
    if path == "" then "."
    else
      var p := TrimTrailing(path, '/');
      if p == "" then "/" else p[LastIndex(p, '/') + 1..]
  }

  predicate Safe(c: char) {
    'a' <= c <= 'z' || 'A' <= c <= 'Z' || '0' <= c <= '9' || c == '-' || c == '_' || c == '.'
  }

  function MadeSafe(c: char): char { if Safe(c) then c else '_' }

  function Replaced(s: string): (t: string)
    ensures |t| == |s| && forall k :: 0 <= k < |s| ==> t[k] == MadeSafe(s[k])
  {
    if s == "" then "" else Replaced(s[..|s| - 1]) + [MadeSafe(s[|s| - 1])]
  }

  /** A name made safe as one path element. */
  function Sanitize(name: string): string {
    var out := TrimTrailing(TrimLeading(Replaced(Base(name)), '.'), '.');
    if out == "" then "upload" else out
  }

  predicate SafeElement(s: string) {
    s != "" && s[0] != '.' && s[|s| - 1] != '.' && forall k :: 0 <= k < |s| ==> Safe(s[k])
  }

  lemma TrimmedIsSafe(r: string)
    requires forall k :: 0 <= k < |r| ==> Safe(r[k])
    ensures var out := TrimTrailing(TrimLeading(r, '.'), '.'); out == "" || SafeElement(out)
  {
    hide TrimLeading, TrimTrailing, Safe;
    var l := TrimLeading(r, '.');
    var out := TrimTrailing(l, '.');
    SuffixIsSafe(r, |r| - |l|);
    PrefixIsSafe(l, |out|);
    assert out != "" ==> out[0] == l[0];
  }

  lemma SuffixIsSafe(s: string, n: nat)
    requires n <= |s| && forall k :: 0 <= k < |s| ==> Safe(s[k])
    ensures forall k :: 0 <= k < |s[n..]| ==> Safe(s[n..][k])
  {
    hide Safe;
  }

  lemma PrefixIsSafe(s: string, n: nat)
    requires n <= |s| && forall k :: 0 <= k < |s| ==> Safe(s[k])
    ensures forall k :: 0 <= k < |s[..n]| ==> Safe(s[..n][k])
  {
    hide Safe;
  }

  /** What comes out is one path element of letters, digits, dashes, underscores
      and dots, with no dot at either end. */
  lemma SanitizedIsSafe(name: string)
    ensures SafeElement(Sanitize(name))
  {
    hide Base, TrimLeading, TrimTrailing, Replaced, Safe;
    var r := Replaced(Base(name));
    ReplacedIsSafe(Base(name));
    TrimmedIsSafe(r);
    UploadIsSafe();
  }

  lemma UploadIsSafe()
    ensures SafeElement("upload")
  {
  }

  lemma ReplacedIsSafe(s: string)
    ensures forall k :: 0 <= k < |Replaced(s)| ==> Safe(Replaced(s)[k])
  {
    var t := Replaced(s);
    forall k | 0 <= k < |t| ensures Safe(t[k]) {
      assert t[k] == MadeSafe(s[k]);
    }
  }

  lemma BaseOfElement(s: string)
    requires s != "" && forall k :: 0 <= k < |s| ==> Safe(s[k])
    ensures Base(s) == s
  {
    assert TrimTrailing(s, '/') == s;
    assert LastIndex(s, '/') == -1;
  }

  /** A name the store handed out leads back to the same file. */
  lemma SanitizeTwice(name: string)
    ensures Sanitize(Sanitize(name)) == Sanitize(name)
  {
    var s := Sanitize(name);
    SanitizedIsSafe(name);
    BaseOfElement(s);
    SafeElementStays(s);
    hide Base, TrimLeading, TrimTrailing, Replaced, SafeElement;
  }

  lemma SafeElementStays(s: string)
    requires SafeElement(s)
    ensures Replaced(s) == s && TrimTrailing(TrimLeading(s, '.'), '.') == s
  {
    hide Safe;
    var t := Replaced(s);
    assert forall k :: 0 <= k < |s| ==> t[k] == s[k];
    assert t == s;
    hide Replaced;
    assert TrimLeading(s, '.') == s;
  }

  predicate NoSlashIn(s: string) { forall k :: 0 <= k < |s| ==> s[k] != '/' }

  predicate OnlyDots(s: string) { forall k :: 0 <= k < |s| ==> s[k] == '.' }

  /** The last element of a path, without the dots around it, keeps its letters,
      digits, dashes, underscores and dots, and has an underscore for anything else;
      nothing of the path before it comes through. */
  lemma SanitizedExact(path: string, left: string, middle: string, right: string)
    requires path == "" || path[|path| - 1] == '/'
    requires middle != "" && middle[0] != '.' && middle[|middle| - 1] != '.'
    requires OnlyDots(left) && OnlyDots(right) && NoSlashIn(middle)
    ensures var s := Sanitize(path + (left + middle + right));
            && |s| == |middle|
            && forall k :: 0 <= k < |s| ==>
                 var c := middle[k];
                 s[k] == if 'A' <= c <= 'Z' || 'a' <= c <= 'z' || '0' <= c <= '9' || c in "-_." then c else '_'
  {
    var name := left + middle + right;
    hide Base, TrimLeading, TrimTrailing, Replaced;
    NoSlashInParts(left, middle, right);
    BaseOfPath(path, name);
    ReplacedParts(left, middle, right);
    var m := Replaced(middle);
    KeptCharacters(middle);
    hide OnlyDots, NoSlashIn;
    TrimBoth(left, m, right);
  }

  lemma KeptCharacters(s: string)
    ensures var t := Replaced(s);
            && |t| == |s|
            && forall k :: 0 <= k < |t| ==>
                 var c := s[k];
                 t[k] == if 'A' <= c <= 'Z' || 'a' <= c <= 'z' || '0' <= c <= '9' || c in "-_." then c else '_'
    ensures s != "" && s[0] != '.' && s[|s| - 1] != '.' ==> Replaced(s)[0] != '.' && Replaced(s)[|s| - 1] != '.'
  {
    hide Replaced;
    assert forall k :: 0 <= k < |s| ==> Replaced(s)[k] == MadeSafe(s[k]);
  }

  lemma NoSlashInParts(left: string, middle: string, right: string)
    requires OnlyDots(left) && OnlyDots(right) && NoSlashIn(middle)
    ensures NoSlashIn(left + middle + right)
  {
  }

  /** A name of dots only becomes "upload". */
  lemma NothingLeft(name: string)
    requires forall k :: 0 <= k < |name| ==> name[k] == '.'
    ensures Sanitize(name) == "upload"
  {
    hide TrimLeading, TrimTrailing;
    var b := Base(name);
    assert TrimTrailing(name, '/') == name by {
      NoneTrailing(name, '/');
    }
    assert OnlyDots(b);
    assert Replaced(b) == b;
    assert TrimLeading(b, '.') == "";
  }

  lemma NoneTrailing(s: string, c: char)
    requires s == "" || s[|s| - 1] != c
    ensures TrimTrailing(s, c) == s
  {
  }

  lemma BaseOfPath(path: string, name: string)
    requires (path == "" || path[|path| - 1] == '/') && name != "" && NoSlashIn(name)
    ensures Base(path + name) == name
  {
    hide LastIndex, TrimTrailing;
    var s := path + name;
    assert s[|s| - 1] == name[|name| - 1];
    NoneTrailing(s, '/');
    assert forall k :: |path| <= k < |s| ==> s[k] == name[k - |path|];
    LastIndexAt(s, '/', |path| - 1);
    assert s[|path|..] == name;
  }

  lemma ReplacedParts(left: string, middle: string, right: string)
    requires OnlyDots(left) && OnlyDots(right)
    ensures Replaced(left + middle + right) == left + Replaced(middle) + right
  {
  }

  lemma TrimBoth(left: string, middle: string, right: string)
    requires OnlyDots(left) && OnlyDots(right) && middle != "" && middle[0] != '.' && middle[|middle| - 1] != '.'
    ensures TrimTrailing(TrimLeading(left + middle + right, '.'), '.') == middle
  {
    assert left + middle + right == left + (middle + right);
    LeadingGone(left, middle + right);
    TrailingGone(middle, right);
  }

  lemma {:induction false} LeadingGone(left: string, rest: string)
    requires OnlyDots(left) && rest != "" && rest[0] != '.'
    ensures TrimLeading(left + rest, '.') == rest
  {
    if left != "" {
      assert (left + rest)[1..] == left[1..] + rest;
      LeadingGone(left[1..], rest);
    } else {
      assert left + rest == rest;
    }
  }

  lemma {:induction false} TrailingGone(rest: string, right: string)
    requires OnlyDots(right) && rest != "" && rest[|rest| - 1] != '.'
    ensures TrimTrailing(rest + right, '.') == rest
    decreases |right|
  {
    if right != "" {
      var n := |right| - 1;
      assert (rest + right)[..|rest + right| - 1] == rest + right[..n];
      TrailingGone(rest, right[..n]);
    } else {
      assert rest + right == rest;
    }
  }
}
