/** Lowercase hexadecimal, as digests are written. */
module Hex {
  import opened Words
  import opened Fips180

  function HexDigit(d: nat): char
    requires d < 16
  {
    if d < 10 then '0' + d as char else 'a' + (d - 10) as char
  }

  /** 0 to 9, then a to f. */
  lemma HexDigitExact(d: nat)
    requires d < 16
    ensures [HexDigit(d)] == "0123456789abcdef"[d..d + 1]
  {
  }

  /** The low count hexadecimal digits of n, most significant first. */
  function HexDigits(n: nat, count: nat): (s: string)
    ensures |s| == count
  {
    if count == 0 then "" else HexDigits(n / 16, count - 1) + [HexDigit(n % 16)]
  }

  /** Words written one after the other, eight digits each. */
  function HexWords(ws: seq<word>): (s: string)
    ensures |s| == 8 * |ws|
  {
    if ws == [] then "" else HexWords(ws[..|ws| - 1]) + HexDigits(ws[|ws| - 1], 8)
  }

  /** A digest in sixty-four hexadecimal digits. */
  function HexDigest(v: Eight): string { HexWords([v.a, v.b, v.c, v.d, v.e, v.f, v.g, v.h]) }

  /** Number.prototype.toString(16): no leading zeros, but one digit for zero. */
  function ToString16(n: nat): (s: string)
    ensures s != ""
  {
    if n < 16 then [HexDigit(n)] else ToString16(n / 16) + [HexDigit(n % 16)]
  }

  function PadStart(s: string, width: nat, c: char): string {
    if |s| >= width then s else seq(width - |s|, _ => c) + s
  }

  lemma FourMoreBits(n: nat)
    ensures Pow2(n + 4) == 16 * Pow2(n)
  {
    assert Pow2(n + 2) == 4 * Pow2(n);
    assert Pow2(n + 3) == 8 * Pow2(n);
  }

  lemma {:induction false} ZeroDigits(count: nat)
    ensures HexDigits(0, count) == seq(count, _ => '0')
  {
    if count > 0 {
      ZeroDigits(count - 1);
    }
  }

  lemma {:induction false} PaddedDigits(n: nat, count: nat)
    requires 0 < count && n < Pow2(4 * count)
    ensures |ToString16(n)| <= count && PadStart(ToString16(n), count, '0') == HexDigits(n, count)
  {
    if n < 16 {
      ZeroDigits(count - 1);
      assert n / 16 == 0;
    } else {
      assert Pow2(4) == 16;
      FourMoreBits(4 * (count - 1));
      PaddedDigits(n / 16, count - 1);
    }
  }

  lemma {:induction false} DigitsDetermine(m: nat, n: nat, count: nat)
    requires m < Pow2(4 * count) && n < Pow2(4 * count)
    requires HexDigits(m, count) == HexDigits(n, count)
    ensures m == n
  {
    if count > 0 {
      var a, b := HexDigits(m, count), HexDigits(n, count);
      assert a[..count - 1] == HexDigits(m / 16, count - 1);
      assert b[..count - 1] == HexDigits(n / 16, count - 1);
      assert a[count - 1] == HexDigit(m % 16) && b[count - 1] == HexDigit(n % 16);
      FourMoreBits(4 * (count - 1));
      DigitsDetermine(m / 16, n / 16, count - 1);
    }
  }

  lemma NoWords()
    ensures HexWords([]) == ""
  {
  }

  lemma OneMoreWord(ws: seq<word>, i: nat)
    requires i < |ws|
    ensures HexWords(ws[..i + 1]) == HexWords(ws[..i]) + HexDigits(ws[i], 8)
  {
    assert ws[..i + 1][..i] == ws[..i];
  }

  lemma {:induction false} WordsDetermine(v: seq<word>, w: seq<word>)
    requires |v| == |w| && HexWords(v) == HexWords(w)
    ensures v == w
  {
    if v != [] {
      hide HexDigits;
      var n, s := |v| - 1, HexWords(v);
      assert s[..8 * n] == HexWords(v[..n]) == HexWords(w[..n]);
      assert s[8 * n..] == HexDigits(v[n], 8) == HexDigits(w[n], 8);
      Pow2Values();
      DigitsDetermine(v[n], w[n], 8);
      WordsDetermine(v[..n], w[..n]);
      assert v == v[..n] + [v[n]] && w == w[..n] + [w[n]];
    }
  }

  /** Two digests written the same are the same. */
  lemma HexDigestDetermines(v: Eight, w: Eight)
    requires HexDigest(v) == HexDigest(w)
    ensures v == w
  {
    WordsDetermine([v.a, v.b, v.c, v.d, v.e, v.f, v.g, v.h], [w.a, w.b, w.c, w.d, w.e, w.f, w.g, w.h]);
  }

  /** How the page writes one word. */
  function PaddedWord(w: word): (s: string)
    ensures s == HexDigits(w, 8)
  {
    Pow2Values();
    PaddedDigits(w, 8);
    PadStart(ToString16(w), 8, '0')
  }

  /** The SHA-256 of a message as the service writes it. */
  function Sha256Hex(message: seq<byte>): string { HexDigest(Digest(message)) }
}
