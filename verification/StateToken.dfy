/** The signed state that ties a Google callback to the person who asked for
    it. */
module StateToken {
  import opened Wrappers
  import opened Words
  import opened Decimal
  import opened Names

  const TTL: nat := 15 * 60
  const NANOS: nat := 1_000_000_000
  const MAX_INT64: int := 0x7FFF_FFFF_FFFF_FFFF

  // ----- base64url, section 5 of RFC 4648, without padding -----

  function Symbol(d: nat): (c: char)
    requires d < 64
    ensures c != '.'
  {
    if d < 26 then 'A' + d as char
    else if d < 52 then 'a' + (d - 26) as char
    else if d < 62 then '0' + (d - 52) as char
    else if d == 62 then '-' else '_'
  }

  lemma SymbolDetermines(d: nat, e: nat)
    requires d < 64 && e < 64 && Symbol(d) == Symbol(e)
    ensures d == e
  {
  }

  function Base64Url(bs: seq<byte>): (s: string)
    ensures forall k :: 0 <= k < |s| ==> s[k] != '.'
  {
    if |bs| == 0 then ""
    else if |bs| == 1 then [Symbol(bs[0] / 4), Symbol(bs[0] % 4 * 16)]
    else if |bs| == 2 then [Symbol(bs[0] / 4), Symbol(bs[0] % 4 * 16 + bs[1] / 16), Symbol(bs[1] % 16 * 4)]
    else [Symbol(bs[0] / 4), Symbol(bs[0] % 4 * 16 + bs[1] / 16), Symbol(bs[1] % 16 * 4 + bs[2] / 64),
        Symbol(bs[2] % 64)] + Base64Url(bs[3..])
  }

  lemma {:induction false} Base64UrlLength(bs: seq<byte>)
    ensures |Base64Url(bs)| == (4 * |bs| + 2) / 3
  {
    if |bs| >= 3 {
      Base64UrlLength(bs[3..]);
    }
  }

  lemma ThreeBytesDetermined(a: seq<byte>, b: seq<byte>)
    requires |a| == |b| == 3
    requires a[0] / 4 == b[0] / 4 && a[0] % 4 * 16 + a[1] / 16 == b[0] % 4 * 16 + b[1] / 16
    requires a[1] % 16 * 4 + a[2] / 64 == b[1] % 16 * 4 + b[2] / 64 && a[2] % 64 == b[2] % 64
    ensures a == b
  {
    assert a[0] % 4 == b[0] % 4 && a[1] / 16 == b[1] / 16;
    assert a[1] % 16 == b[1] % 16 && a[2] / 64 == b[2] / 64;
  }

  lemma {:induction false} FirstThreeDetermined(a: seq<byte>, b: seq<byte>)
    requires |a| == |b| >= 3 && Base64Url(a) == Base64Url(b)
    ensures a[..3] == b[..3]
  {
    hide Symbol;
    var s, t := Base64Url(a), Base64Url(b);
    assert s[0] == t[0] && s[1] == t[1] && s[2] == t[2] && s[3] == t[3];
    SymbolDetermines(a[0] / 4, b[0] / 4);
    SymbolDetermines(a[0] % 4 * 16 + a[1] / 16, b[0] % 4 * 16 + b[1] / 16);
    SymbolDetermines(a[1] % 16 * 4 + a[2] / 64, b[1] % 16 * 4 + b[2] / 64);
    SymbolDetermines(a[2] % 64, b[2] % 64);
    ThreeBytesDetermined(a[..3], b[..3]);
  }

  /** Two encodings of the same length are alike only for the same bytes. */
  lemma {:induction false} Base64UrlDetermines(a: seq<byte>, b: seq<byte>)
    requires |a| == |b| && Base64Url(a) == Base64Url(b)
    ensures a == b
  {
    var s, t := Base64Url(a), Base64Url(b);
    if |a| == 0 {
    } else if |a| == 1 {
      SymbolDetermines(a[0] / 4, b[0] / 4);
      SymbolDetermines(a[0] % 4 * 16, b[0] % 4 * 16);
      assert s[0] == t[0] && s[1] == t[1];
    } else if |a| == 2 {
      assert s[0] == t[0] && s[1] == t[1] && s[2] == t[2];
      SymbolDetermines(a[0] / 4, b[0] / 4);
      SymbolDetermines(a[0] % 4 * 16 + a[1] / 16, b[0] % 4 * 16 + b[1] / 16);
      SymbolDetermines(a[1] % 16 * 4, b[1] % 16 * 4);
      ThreeBytesDetermined(a + [0], b + [0]);
      assert a == (a + [0])[..2] && b == (b + [0])[..2];
    } else {
      FirstThreeDetermined(a, b);
      hide Symbol;
      assert s[4..] == Base64Url(a[3..]) && t[4..] == Base64Url(b[3..]);
      Base64UrlDetermines(a[3..], b[3..]);
      assert a == a[..3] + a[3..] && b == b[..3] + b[3..];
    }
  }

  /** The alphabet of section 5 of RFC 4648: A to Z, a to z, 0 to 9, a dash and an
      underscore. */
  lemma AlphabetExact()
    ensures Symbol(0) == 'A' && Symbol(25) == 'Z' && Symbol(26) == 'a' && Symbol(51) == 'z'
    ensures Symbol(52) == '0' && Symbol(61) == '9' && Symbol(62) == '-' && Symbol(63) == '_'
    ensures forall d :: 0 <= d < 61 && d != 25 && d != 51 ==> Symbol(d + 1) as int == Symbol(d) as int + 1
  {
  }

  /** Three bytes are written as the four digits of their number in base sixty-four,
      most significant first; at the end, bytes that are not there are zero, and
      digits of them alone are left out. */
  lemma {:induction false} Base64UrlExact(bs: seq<byte>, p: nat, q: nat, r: nat, s: nat)
    requires bs != [] && p < 64 && q < 64 && r < 64 && s < 64
    requires 0x4_0000 * p + 0x1000 * q + 64 * r + s ==
               0x1_0000 * (bs[0] as int) + 0x100 * (if |bs| > 1 then bs[1] as int else 0)
               + (if |bs| > 2 then bs[2] as int else 0)
    ensures Base64Url(bs) == if |bs| == 1 then [Symbol(p), Symbol(q)]
                             else if |bs| == 2 then [Symbol(p), Symbol(q), Symbol(r)]
                             else [Symbol(p), Symbol(q), Symbol(r), Symbol(s)] + Base64Url(bs[3..])
  {
    hide Symbol;
    SixBitsEach(bs[0], if |bs| > 1 then bs[1] else 0, if |bs| > 2 then bs[2] else 0, p, q, r, s);
  }

  lemma SixBitsEach(b: byte, c: byte, d: byte, p: nat, q: nat, r: nat, s: nat)
    requires p < 64 && q < 64 && r < 64 && s < 64
    requires 0x4_0000 * p + 0x1000 * q + 64 * r + s == 0x1_0000 * (b as int) + 0x100 * (c as int) + d
    ensures p == b / 4 && q == b % 4 * 16 + c / 16 && r == c % 16 * 4 + d / 64 && s == d % 64
  {
    assert b == 4 * p + q / 16;
    assert c == q % 16 * 16 + r / 4;
  }

  // ----- Numbers as the token writes and reads them -----

  /** The 64-bit two's complement integer congruent to n. */
  function Wrap64(n: int): int {
    var m := n % 0x1_0000_0000_0000_0000;
    if m > MAX_INT64 then m - 0x1_0000_0000_0000_0000 else m
  }

  lemma WrapNext(n: int, d: int)
    ensures Wrap64(Wrap64(n) * 10 + d) == Wrap64(n * 10 + d)
  {
    var q := WrapShift(n);
    ModOfShift(n * 10 + d, 10 * q);
    assert Wrap64(n) * 10 + d == n * 10 + d - 10 * q * 0x1_0000_0000_0000_0000;
  }

  lemma WrapShift(n: int) returns (q: int)
    ensures Wrap64(n) == n - q * 0x1_0000_0000_0000_0000
  {
    q := n / 0x1_0000_0000_0000_0000;
    if n % 0x1_0000_0000_0000_0000 > MAX_INT64 {
      q := q + 1;
    }
  }

  lemma ModOfShift(a: int, k: int)
    ensures (a - k * 0x1_0000_0000_0000_0000) % 0x1_0000_0000_0000_0000 == a % 0x1_0000_0000_0000_0000
  {
  }

  method Itoa(n: int) returns (s: string)
    requires -MAX_INT64 - 1 <= n <= MAX_INT64
    ensures s == if n > 0 then Written(n) else if n == 0 then "0" else ""
  {
    if n == 0 {
      return "0";
    }
    var buf := new char[20];
    var i, m := 20, n;
    if n > 0 {
      TwentyIsEnough(n);
      assert buf[20..] == "";
    }
    while m > 0
      invariant 0 <= i <= 20
      invariant n < 0 ==> m == n && i == 20
      invariant n > 0 ==> 0 <= m && (if m == 0 then "" else Written(m)) + buf[i..] == Written(n)
      decreases m
    {
      ghost var before := buf[i..];
      assert |Written(m)| + |before| == |Written(n)|;
      i := i - 1;
      buf[i] := Digit(m % 10);
      assert buf[i..] == [Digit(m % 10)] + before;
      assert Written(m) == (if m < 10 then "" else Written(m / 10)) + [Digit(m % 10)];
      m := m / 10;
    }
    return buf[i..];
  }

  function Pow10(k: nat): nat { if k == 0 then 1 else 10 * Pow10(k - 1) }

  lemma {:induction false} WrittenLength(n: nat, k: nat)
    requires k > 0 && n < Pow10(k)
    ensures |Written(n)| <= k
  {
    if n >= 10 {
      WrittenLength(n / 10, k - 1);
    }
  }

  lemma TwentyIsEnough(n: nat)
    requires n <= MAX_INT64
    ensures |Written(n)| <= 19
  {
    assert Pow10(5) == 100_000;
    assert Pow10(10) == 10_000_000_000;
    assert Pow10(15) == 1_000_000_000_000_000;
    assert Pow10(19) == 10_000_000_000_000_000_000;
    WrittenLength(n, 19);
  }

  /** A number as it is read: decimal digits, wrapping at 64 bits. */
  function Read(s: string): Option<int> {
    if s == "" || !AllDigits(s) then None else Some(Wrap64(Value(s)))
  }

  method ReadNumber(s: string) returns (r: Option<int>)
    ensures r == Read(s)
  {
    hide Wrap64, Value;
    if s == "" {
      return None;
    }
    var n: int := 0;
    EmptyIsZero();
    assert s[..0] == "";
    for i := 0 to |s|
      invariant AllDigits(s[..i]) && n == Wrap64(Value(s[..i]))
    {
      if !IsDigit(s[i]) {
        return None;
      }
      assert s[..i + 1] == s[..i] + [s[i]];
      OneMoreDigit(s[..i], s[i]);
      WrapNext(Value(s[..i]), DigitValue(s[i]));
      n := Wrap64(n * 10 + DigitValue(s[i]));
    }
    assert s[..|s|] == s;
    return Some(n);
  }

  lemma EmptyIsZero()
    ensures Wrap64(Value("")) == 0
  {
  }

  lemma OneMoreDigit(s: string, c: char)
    requires AllDigits(s) && IsDigit(c)
    ensures Value(s + [c]) == 10 * Value(s) + DigitValue(c)
  {
    assert (s + [c])[..|s|] == s;
  }

  /** Reading undoes writing over all positive 64-bit integers. */
  lemma ReadOfWritten(n: nat)
    requires n <= MAX_INT64
    ensures Read(Written(n)) == Some(n)
  {
    ValueOfWritten(n);
  }

  // ----- The token -----

  /** time.Unix counts from the year 1, and wraps there. */
  const SECONDS_TO_1970: int := 62135596800

  /** The last second that it does not wrap. */
  const LAST_SECOND: int := MAX_INT64 - SECONDS_TO_1970

  /** The second, since 1970, that time.Unix makes of a number. */
  function Instant(n: int): int { Wrap64(n + SECONDS_TO_1970) - SECONDS_TO_1970 }

  /** It makes the same second of every number up to the last; beyond, one long
      past. */
  lemma InstantExact(n: nat)
    requires n <= MAX_INT64
    ensures Instant(n) == n <==> n <= LAST_SECOND
    ensures n > LAST_SECOND ==> Instant(n) < 0
  {
  }

  datatype Refusal = Malformed | BadSignature | BadExpiry | TooLate | NoUser

  datatype Verdict = Names(user: string) | Refused(why: Refusal)

  class StateSigner {
    /** The keyed hash, of 32 bytes. */
    const mac: string -> seq<byte>

    constructor (mac: string -> seq<byte>)
      ensures this.mac == mac
    {
      this.mac := mac;
    }

    function Signature(payload: string): (s: string)
      ensures forall k :: 0 <= k < |s| ==> s[k] != '.'
    {
      Base64Url(mac(payload))
    }

    /** now is in nanoseconds since 1970. */
    function Signed(user: string, now: nat): string {
      var payload := user + "." + Written(now / NANOS + TTL);
      payload + "." + Signature(payload)
    }

    function Verified(state: string, now: nat): Verdict {
      var dot := LastIndex(state, '.');
      if dot < 0 then Refused(Malformed)
      else
        var payload := state[..dot];
        if state[dot + 1..] != Signature(payload) then Refused(BadSignature)
        else
          var sep := LastIndex(payload, '.');
          if sep < 0 then Refused(Malformed)
          else
            var expiry := Read(payload[sep + 1..]);
            if expiry.None? then Refused(BadExpiry)
            else if now > Instant(expiry.value) * NANOS then Refused(TooLate)
            else if sep == 0 then Refused(NoUser)
            else Names(payload[..sep])
    }

    method Sign(user: string, now: nat) returns (state: string)
      requires now / NANOS + TTL <= MAX_INT64
      ensures state == Signed(user, now)
      ensures var payload := user + "." + Written(now / 1_000_000_000 + 900);
              state == payload + "." + Base64Url(mac(payload))
    {
      hide Written;
      var expiry := Itoa(now / NANOS + TTL);
      var payload := user + "." + expiry;
      return payload + "." + Signature(payload);
    }

    method Verify(state: string, now: nat) returns (r: Verdict)
      ensures r == Verified(state, now)
    {
      hide Read;
      var lastDot := LastIndex(state, '.');
      if lastDot < 0 {
        return Refused(Malformed);
      }
      var payload, signature := state[..lastDot], state[lastDot + 1..];
      if signature != Signature(payload) {
        return Refused(BadSignature);
      }
      var sep := LastIndex(payload, '.');
      if sep < 0 {
        return Refused(Malformed);
      }
      var user := payload[..sep];
      var expiry := ReadNumber(payload[sep + 1..]);
      if expiry.None? {
        return Refused(BadExpiry);
      }
      if now > Instant(expiry.value) * NANOS {
        return Refused(TooLate);
      }
      if user == "" {
        return Refused(NoUser);
      }
      return Names(user);
    }
  }

  lemma CutAtLastDot(a: string, b: string)
    requires forall k :: 0 <= k < |b| ==> b[k] != '.'
    ensures var s := a + "." + b; LastIndex(s, '.') == |a| && s[..|a|] == a && s[|a| + 1..] == b
  {
    hide LastIndex;
    var s := a + "." + b;
    assert forall k :: |a| < k < |s| ==> s[k] == b[k - |a| - 1];
    LastIndexAt(s, '.', |a|);
  }

  lemma DigitsHoldNoDot(s: string)
    requires AllDigits(s)
    ensures forall k :: 0 <= k < |s| ==> s[k] != '.'
  {
  }

  /** The accepted states are exactly those of this form: a user, an expiry in
      decimal, and the signature of the two. */
  lemma AcceptedExact(signer: StateSigner, state: string, now: nat, user: string)
    ensures signer.Verified(state, now) == Names(user) <==>
              user != "" && exists e :: IsToken(signer, state, now, user, e)
  {
    hide *;
    if signer.Verified(state, now) == Names(user) {
      var e := AcceptedIsToken(signer, state, now, user);
    }
    if e :| user != "" && IsToken(signer, state, now, user, e) {
      TokenVerifies(signer, state, now, user, e);
    }
  }

  lemma AcceptedIsToken(signer: StateSigner, state: string, now: nat, user: string) returns (e: string)
    requires signer.Verified(state, now) == Names(user)
    ensures user != "" && IsToken(signer, state, now, user, e)
  {
    var dot, sep := CutTwice(signer, state, now, user);
    hide *;
    var payload := state[..dot];
    e := payload[sep + 1..];
    Rejoin(payload, sep);
    Rejoin(state, dot);
    TokenOf(signer, state, now, user, e);
  }

  lemma CutTwice(signer: StateSigner, state: string, now: nat, user: string) returns (dot: nat, sep: nat)
    requires signer.Verified(state, now) == Names(user)
    ensures 0 < sep < dot < |state| && state[dot] == '.' && state[..dot][sep] == '.' && user == state[..dot][..sep]
    ensures state[dot + 1..] == signer.Signature(state[..dot])
    ensures Read(state[..dot][sep + 1..]).Some? && now <= Instant(Read(state[..dot][sep + 1..]).value) * NANOS
  {
    hide LastIndex, Read, Base64Url;
    dot := LastIndex(state, '.');
    sep := LastIndex(state[..dot], '.');
  }

  lemma TokenOf(signer: StateSigner, state: string, now: nat, user: string, e: string)
    requires state == user + "." + e + "." + signer.Signature(user + "." + e)
    requires Read(e).Some? && now <= Instant(Read(e).value) * NANOS
    ensures IsToken(signer, state, now, user, e)
  {
  }

  predicate IsToken(signer: StateSigner, state: string, now: nat, user: string, e: string) {
    && state == user + "." + e + "." + signer.Signature(user + "." + e)
    && Read(e).Some? && now <= Instant(Read(e).value) * NANOS
  }

  lemma Rejoin(s: string, i: nat)
    requires i < |s| && s[i] == '.'
    ensures s == s[..i] + "." + s[i + 1..]
  {
  }

  lemma TokenVerifies(signer: StateSigner, state: string, now: nat, user: string, e: string)
    requires user != "" && IsToken(signer, state, now, user, e)
    ensures signer.Verified(state, now) == Names(user)
  {
    assert AllDigits(e);
    hide LastIndex, Read, Base64Url;
    DigitsHoldNoDot(e);
    CutAtLastDot(user, e);
    CutAtLastDot(user + "." + e, signer.Signature(user + "." + e));
  }

  /** A state signed for a user names that user, dots and all, exactly until the
      second it holds has passed. */
  lemma SignedVerifies(signer: StateSigner, user: string, at: nat, now: nat)
    requires at / NANOS + TTL <= MAX_INT64
    ensures signer.Verified(signer.Signed(user, at), now) ==
              if at / NANOS + TTL > LAST_SECOND || now > (at / NANOS + TTL) * NANOS then Refused(TooLate)
              else if user == "" then Refused(NoUser)
              else Names(user)
  {
    hide LastIndex, Read, Base64Url, Written, Instant;
    var e := Written(at / NANOS + TTL);
    ReadOfWritten(at / NANOS + TTL);
    InstantExact(at / NANOS + TTL);
    DigitsHoldNoDot(e);
    CutAtLastDot(user, e);
    CutAtLastDot(user + "." + e, signer.Signature(user + "." + e));
  }

  /** What becomes of a state without a dot, or without one before its signature. */
  lemma VerdictWithoutDots(signer: StateSigner, s: string, now: nat)
    requires forall k :: 0 <= k < |s| ==> s[k] != '.'
    ensures signer.Verified(s, now) == Refused(Malformed)
    ensures signer.Verified(s + "." + signer.Signature(s), now) == Refused(Malformed)
  {
    hide Base64Url, LastIndex;
    LastIndexAt(s, '.', -1);
    CutAtLastDot(s, signer.Signature(s));
  }

  /** Of one with another signature. */
  lemma VerdictOfForged(signer: StateSigner, payload: string, signature: string, now: nat)
    requires signature != signer.Signature(payload) && forall k :: 0 <= k < |signature| ==> signature[k] != '.'
    ensures signer.Verified(payload + "." + signature, now) == Refused(BadSignature)
  {
    hide Base64Url, LastIndex;
    CutAtLastDot(payload, signature);
  }

  /** And of every other: its last part must be digits, of a second that has not
      passed, or that time.Unix cannot keep, and only then is an empty user
      refused. */
  lemma VerdictOfSigned(signer: StateSigner, user: string, e: string, now: nat)
    requires forall k :: 0 <= k < |e| ==> e[k] != '.'
    ensures var payload := user + "." + e;
            signer.Verified(payload + "." + signer.Signature(payload), now) ==
              if e == "" || exists k :: 0 <= k < |e| && !('0' <= e[k] <= '9') then Refused(BadExpiry)
              else if now > Instant(Read(e).value) * 1_000_000_000 then Refused(TooLate)
              else if user == "" then Refused(NoUser)
              else Names(user)
  {
    hide Base64Url, LastIndex, Instant;
    CutAtLastDot(user, e);
    CutAtLastDot(user + "." + e, signer.Signature(user + "." + e));
  }

  /** A signature stands for one value of the keyed hash. */
  lemma SignatureDetermines(signer: StateSigner, a: string, b: string)
    requires |signer.mac(a)| == |signer.mac(b)| == 32 && signer.Signature(a) == signer.Signature(b)
    ensures signer.mac(a) == signer.mac(b) && |signer.Signature(a)| == 43
  {
    Base64UrlDetermines(signer.mac(a), signer.mac(b));
    Base64UrlLength(signer.mac(a));
  }

  /** An expiry that does not fit 64 bits is not refused: it wraps. */
  lemma ExpiryWraps()
    ensures Read(Written(0x1_0000_0000_0000_0000 + 7)) == Some(7)
  {
    hide Written, Value;
    ValueOfWritten(0x1_0000_0000_0000_0000 + 7);
  }
}
