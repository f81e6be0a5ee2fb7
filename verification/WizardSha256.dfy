/** The streaming SHA-256 of the wizard page, which keeps its words signed. */
module WizardSha256 {
  import opened Words
  import opened Blocks
  import opened Fips180
  import opened RunningHash
  import opened Hex
  import opened JsNumbers

  /** The table the page spells out, row by row. */
  const PAGE_TABLE: seq<int> := ROW0 + ROW1 + ROW2 + ROW3 + ROW4 + ROW5 + ROW6 + ROW7

  const ROW0: seq<int> :=
    [0x428a2f98, 0x71374491, 0xb5c0fbcf, 0xe9b5dba5, 0x3956c25b, 0x59f111f1, 0x923f82a4, 0xab1c5ed5]
  const ROW1: seq<int> :=
    [0xd807aa98, 0x12835b01, 0x243185be, 0x550c7dc3, 0x72be5d74, 0x80deb1fe, 0x9bdc06a7, 0xc19bf174]
  const ROW2: seq<int> :=
    [0xe49b69c1, 0xefbe4786, 0x0fc19dc6, 0x240ca1cc, 0x2de92c6f, 0x4a7484aa, 0x5cb0a9dc, 0x76f988da]
  const ROW3: seq<int> :=
    [0x983e5152, 0xa831c66d, 0xb00327c8, 0xbf597fc7, 0xc6e00bf3, 0xd5a79147, 0x06ca6351, 0x14292967]
  const ROW4: seq<int> :=
    [0x27b70a85, 0x2e1b2138, 0x4d2c6dfc, 0x53380d13, 0x650a7354, 0x766a0abb, 0x81c2c92e, 0x92722c85]
  const ROW5: seq<int> :=
    [0xa2bfe8a1, 0xa81a664b, 0xc24b8b70, 0xc76c51a3, 0xd192e819, 0xd6990624, 0xf40e3585, 0x106aa070]
  const ROW6: seq<int> :=
    [0x19a4c116, 0x1e376c08, 0x2748774c, 0x34b0bcb5, 0x391c0cb3, 0x4ed8aa4a, 0x5b9cca4f, 0x682e6ff3]
  const ROW7: seq<int> :=
    [0x748f82ee, 0x78a5636f, 0x84c87814, 0x8cc70208, 0x90befffa, 0xa4506ceb, 0xbef9a3f7, 0xc67178f2]

  /** It is the standard's. */
  lemma PageTableIsK()
    ensures PAGE_TABLE == K
  {
    assert ROW0 == K0 && ROW1 == K1 && ROW2 == K2 && ROW3 == K3;
    assert ROW4 == K4 && ROW5 == K5 && ROW6 == K6 && ROW7 == K7;
  }

  /** Its entries as an Int32Array holds them. */
  function TableEntry(t: nat): (r: int32)
    requires t < |K|
    ensures ToUint32(r) == K[t]
  {
    PageTableIsK();
    ToInt32(PAGE_TABLE[t])
  }

  /** ((x >>> n) | (x << 32 - n)) */
  function Rotate(x: int, n: nat): (r: int32)
    requires 0 < n < 32
    ensures ToUint32(r) == Rotr(ToUint32(x), n)
  {
    BitOr(ShiftRight(x, n), ShiftLeft(x, 32 - n))
  }

  /** The variables of the round loop, as the words they stand for. */
  function Unsigned(a: int, b: int, c: int, d: int, e: int, f: int, g: int, h: int): Eight {
    Eight(ToUint32(a), ToUint32(b), ToUint32(c), ToUint32(d), ToUint32(e), ToUint32(f), ToUint32(g), ToUint32(h))
  }

  lemma SumOf4(a: int, b: int, c: int, d: int)
    ensures ToUint32(a + b + c + d) == Mod32(ToUint32(a) + ToUint32(b) + ToUint32(c) + ToUint32(d))
  {
    SumOf2(a, b, ToUint32(a), ToUint32(b));
    SumOf2(a + b, c, ToUint32(a) + ToUint32(b), ToUint32(c));
    SumOf2(a + b + c, d, ToUint32(a) + ToUint32(b) + ToUint32(c), ToUint32(d));
  }

  /** The two sums of the round loop, reduced at each step, are the sums of the
      standard reduced once. */
  lemma RoundSums(h: int, bigS1: int, ch: int, k: int, w: int, bigS0: int, maj: int, d: int, t1: int, t2: int,
                  u1: int, u2: int)
    requires ToUint32(t1) == ToUint32(h + bigS1 + ch + k + w) && ToUint32(t2) == ToUint32(bigS0 + maj)
    requires u1 == ToUint32(h) + ToUint32(bigS1) + ToUint32(ch) + ToUint32(k) + ToUint32(w)
    requires u2 == ToUint32(bigS0) + ToUint32(maj)
    ensures ToUint32(t1 + t2) == Mod32(u1 + u2) && ToUint32(d + t1) == Mod32(ToUint32(d) + u1)
  {
    SumOf4(h, bigS1, ch, k);
    SumOf2(h + bigS1 + ch + k, w, u1 - ToUint32(w), ToUint32(w));
    SumOf2(bigS0, maj, ToUint32(bigS0), ToUint32(maj));
    SumOf2(t1, t2, u1, u2);
    SumOf2(d, t1, ToUint32(d), u1);
  }

  /** The body of the round loop: what it gives the variables a and e. */
  method OneRound(ghost v: Eight, a: int, b: int, c: int, d: int, e: int, f: int, g: int, h: int, k: int, w: int)
    returns (a': int32, e': int32)
    requires v == Unsigned(a, b, c, d, e, f, g, h)
    ensures var u1 := T1(v, ToUint32(k), ToUint32(w));
            ToUint32(a') == Mod32(u1 + T2(v)) && ToUint32(e') == Mod32(v.d + u1)
  {
    hide Op32, Shl, Shr, Mod32, ToInt32, ToUint32;
    var bigS1: int := BitXor(BitXor(Rotate(e, 6), Rotate(e, 11)), Rotate(e, 25));
    var ch: int := BitXor(BitAnd(e, f), BitAnd(BitNot(e), g));
    var t1: int := ToInt32(h + bigS1 + ch + k + w);
    var bigS0: int := BitXor(BitXor(Rotate(a, 2), Rotate(a, 13)), Rotate(a, 22));
    var maj: int := BitXor(BitXor(BitAnd(a, b), BitAnd(a, c)), BitAnd(b, c));
    var t2: int := ToInt32(bigS0 + maj);
    e' := ToInt32(d + t1);
    a' := ToInt32(t1 + t2);
    RoundSums(h, bigS1, ch, k, w, bigS0, maj, d, t1, t2, T1(v, ToUint32(k), ToUint32(w)), T2(v));
  }

  lemma ShiftedVariables(v: Eight, k: word, w: word, v': Eight)
    requires v'.a == Mod32(T1(v, k, w) + T2(v)) && v'.e == Mod32(v.d + T1(v, k, w))
    requires v'.b == v.a && v'.c == v.b && v'.d == v.c && v'.f == v.e && v'.g == v.f && v'.h == v.g
    ensures v' == Round(v, k, w)
  {
  }

  /** One word of a block, as the schedule loop reads it. */
  method LoadWord(bytes: seq<byte>, j: nat) returns (w: int32)
    requires j + 4 <= |bytes|
    ensures ToUint32(w) == BigEndian(bytes[j], bytes[j + 1], bytes[j + 2], bytes[j + 3])
  {
    hide Op32, Shl, Mod32, ToInt32, ToUint32, BigEndian;
    w := BitOr(BitOr(BitOr(ShiftLeft(bytes[j], 24), ShiftLeft(bytes[j + 1], 16)), ShiftLeft(bytes[j + 2], 8)),
        bytes[j + 3]);
    OrOfShiftedBytes(bytes[j], bytes[j + 1], bytes[j + 2], bytes[j + 3]);
  }

  /** The recurrence of the schedule loop. */
  method NextWord(w16: int, x: int, w7: int, y: int) returns (w: int32)
    ensures ToUint32(w) == Mod32(SmallSigma1(ToUint32(y)) + ToUint32(w7) + SmallSigma0(ToUint32(x)) + ToUint32(w16))
  {
    var s0: int := BitXor(BitXor(Rotate(x, 7), Rotate(x, 18)), ShiftRight(x, 3));
    var s1: int := BitXor(BitXor(Rotate(y, 17), Rotate(y, 19)), ShiftRight(y, 10));
    w := ToInt32(w16 + s0 + w7 + s1);
    SumOf4(w16, s0, w7, s1);
  }

  class Sha256 {
    const h: array<int32>
    const buf: array<byte>
    const w: array<int32>
    var bufLen: nat
    var length: nat

    ghost predicate Shape() { h.Length == 8 && buf.Length == 64 && w.Length == 64 && h != w }

    ghost predicate Valid()
      reads this
    {
      && Shape()
      && bufLen == length % 64
      && length <= MAX_SAFE
    }

    /** The hash value the signed words stand for. */
    ghost function Value(): Eight
      requires Shape()
      reads h
    {
      Eight(ToUint32(h[0]), ToUint32(h[1]), ToUint32(h[2]), ToUint32(h[3]),
            ToUint32(h[4]), ToUint32(h[5]), ToUint32(h[6]), ToUint32(h[7]))
    }

    /** What the object has kept of everything it was given. */
    ghost function Kept(): RunningSha
      reads this, h, buf
      requires Valid()
    {
      Running(Value(), buf[..bufLen], length)
    }

    constructor ()
      ensures Valid() && fresh(h) && fresh(buf) && fresh(w)
      ensures Kept() == ShaOf([]) && length == 0
    {
      var hs := new int32[8];
      hs[0], hs[1], hs[2], hs[3] := ToInt32(0x6a09e667), ToInt32(0xbb67ae85), ToInt32(0x3c6ef372), ToInt32(0xa54ff53a);
      hs[4], hs[5], hs[6], hs[7] := ToInt32(0x510e527f), ToInt32(0x9b05688c), ToInt32(0x1f83d9ab), ToInt32(0x5be0cd19);
      h := hs;
      buf := new byte[64](_ => 0);
      w := new int32[64](_ => 0);
      bufLen := 0;
      length := 0;
    }

    /** One block at bytes[offset..offset + 64]. */
    method Block(bytes: seq<byte>, offset: nat)
      requires Shape() && offset + 64 <= |bytes|
      modifies h, w
      ensures Value() == Compress(old(Value()), bytes[offset..offset + 64])
    {
      hide Added, Value, Unsigned, Rounds;
      ghost var block: Blocks.Block := bytes[offset..offset + 64];
      FillSchedule(bytes, offset, block);
      assert Value() == old(Value());
      var a, b, c, d, e, f, g, hh := RoundLoop(block);
      AddInto(a, b, c, d, e, f, g, hh);
    }

    /** The round loop, on the schedule in w. */
    method RoundLoop(ghost block: Blocks.Block)
      returns (a: int32, b: int32, c: int32, d: int32, e: int32, f: int32, g: int32, hh: int32)
      requires Shape() && forall t :: 0 <= t < 64 ==> ToUint32(w[t]) == Schedule(block, t)
      ensures Unsigned(a, b, c, d, e, f, g, hh) == Rounds(Value(), block, |K|)
    {
      hide ToUint32, T1, T2, Round, TableEntry, Mod32;
      a, b, c, d := h[0], h[1], h[2], h[3];
      e, f, g, hh := h[4], h[5], h[6], h[7];
      for i := 0 to 64
        invariant Unsigned(a, b, c, d, e, f, g, hh) == Rounds(Value(), block, i)
      {
        ghost var v := Rounds(Value(), block, i);
        var a', e' := OneRound(v, a, b, c, d, e, f, g, hh, TableEntry(i), w[i]);
        hh := g;
        g := f;
        f := e;
        e := e';
        d := c;
        c := b;
        b := a;
        a := a';
        ShiftedVariables(v, K[i], Schedule(block, i), Unsigned(a, b, c, d, e, f, g, hh));
      }
    }

    /** The schedule of a block, in w. */
    method FillSchedule(bytes: seq<byte>, offset: nat, ghost block: Blocks.Block)
      requires Shape() && offset + 64 <= |bytes| && block == bytes[offset..offset + 64]
      modifies w
      ensures forall t :: 0 <= t < 64 ==> ToUint32(w[t]) == Schedule(block, t)
    {
      hide BigEndian, Mod32, ToUint32, SmallSigma0, SmallSigma1, Schedule;
      for i := 0 to 16
        invariant forall t :: 0 <= t < i ==> ToUint32(w[t]) == Schedule(block, t)
      {
        ScheduleStart(block, i);
        w[i] := LoadWord(bytes, offset + i * 4);
      }
      for i := 16 to 64
        invariant forall t :: 0 <= t < i ==> ToUint32(w[t]) == Schedule(block, t)
      {
        ScheduleNext(block, i);
        w[i] := NextWord(w[i - 16], w[i - 15], w[i - 7], w[i - 2]);
      }
    }

    /** The variables of the round loop added to the hash value. */
    method AddInto(a: int, b: int, c: int, d: int, e: int, f: int, g: int, hh: int)
      requires Shape()
      modifies h
      ensures Value() == Added(old(Value()), Unsigned(a, b, c, d, e, f, g, hh))
    {
      hide Mod32, ToInt32, ToUint32;
      SumOfWords(h[0], a);
      SumOfWords(h[1], b);
      SumOfWords(h[2], c);
      SumOfWords(h[3], d);
      SumOfWords(h[4], e);
      SumOfWords(h[5], f);
      SumOfWords(h[6], g);
      SumOfWords(h[7], hh);
      h[0], h[1], h[2], h[3] := ToInt32(h[0] + a), ToInt32(h[1] + b), ToInt32(h[2] + c), ToInt32(h[3] + d);
      h[4], h[5], h[6], h[7] := ToInt32(h[4] + e), ToInt32(h[5] + f), ToInt32(h[6] + g), ToInt32(h[7] + hh);
    }

    /** More of the message. */
    method Update(data: seq<byte>)
      requires Valid() && length + |data| <= MAX_SAFE
      modifies this, h, buf, w
      ensures Valid() && Kept() == FeedSha(old(Kept()), data)
      ensures length == old(length) + |data|
    {
      hide Compress, Value, Feed, Fold, Whole;
      length := length + |data|;
      var i; ghost var n;
      i, n := TakeBlocks(data);
      FeedCutAt(Compress, old(Kept()), data, n);
      NextTail(old(length), old(bufLen), |data|, n);
      if i < |data| {
        Set(data[i..], 0);
        bufLen := |data| - i;
        assert buf[..bufLen] == data[i..];
      }
    }

    /** Every whole block of what was waiting and data is compressed. What is left
        is in the buffer, or else the end of data. */
    method TakeBlocks(data: seq<byte>) returns (i: nat, ghost n: nat)
      requires Shape() && bufLen < 64
      modifies `bufLen, h, buf, w
      ensures var pending := old(buf[..bufLen]) + data;
              && n % 64 == 0 && n <= |pending| < n + 64 && Value() == Fold(Compress, old(Value()), pending[..n])
              && i <= |data| && bufLen < 64
              && pending[n..] == if i < |data| then data[i..] else buf[..bufLen]
    {
      hide Compress, Value, Fold;
      ghost var pending := buf[..bufLen] + data;
      i := 0;
      if bufLen > 0 {
        i := TopUp(data);
      }
      n := |pending|;
      FoldNone(Compress, old(Value()));
      assert pending[..0] == [];
      if bufLen == 0 {
        i, n := WholeBlocks(data, i, pending, old(Value()));
      } else {
        n := 0;
      }
    }

    /** The loop over the blocks that need no buffer. */
    method WholeBlocks(data: seq<byte>, start: nat, ghost pending: seq<byte>, ghost from: Eight)
        returns (i: nat, ghost n: nat)
      requires Shape() && start <= |data| <= |pending| && data == pending[|pending| - |data|..]
      requires var n := |pending| - |data| + start;
               n % 64 == 0 && Value() == Fold(Compress, from, pending[..n])
      modifies h, w
      ensures start <= i <= |data| < i + 64 && n == |pending| - |data| + i
      ensures n % 64 == 0 && Value() == Fold(Compress, from, pending[..n])
    {
      hide Compress, Value;
      i, n := start, |pending| - |data| + start;
      while i + 64 <= |data|
        invariant start <= i <= |data| && n == |pending| - |data| + i
        invariant n % 64 == 0 && Value() == Fold(Compress, from, pending[..n])
      {
        FoldOneMore(Compress, from, pending, n);
        assert pending[n..n + 64] == data[i..i + 64];
        Block(data, i);
        i := i + 64;
        n := n + 64;
      }
    }

    /** The bytes that were waiting, topped up to a block where data reaches. */
    method TopUp(data: seq<byte>) returns (i: nat)
      requires Shape() && 0 < bufLen < 64
      modifies `bufLen, h, buf, w
      ensures i <= |data|
      ensures var pending := old(buf[..bufLen]) + data;
              if |pending| < 64 then
                i == |data| && bufLen == |pending| && buf[..bufLen] == pending && Value() == old(Value())
              else
                bufLen == 0 && old(bufLen) + i == 64 && Value() == Fold(Compress, old(Value()), pending[..64])
    {
      hide Compress, Value, Fold;
      ghost var pending := buf[..bufLen] + data;
      var need := 64 - bufLen;
      var take := if need < |data| then need else |data|;
      Set(data[..take], bufLen);
      bufLen := bufLen + take;
      i := take;
      assert buf[..bufLen] == pending[..bufLen];
      assert Value() == old(Value());
      if bufLen == 64 {
        Block(buf[..], 0);
        assert buf[..][0..64] == pending[..64];
        FoldFirst(Compress, old(Value()), pending[..64]);
        bufLen := 0;
      }
    }

    /** this.buf.set(data, at) */
    method Set(data: seq<byte>, at: nat)
      requires at + |data| <= buf.Length
      modifies buf
      ensures buf[..] == old(buf[..at]) + data + old(buf[at + |data|..])
    {
      for i := 0 to |data|
        invariant buf[..] == old(buf[..at]) + data[..i] + old(buf[at + i..])
      {
        assert data[..i + 1] == data[..i] + [data[i]];
        buf[at + i] := data[i];
      }
    }

    /** hex() gives its padding to update. */
    method AppendPadding(pad: seq<byte>, bitLenHi: nat)
      requires Valid() && length + 128 <= MAX_SAFE && bitLenHi == length / 0x2000_0000
      requires |pad| == (if bufLen < 56 then 64 else 128) - bufLen
      requires pad == [0x80] + seq(|pad| - 9, _ => 0) + FourBytes(bitLenHi) + FourBytes(ToUint32(length * 8))
      modifies this, h, buf, w
      ensures Shape() && bufLen == 0 && Value() == Finish(old(Kept()))
    {
      hide Fold, Compress, Value, Padding, FourBytes, ToUint32;
      PaddingLaidOut(length, bufLen, bitLenHi, pad);
      PaddingFillsBlocks(length);
      FillsBlock(length, bufLen, |pad|);
      ghost var kept := Kept();
      NextTail(length, bufLen, |pad|, bufLen + |pad|);
      FeedCutAt(Compress, kept, pad, |kept.tail + pad|);
      Update(pad);
      assert (kept.tail + pad)[..|kept.tail + pad|] == kept.tail + pad;
    }

    /** The digest of everything given to update, in hexadecimal. The object is
        spent afterwards. */
    method ToHex() returns (r: string)
      requires Valid() && length + 128 <= MAX_SAFE
      modifies this, h, buf, w
      ensures r == HexDigest(Finish(old(Kept())))
      ensures bufLen == 0
    {
      hide Finish, FourBytes, ToUint32, Padding, HexDigest;
      var bitLenHi := length / 0x2000_0000;
      var bitLenLo := ToUint32(length * 8);
      var pad := new byte[(if bufLen < 56 then 64 else 128) - bufLen](_ => 0);
      pad[0] := 0x80;
      SetUint32(pad, pad.Length - 8, bitLenHi);
      SetUint32(pad, pad.Length - 4, bitLenLo);
      AppendPadding(pad[..], bitLenHi);
      r := WriteHex();
    }

    /** The words of h, unsigned, eight digits each. */
    method WriteHex() returns (r: string)
      requires Shape()
      ensures r == HexDigest(Value())
    {
      hide ToUint32, HexWords, HexDigits;
      ghost var v := Value();
      ghost var words := [v.a, v.b, v.c, v.d, v.e, v.f, v.g, v.h];
      r := "";
      NoWords();
      for i := 0 to 8
        invariant r == HexWords(words[..i])
      {
        OneMoreWord(words, i);
        r := r + PaddedWord(ToUint32(h[i]));
      }
      assert words[..8] == words;
    }
  }

  /** What hex() appends is the padding of the standard, and fills the block. */
  lemma PaddingLaidOut(length: nat, bufLen: nat, bitLenHi: nat, pad: seq<byte>)
    requires bufLen == length % 64 && bitLenHi == length / 0x2000_0000 < TWO32
    requires |pad| == (if bufLen < 56 then 64 else 128) - bufLen
    requires pad == [0x80] + seq(|pad| - 9, _ => 0) + FourBytes(bitLenHi) + FourBytes(ToUint32(length * 8))
    ensures pad == Padding(length)
  {
    hide ToUint32, BigEndianBytes;
    ZerosNeeded(length, bufLen);
    var bits := 8 * length;
    HighWord(length);
    LastFourBytes(bits, 4);
    LastFourBytes(bitLenHi, 0);
    LowBytes(bits);
  }

  lemma FillsBlock(length: nat, bufLen: nat, more: nat)
    requires bufLen == length % 64 && (length + more) % 64 == 0
    ensures (bufLen + more) % 64 == 0
  {
    WholeOfSum(Whole(length), bufLen + more);
  }

  lemma ZerosNeeded(length: nat, bufLen: nat)
    requires bufLen == length % 64
    ensures (if bufLen < 56 then 64 else 128) - bufLen == ZeroBytes(length) + 9
  {
  }

  lemma HighWord(length: nat)
    ensures 8 * length / TWO32 == length / 0x2000_0000
  {
  }

  /** The four bytes setUint32 writes. */
  function FourBytes(n: nat): (s: seq<byte>)
    ensures |s| == 4
  {
    [n / 0x100_0000 % 256, n / 0x1_0000 % 256, n / 256 % 256, n % 256]
  }

  lemma LowBytes(n: nat)
    ensures FourBytes(n) == FourBytes(ToUint32(n))
  {
    hide ToUint32;
    var q, low := n / TWO32, ToUint32(n);
    assert n == low + q * TWO32 by {
      LowPart(n);
    }
    QuotientsBelow(low, q);
  }

  lemma LowPart(n: nat)
    ensures n == ToUint32(n) + n / TWO32 * TWO32
  {
  }

  lemma QuotientsBelow(low: nat, q: nat)
    ensures FourBytes(low + q * TWO32) == FourBytes(low)
  {
    var n := low + q * TWO32;
    DroppedMultiple(low / 0x100_0000, 1, q);
    assert n / 0x100_0000 == low / 0x100_0000 + 256 * q;
    DroppedMultiple(low / 0x1_0000, 0x100, q);
    assert n / 0x1_0000 == low / 0x1_0000 + 256 * (0x100 * q);
    DroppedMultiple(low / 256, 0x1_0000, q);
    assert n / 256 == low / 256 + 256 * (0x1_0000 * q);
    DroppedMultiple(low, 0x100_0000, q);
  }

  lemma DroppedMultiple(x: nat, f: nat, q: nat)
    ensures (x + 256 * (f * q)) % 256 == x % 256
  {
    var p := f * q;
    assert (x + 256 * p) % 256 == x % 256;
  }

  /** DataView.setUint32, most significant byte first. */
  method SetUint32(a: array<byte>, at: nat, n: int)
    requires at + 4 <= a.Length
    modifies a
    ensures a[..] == old(a[..at]) + FourBytes(ToUint32(n)) + old(a[at + 4..])
  {
    hide ToUint32;
    var w := ToUint32(n);
    a[at], a[at + 1], a[at + 2], a[at + 3] := w / 0x100_0000 % 256, w / 0x1_0000 % 256, w / 256 % 256, w % 256;
  }

  const READ_CHUNK: nat := 8 * 1024 * 1024

  /** hashFile: the file read in slices, each given to update. */
  method HashFile(file: seq<byte>) returns (hash: string)
    requires |file| + 128 <= MAX_SAFE
    ensures hash == Sha256Hex(file)
  {
    hide RunningOf, Feed, Digest, Finish;
    var hasher := new Sha256();
    var offset := 0;
    while offset < |file|
      invariant offset <= |file| + READ_CHUNK && fresh(hasher) && fresh(hasher.h) && fresh(hasher.buf)
                && fresh(hasher.w)
      invariant var read := if offset < |file| then offset else |file|;
                hasher.Valid() && hasher.length == read && hasher.Kept() == ShaOf(file[..read])
    {
      var end := if offset + READ_CHUNK < |file| then offset + READ_CHUNK else |file|;
      FeedExtends(Compress, H0, file[..offset], file[offset..end]);
      assert file[..offset] + file[offset..end] == file[..end];
      hasher.Update(file[offset..end]);
      offset := offset + READ_CHUNK;
    }
    assert file[..|file|] == file;
    FinishIsDigest(file);
    hash := hasher.ToHex();
  }

  /** However a message is cut into pieces for update, hex gives its SHA-256:
      update feeds what is kept (Update), hex finishes it (ToHex). */
  lemma EveryCutGivesSha256(pieces: seq<seq<byte>>)
    ensures HexDigest(Finish(FeedAll(Compress, EMPTY, pieces))) == Sha256Hex(Concat(pieces))
  {
    AnyCutGivesDigest(pieces);
    hide Finish, FeedAll, Digest, HexDigest;
  }
}
