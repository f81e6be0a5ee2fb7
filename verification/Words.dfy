/** Bytes and 32-bit words, with the operations of section 3.2 of FIPS 180-4.
    A word is the integer it denotes, so addition modulo 2^32, shifts and
    complement are arithmetic; the other operations work bit by bit. */
module Words {

  const TWO32: int := 0x1_0000_0000

  type byte = x: int | 0 <= x < 256
  type word = x: int | 0 <= x < TWO32

  function Pow2(n: nat): (p: nat)
    ensures p > 0
  {
    if n == 0 then 1 else 2 * Pow2(n - 1)
  }

  datatype BitOp = Conjunction | Disjunction | Parity {
    function OnBits(x: nat, y: nat): (b: nat)
      ensures b <= 1
    {
      match this
      case Conjunction => if x == 1 && y == 1 then 1 else 0
      case Disjunction => if x == 1 || y == 1 then 1 else 0
      case Parity => if x != y then 1 else 0
    }
  }

  /** The number whose bits are op applied to the bits of x and y. */
  function Bitwise(op: BitOp, x: nat, y: nat): nat
    decreases x + y
  {
    if x == 0 && y == 0 then 0
    else 2 * Bitwise(op, x / 2, y / 2) + op.OnBits(x % 2, y % 2)
  }

  lemma {:induction false} BitwiseFits(op: BitOp, x: nat, y: nat, n: nat)
    requires x < Pow2(n) && y < Pow2(n)
    ensures Bitwise(op, x, y) < Pow2(n)
    decreases n
  {
    if n > 0 {
      BitwiseFits(op, x / 2, y / 2, n - 1);
    }
  }

  /** Numbers with no bit in common: combining them is adding them. */
  lemma {:induction false} DisjointOrIsSum(x: nat, y: nat, n: nat)
    requires y < Pow2(n)
    ensures Bitwise(Disjunction, x * Pow2(n), y) == x * Pow2(n) + y
    decreases n, x
  {
    if n == 0 {
      if x > 0 {
        DisjointOrIsSum(x / 2, 0, 0);
      }
    } else if x != 0 || y != 0 {
      var h := x * Pow2(n - 1);
      assert x * Pow2(n) == 2 * h;
      DisjointOrIsSum(x, y / 2, n - 1);
    }
  }

  lemma Pow2Values()
    ensures Pow2(8) == 0x100 && Pow2(16) == 0x1_0000 && Pow2(24) == 0x100_0000 && Pow2(32) == TWO32
  {
    assert Pow2(4) == 0x10;
    assert Pow2(8) == 0x100;
    assert Pow2(12) == 0x1000;
    assert Pow2(16) == 0x1_0000;
    assert Pow2(20) == 0x10_0000;
    assert Pow2(24) == 0x100_0000;
    assert Pow2(28) == 0x1000_0000;
  }

  /** The word congruent to n modulo 2^32. */
  function Mod32(n: int): word { n % TWO32 }

  function Op32(op: BitOp, x: word, y: word): word {
    Pow2Values();
    BitwiseFits(op, x, y, 32);
    Bitwise(op, x, y)
  }

  function And(x: word, y: word): word { Op32(Conjunction, x, y) }

  function Or(x: word, y: word): word { Op32(Disjunction, x, y) }

  function Xor(x: word, y: word): word { Op32(Parity, x, y) }

  function Not(x: word): word { TWO32 - 1 - x }

  /** The bits of x moved n places up; those moved past the top are lost. */
  function Shl(x: word, n: nat): word
    decreases n, x
  {
    if n == 0 then x else Shl(Mod32(2 * x), n - 1)
  }

  /** The bits of x moved n places down. */
  function Shr(x: word, n: nat): word
    decreases n, x
  {
    if n == 0 then x else Shr(x / 2, n - 1)
  }

  function Rotr(x: word, n: nat): word
    requires n <= 32
  {
    Or(Shr(x, n), Shl(x, 32 - n))
  }

  /** The word four bytes denote, most significant first. */
  function BigEndian(b0: byte, b1: byte, b2: byte, b3: byte): word {
    b0 * 0x100_0000 + b1 * 0x1_0000 + b2 * 0x100 + b3
  }

  lemma DoubledFactor(x: nat, p: nat, q: nat)
    requires p == 2 * q && q > 0
    ensures x * p == 2 * x * q && 2 * x <= x * p
  {
    assert x * p == 2 * x * q;
    assert 2 * x * (q - 1) >= 0;
  }

  lemma {:induction false} ShlIsProduct(x: word, n: nat, p: nat)
    requires Pow2(n) == p && x * p < TWO32
    ensures Shl(x, n) == x * p
    decreases n
  {
    if n > 0 {
      var q := Pow2(n - 1);
      hide Shl;
      DoubledFactor(x, p, q);
      ShlStep(x, n);
      ShlIsProduct(2 * x, n - 1, q);
    } else {
      ShlNone(x);
    }
  }

  lemma ShlStep(x: word, n: nat)
    requires n > 0 && 2 * x < TWO32
    ensures Shl(x, n) == Shl(2 * x, n - 1)
  {
  }

  /** Moved down, a word is divided. */
  lemma {:induction false} ShrIsQuotient(x: word, n: nat)
    ensures Shr(x, n) == x / Pow2(n)
    decreases n
  {
    if n > 0 {
      ShrIsQuotient(x / 2, n - 1);
      HalvedFirst(x, Pow2(n - 1));
    }
  }

  lemma HalvedFirst(x: nat, p: nat)
    requires p > 0
    ensures x / 2 / p == x / (2 * p)
  {
    var q, r := x / 2 / p, x / 2 % p;
    assert x / 2 == q * p + r;
    assert x == 2 * p * q + (2 * r + x % 2);
    QuotientIs(x, 2 * p, q, 2 * r + x % 2);
  }

  lemma QuotientIs(x: nat, p: nat, q: nat, r: nat)
    requires r < p && x == p * q + r
    ensures x / p == q
  {
    var k, m := x / p, x % p;
    assert x == p * k + m;
    assert p * (k + 1) == p * k + p && p * (q + 1) == p * q + p;
    if k < q {
      TimesMonotone(p, k + 1, q);
    }
    if k > q {
      TimesMonotone(p, q + 1, k);
    }
  }

  lemma TimesMonotone(p: nat, i: nat, j: nat)
    requires i <= j
    ensures p * i <= p * j
  {
    assert p * j == p * i + p * (j - i);
  }

  lemma ShlNone(x: word)
    ensures Shl(x, 0) == x
  {
  }

  lemma OrOfDisjoint(x: nat, hi: word, lo: word, n: nat, p: nat)
    requires Pow2(n) == p && hi == x * p && lo < p
    ensures Or(hi, lo) == hi + lo
  {
    DisjointOrIsSum(x, lo, n);
  }

  /** Shifting four bytes into place and combining them reads them as one
      big-endian word. */
  lemma OrOfShiftedBytes(b0: byte, b1: byte, b2: byte, b3: byte)
    ensures Or(Or(Or(Shl(b0, 24), Shl(b1, 16)), Shl(b2, 8)), b3) == BigEndian(b0, b1, b2, b3)
  {
    hide Op32, Shl;
    Pow2Values();
    ShlIsProduct(b0, 24, 0x100_0000);
    ShlIsProduct(b1, 16, 0x1_0000);
    ShlIsProduct(b2, 8, 0x100);
    OrOfDisjoint(b0, b0 * 0x100_0000, b1 * 0x1_0000, 24, 0x100_0000);
    OrOfDisjoint(b0 * 0x100 + b1, b0 * 0x100_0000 + b1 * 0x1_0000, b2 * 0x100, 16, 0x1_0000);
    OrOfDisjoint(b0 * 0x1_0000 + b1 * 0x100 + b2, b0 * 0x100_0000 + b1 * 0x1_0000 + b2 * 0x100, b3, 8, 0x100);
  }
}
