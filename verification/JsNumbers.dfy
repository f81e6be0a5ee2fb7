/** The conversions and bitwise operators of ECMAScript on integral numbers:
    operands are taken modulo 2^32, results are signed, except for the unsigned
    right shift. Each is stated as the word operation it amounts to. */
module JsNumbers {
  import opened Words

  type int32 = x: int | -0x8000_0000 <= x < 0x8000_0000

  /** Number.MAX_SAFE_INTEGER: up to here every integer is a distinct Number. */
  const MAX_SAFE: int := 0x1F_FFFF_FFFF_FFFF

  function ToUint32(n: int): (r: word)
    ensures 0 <= n < TWO32 ==> r == n
  {
    Mod32(n)
  }

  /** Also what n | 0 gives, and what storing n in an Int32Array keeps. */
  function ToInt32(n: int): (r: int32)
    ensures ToUint32(r) == ToUint32(n)
  {
    var m := n % TWO32;
    if m < 0x8000_0000 then m else m - TWO32
  }

  function BitAnd(x: int, y: int): (r: int32)
    ensures ToUint32(r) == And(ToUint32(x), ToUint32(y))
  {
    ToInt32(And(ToUint32(x), ToUint32(y)))
  }

  function BitOr(x: int, y: int): (r: int32)
    ensures ToUint32(r) == Or(ToUint32(x), ToUint32(y))
  {
    ToInt32(Or(ToUint32(x), ToUint32(y)))
  }

  function BitXor(x: int, y: int): (r: int32)
    ensures ToUint32(r) == Xor(ToUint32(x), ToUint32(y))
  {
    ToInt32(Xor(ToUint32(x), ToUint32(y)))
  }

  function BitNot(x: int): (r: int32)
    ensures ToUint32(r) == Not(ToUint32(x))
  {
    -1 - ToInt32(x)
  }

  /** x << n */
  function ShiftLeft(x: int, n: nat): (r: int32)
    requires n < 32
    ensures ToUint32(r) == Shl(ToUint32(x), n)
  {
    ToInt32(Shl(ToUint32(x), n))
  }

  /** x >>> n */
  function ShiftRight(x: int, n: nat): (r: int)
    requires n < 32
    ensures r == ToUint32(x) / Pow2(n) && ToUint32(r) == Shr(ToUint32(x), n)
  {
    ShrIsQuotient(ToUint32(x), n);
    Shr(ToUint32(x), n)
  }

  /** Numbers that differ by a multiple of 2^32. */
  lemma MultiplesVanish(n: int, q: int)
    ensures Mod32(n + q * TWO32) == Mod32(n)
  {
  }

  /** A sum modulo 2^32 depends on its terms modulo 2^32 only, so words add up
      the same whether they are taken as signed or unsigned, reduced or not. */
  lemma SumOf2(a: int, b: int, x: int, y: int)
    requires Mod32(a) == Mod32(x) && Mod32(b) == Mod32(y)
    ensures Mod32(a + b) == Mod32(x + y)
  {
    var p, q := a / TWO32 - x / TWO32, b / TWO32 - y / TWO32;
    assert a == x + p * TWO32;
    assert b == y + q * TWO32;
    MultiplesVanish(x + y, p + q);
  }

  lemma SumOfWords(a: int, b: int)
    ensures ToUint32(a + b) == Mod32(ToUint32(a) + ToUint32(b))
  {
    SumOf2(a, b, ToUint32(a), ToUint32(b));
  }
}
