/**
 Machine words as the proxy uses them: bytes, 32-bit words that wrap around, and the
 masks of `IntMask`.  A mask of n one bits is written `Low(v, n)`, the residue of v
 modulo 2 to the n.
 */
module Words {

  type Byte = b: int | 0 <= b < 0x100
  type Word = w: int | 0 <= w < 0x1_0000_0000

  datatype Option<+T> = None | Some(value: T)

  function Reversed<T>(s: seq<T>): (r: seq<T>)
    ensures |r| == |s| && forall i :: 0 <= i < |s| ==> r[i] == s[|s| - 1 - i]
  {
    seq(|s|, i requires 0 <= i < |s| => s[|s| - 1 - i])
  }

  lemma ReversedTwice<T>(s: seq<T>)
    ensures Reversed(Reversed(s)) == s
  {
  }

  /** 2 to the power n. */
  function Pow2(n: nat): (p: nat)
    ensures p > 0
  {
    if n == 0 then 1 else 2 * Pow2(n - 1)
  }

  /** v & IntMask[n]. */
  function Low(v: int, n: nat): (r: nat)
    ensures r < Pow2(n)
  {
    v % Pow2(n)
  }

  /** The 32-bit result of an unsigned subtraction. */
  function Minus(a: Word, b: Word): Word {
    (a - b) % 0x1_0000_0000
  }

  /** The 32-bit result of an unsigned addition. */
  function Plus(a: Word, b: Word): Word {
    (a + b) % 0x1_0000_0000
  }

  function LowByte(v: Word): (b: Byte)
    ensures v < 0x100 ==> b == v
  {
    v % 0x100
  }

  lemma PlusMinus(a: Word, b: Word)
    ensures Plus(a, Minus(b, a)) == b
  {
  }

  /** The n low bits of v, least significant first. */
  function BitsOf(v: nat, n: nat): (bs: seq<bool>)
    ensures |bs| == n
  {
    if n == 0 then [] else [v % 2 == 1] + BitsOf(v / 2, n - 1)
  }

  /** The number whose bits, least significant first, are bs. */
  function FromBits(bs: seq<bool>): nat {
    if bs == [] then 0 else (if bs[0] then 1 else 0) + 2 * FromBits(bs[1..])
  }

  lemma HalfModulo(v: nat, p: nat)
    requires p > 0
    ensures v % (2 * p) == v % 2 + 2 * (v / 2 % p)
  {
    var q := v / 2 / p;
    var r := v / 2 % p;
    assert v / 2 == p * q + r;
    assert v == 2 * (p * q + r) + v % 2;
    assert 2 * (p * q) == (2 * p) * q;
    UniqueModulo(v, 2 * p, q, 2 * r + v % 2);
  }

  lemma UniqueModulo(v: int, p: nat, q: int, r: int)
    requires v == p * q + r && 0 <= r < p
    ensures v % p == r
  {
    var d := v / p - q;
    assert v == p * (v / p) + v % p;
    assert p * (v / p) - p * q == p * d;
    assert p * d == r - v % p;
    if d >= 1 {
      MulMonotone(p, 1, d);
    } else if d <= -1 {
      MulMonotone(p, d, -1);
    }
  }

  lemma MulMonotone(p: nat, a: int, b: int)
    requires a <= b
    ensures p * a <= p * b
  {
    assert p * b - p * a == p * (b - a);
  }

  /** Writing a value as bits and reading the bits back is masking it. */
  lemma {:induction false} FromBitsOf(v: nat, n: nat)
    ensures FromBits(BitsOf(v, n)) == Low(v, n)
  {
    if n > 0 {
      FromBitsOf(v / 2, n - 1);
      HalfModulo(v, Pow2(n - 1));
    }
  }

  lemma HalfQuotient(v: nat, p: nat)
    requires p > 0
    ensures v / 2 / p == v / (2 * p)
  {
    var q, d := v / 2 / p, v / (2 * p);
    HalfModulo(v, p);
    assert v / 2 == p * q + v / 2 % p && v == (2 * p) * d + v % (2 * p);
    assert v == 2 * (p * q + v / 2 % p) + v % 2;
    assert 2 * (p * q) == (2 * p) * q;
    assert (2 * p) * q == (2 * p) * d;
    if q < d {
      MulMonotone(2 * p, q + 1, d);
    } else if d < q {
      MulMonotone(2 * p, d + 1, q);
    }
  }

  /** Bit i of a value counts 2 to the i. */
  lemma {:induction false} BitsOfAt(v: nat, n: nat, i: nat)
    requires i < n
    ensures BitsOf(v, n)[i] <==> v / Pow2(i) % 2 == 1
  {
    if i > 0 {
      BitsOfAt(v / 2, n - 1, i - 1);
      HalfQuotient(v, Pow2(i - 1));
    }
  }

  lemma LowIdentity(v: nat, n: nat)
    ensures Low(v, n) == v <==> v < Pow2(n)
  {
    if v < Pow2(n) {
      UniqueModulo(v, Pow2(n), 0, v);
    }
  }

  lemma LowLess(v: nat, n: nat)
    ensures Low(v, n) <= v
  {
    if v < Pow2(n) {
      UniqueModulo(v, Pow2(n), 0, v);
    }
  }

  lemma Pow2Constants()
    ensures Pow2(1) == 2 && Pow2(2) == 4 && Pow2(3) == 8 && Pow2(4) == 16 && Pow2(7) == 0x80 && Pow2(8) == 0x100
    ensures Pow2(13) == 0x2000 && Pow2(15) == 0x8000 && Pow2(16) == 0x1_0000 && Pow2(23) == 0x80_0000
    ensures Pow2(29) == 0x2000_0000 && Pow2(32) == 0x1_0000_0000
  {
    assert Pow2(8) == 0x100;
    assert Pow2(16) == 0x1_0000;
    assert Pow2(24) == 0x100_0000;
  }

  lemma {:induction false} Pow2Add(m: nat, n: nat)
    ensures Pow2(m + n) == Pow2(m) * Pow2(n)
  {
    if m > 0 {
      Pow2Add(m - 1, n);
      assert Pow2(m + n) == 2 * Pow2(m - 1 + n);
      assert 2 * (Pow2(m - 1) * Pow2(n)) == (2 * Pow2(m - 1)) * Pow2(n);
    }
  }

  /** Masking to n bits forgets a multiple of 2 to the n. */
  lemma LowForgets(v: int, k: int, n: nat)
    ensures Low(v + k * Pow2(n), n) == Low(v, n)
  {
    var p := Pow2(n);
    assert v == p * (v / p) + v % p;
    assert p * (v / p + k) == p * (v / p) + k * p;
    UniqueModulo(v + k * p, p, v / p + k, v % p);
  }

  /** A mask of at most 32 bits does not see the wrap-around of a 32-bit word. */
  lemma LowOfWrapped(v: int, n: nat)
    requires n <= 32
    ensures Low(v % 0x1_0000_0000, n) == Low(v, n)
  {
    Pow2Constants();
    Pow2Add(32 - n, n);
    var q := v / 0x1_0000_0000;
    assert v % 0x1_0000_0000 == v - q * 0x1_0000_0000;
    assert q * 0x1_0000_0000 == (q * Pow2(32 - n)) * Pow2(n);
    LowForgets(v, -(q * Pow2(32 - n)), n);
    assert (-(q * Pow2(32 - n))) * Pow2(n) == -((q * Pow2(32 - n)) * Pow2(n));
  }

  /** Adding the masked difference to the masked old value gives the masked new value. */
  lemma LowOfDifference(value: int, last: int, held: int, n: nat)
    requires Low(last, n) == Low(held, n)
    ensures Low(held + Low(value - last, n), n) == Low(value, n)
  {
    var p := Pow2(n);
    var x, y, z := (value - last) / p, last / p, held / p;
    assert value - last == p * x + Low(value - last, n);
    assert last == p * y + last % p;
    assert held == p * z + held % p;
    assert held + Low(value - last, n) == value + (z - y - x) * p by {
      assert (z - y - x) * p == p * z - p * y - p * x;
    }
    LowForgets(value, z - y - x, n);
  }

  /** Masked words have the masked difference of the words. */
  lemma LowOfLows(v: int, last: int, n: nat)
    ensures Low(Low(v, n) - Low(last, n), n) == Low(v - last, n)
  {
    var p := Pow2(n);
    var x, y := v / p, last / p;
    assert Low(v, n) - Low(last, n) == v - last + (y - x) * p by {
      assert v == p * x + Low(v, n) && last == p * y + Low(last, n);
      assert (y - x) * p == p * y - p * x;
    }
    LowForgets(v - last, y - x, n);
  }

  /** Words equal under a mask stay equal when both grow by k. */
  lemma LowShifted(x: int, y: int, k: int, n: nat)
    requires Low(x, n) == Low(y, n)
    ensures Low(x + k, n) == Low(y + k, n)
  {
    var p := Pow2(n);
    assert x == p * (x / p) + Low(x, n) && y == p * (y / p) + Low(y, n);
    assert (x / p - y / p) * p == p * (x / p) - p * (y / p);
    assert x + k == y + k + (x / p - y / p) * p;
    LowForgets(y + k, x / p - y / p, n);
  }
}
