/**
 Blocks of bytes of any length: nxcomp/src/BlockCache.cpp, and the sets of them of
 nxcomp/src/BlockCacheSet.cpp.
 */
module BlockCache {
  import opened Words
  import opened Buffers

  // ----- The checksum of a block -----

  /** The sum of the bytes, each shifted by its place modulo 8, without wrap-around. */
  function ShiftedSum(d: Bytes, shift: nat): nat
    requires shift < 8
  {
    if d == [] then 0 else d[0] * Pow2(shift) + ShiftedSum(d[1..], (shift + 1) % 8)
  }

  /** The 32-bit checksum. */
  function BlockSum(d: Bytes): Word {
    ShiftedSum(d, 0) % 0x1_0000_0000
  }

  /** The largest sum of n bytes. */
  function SumBound(n: nat, shift: nat): nat
    requires shift < 8
  {
    if n == 0 then 0 else 255 * Pow2(shift) + SumBound(n - 1, (shift + 1) % 8)
  }

  lemma {:induction false} SumWithin(d: Bytes, shift: nat)
    requires shift < 8
    ensures ShiftedSum(d, shift) <= SumBound(|d|, shift)
  {
    if d != [] {
      SumWithin(d[1..], (shift + 1) % 8);
      MulMonotone(Pow2(shift), d[0], 255);
    }
  }

  lemma {:induction false} SumOfOnes(n: nat, shift: nat)
    requires shift < 8
    ensures ShiftedSum(Ones(n), shift) == SumBound(n, shift)
  {
    if n > 0 {
      assert Ones(n)[1..] == Ones(n - 1);
      SumOfOnes(n - 1, (shift + 1) % 8);
    }
  }

  /** Eight bytes add 255 times 255 at most. */
  lemma EightBytes(n: nat)
    ensures SumBound(n + 8, 0) == 65025 + SumBound(n, 0)
  {
    Pow2Constants();
    assert Pow2(5) == 32 && Pow2(6) == 64;
    var a := SumBound(n + 8, 0);
    assert a == 255 + SumBound(n + 7, 1);
    assert SumBound(n + 7, 1) == 510 + SumBound(n + 6, 2);
    assert SumBound(n + 6, 2) == 1020 + SumBound(n + 5, 3);
    assert SumBound(n + 5, 3) == 2040 + SumBound(n + 4, 4);
    assert SumBound(n + 4, 4) == 4080 + SumBound(n + 3, 5);
    assert SumBound(n + 3, 5) == 8160 + SumBound(n + 2, 6);
    assert SumBound(n + 2, 6) == 16320 + SumBound(n + 1, 7);
    assert SumBound(n + 1, 7) == 32640 + SumBound(n, 0);
  }

  lemma {:induction false} Eights(q: nat, r: nat)
    ensures SumBound(8 * q + r, 0) == 65025 * q + SumBound(r, 0)
  {
    if q > 0 {
      Eights(q - 1, r);
      EightBytes(8 * (q - 1) + r);
      assert 8 * (q - 1) + r + 8 == 8 * q + r;
    }
  }

  lemma {:induction false} BoundGrows(m: nat, n: nat, shift: nat)
    requires m <= n && shift < 8
    ensures SumBound(m, shift) <= SumBound(n, shift)
  {
    if m > 0 {
      BoundGrows(m - 1, n - 1, (shift + 1) % 8);
    }
  }

  /** The longest block whose checksum cannot wrap around. */
  const EXACT_LENGTH: nat := 528410

  lemma SmallBounds()
    ensures SumBound(2, 0) == 765 && SumBound(3, 0) == 1785
  {
    Pow2Constants();
    assert SumBound(1, 1) == 510 && SumBound(2, 0) == 765;
    assert SumBound(1, 2) == 1020 && SumBound(2, 1) == 1530;
  }

  lemma ExactEights(q: nat)
    requires q == 66051
    ensures SumBound(8 * q + 2, 0) < 0x1_0000_0000 <= SumBound(8 * q + 3, 0)
  {
    Eights(q, 2);
    Eights(q, 3);
    SmallBounds();
  }

  lemma ExactBound(n: nat)
    requires n == EXACT_LENGTH
    ensures SumBound(n, 0) < 0x1_0000_0000 <= SumBound(n + 1, 0)
  {
    var q := n / 8;
    ExactEights(q);
    assert 8 * q + 2 == n && 8 * q + 3 == n + 1;
  }

  lemma WithinBound(d: Bytes, longest: nat)
    requires SumBound(longest, 0) < 0x1_0000_0000 && |d| <= longest
    ensures BlockSum(d) == ShiftedSum(d, 0)
  {
    BoundGrows(|d|, longest, 0);
    SumWithin(d, 0);
  }

  lemma ExactBelow(d: Bytes, longest: nat)
    requires longest == EXACT_LENGTH && |d| <= longest
    ensures BlockSum(d) == ShiftedSum(d, 0)
  {
    ExactBound(longest);
    WithinBound(d, longest);
  }

  function Ones(n: nat): (d: Bytes)
    ensures |d| == n
  {
    seq(n, _ => 255)
  }

  lemma WrapsAbove(n: nat, longest: nat)
    requires longest == EXACT_LENGTH < n
    ensures BlockSum(Ones(n)) != ShiftedSum(Ones(n), 0)
  {
    ExactBound(longest);
    BeyondBound(n, longest + 1);
  }

  lemma BeyondBound(n: nat, shortest: nat)
    requires SumBound(shortest, 0) >= 0x1_0000_0000 && shortest <= n
    ensures BlockSum(Ones(n)) != ShiftedSum(Ones(n), 0)
  {
    BoundGrows(shortest, n, 0);
    SumOfOnes(n, 0);
  }

  /** The checksum is the exact sum for every block of a length if and only if the length is at
      most EXACT_LENGTH. */
  lemma ChecksumExact(n: nat)
    ensures (forall d: Bytes :: |d| == n ==> BlockSum(d) == ShiftedSum(d, 0)) <==> n <= EXACT_LENGTH
  {
    if n <= EXACT_LENGTH {
      forall d: Bytes | |d| == n ensures BlockSum(d) == ShiftedSum(d, 0) {
        ExactBelow(d, EXACT_LENGTH);
      }
    } else {
      WrapsAbove(n, EXACT_LENGTH);
    }
  }

  lemma PlaceModulo(shift: nat, n: nat)
    ensures ((shift + 1) % 8 + n) % 8 == (shift + n + 1) % 8
  {
  }

  lemma {:induction false} SumAppend(d: Bytes, b: Byte, shift: nat)
    requires shift < 8
    ensures ShiftedSum(d + [b], shift) == ShiftedSum(d, shift) + b * Pow2((shift + |d|) % 8)
  {
    if d == [] {
      assert ([b])[1..] == [];
    } else {
      assert (d + [b])[1..] == d[1..] + [b];
      SumAppend(d[1..], b, (shift + 1) % 8);
      PlaceModulo(shift, |d[1..]|);
    }
  }

  /** The loop of checksum, in 32-bit arithmetic. */
  method ChecksumOf(d: Bytes) returns (sum: Word)
    ensures sum == BlockSum(d)
  {
    sum := 0;
    var shift, i := 0, 0;
    while i < |d|
      invariant i <= |d| && shift == i % 8
      invariant sum == ShiftedSum(d[..i], 0) % 0x1_0000_0000
    {
      SumAppend(d[..i], d[i], 0);
      assert d[..i + 1] == d[..i] + [d[i]];
      sum := Wrapped(sum, d[i] * Pow2(shift), ShiftedSum(d[..i], 0));
      shift := if shift == 7 then 0 else shift + 1;
      i := i + 1;
    }
    assert d[..i] == d;
  }

  /** One addition that wraps around. */
  function Wrapped(sum: Word, more: nat, ghost exact: nat): (r: Word)
    requires sum == exact % 0x1_0000_0000
    ensures r == (exact + more) % 0x1_0000_0000
  {
    (sum + more) % 0x1_0000_0000
  }

  // ----- One block -----

  class BlockCache {
    var buffer: array<Byte>
    var size: nat
    var checksum: Word

    ghost predicate Valid()
      reads this, buffer
    {
      size <= buffer.Length && checksum == BlockSum(buffer[..size])
    }

    ghost function Contents(): Bytes
      reads this, buffer
    {
      if size <= buffer.Length then buffer[..size] else []
    }

    constructor ()
      ensures Valid() && Contents() == [] && fresh(buffer)
    {
      buffer := new Byte[0];
      size, checksum := 0, 0;
    }

    /** The comparison of compare, without its side effect. */
    method Matches(data: Bytes) returns (found: bool)
      requires Valid()
      ensures found <==> Contents() == data
    {
      if |data| != size {
        return false;
      }
      var i := 0;
      while i < size
        invariant i <= size && data[..i] == buffer[..i]
      {
        if data[i] != buffer[i] {
          assert Contents()[i] != data[i];
          return false;
        }
        assert data[..i + 1] == data[..i] + [data[i]];
        assert buffer[..i + 1] == buffer[..i] + [buffer[i]];
        i := i + 1;
      }
      return true;
    }

    /** compare. */
    method Compare(data: Bytes, overwrite: bool) returns (found: bool)
      requires Valid()
      modifies this, buffer
      ensures Valid() && (buffer == old(buffer) || fresh(buffer))
      ensures found <==> old(Contents()) == data
      ensures Contents() == if overwrite then data else old(Contents())
    {
      found := Matches(data);
      if !found && overwrite {
        Set(data);
      }
    }

    /** set: a buffer that is large enough is used again. */
    method Set(data: Bytes)
      requires Valid()
      modifies this, buffer
      ensures Valid() && Contents() == data && (buffer == old(buffer) || fresh(buffer))
    {
      if size < |data| {
        buffer := new Byte[|data|];
      }
      size := |data|;
      var i := 0;
      while i < |data|
        modifies buffer
        invariant i <= |data| <= buffer.Length && buffer[..i] == data[..i]
      {
        buffer[i] := data[i];
        assert data[..i + 1] == data[..i] + [data[i]];
        i := i + 1;
      }
      assert buffer[..size] == data;
      checksum := ChecksumOf(data);
    }
  }
}
