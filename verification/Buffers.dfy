/**
 Fields of a request buffer: GetUINT, GetULONG, PutUINT and PutULONG of nxcomp/src/Misc.cpp,
 in the byte order of the client.
 */
module Buffers {
  import opened Words

  type Bytes = seq<Byte>

  function LittleValue(s: Bytes): nat {
    if s == [] then 0 else s[0] + 0x100 * LittleValue(s[1..])
  }

  function LittleBytes(v: nat, n: nat): (s: Bytes)
    ensures |s| == n
  {
    if n == 0 then [] else [v % 0x100] + LittleBytes(v / 0x100, n - 1)
  }

  /** The number stored in s. */
  function ValueOf(bigEndian: bool, s: Bytes): nat {
    LittleValue(if bigEndian then Reversed(s) else s)
  }

  /** The n bytes that store v, or what of it fits. */
  function BytesOf(bigEndian: bool, v: nat, n: nat): (s: Bytes)
    ensures |s| == n
  {
    if bigEndian then Reversed(LittleBytes(v, n)) else LittleBytes(v, n)
  }

  lemma {:induction false} LittleRoundTrip(v: nat, n: nat)
    ensures LittleValue(LittleBytes(v, n)) == Low(v, 8 * n)
  {
    if n > 0 {
      LittleRoundTrip(v / 0x100, n - 1);
      ByteModulo(v, Pow2(8 * (n - 1)));
      assert Pow2(8 * n) == 0x100 * Pow2(8 * (n - 1)) by {
        Pow2Add(8, 8 * (n - 1));
        Pow2Constants();
      }
    }
  }

  lemma ByteModulo(v: nat, p: nat)
    requires p > 0
    ensures v % (0x100 * p) == v % 0x100 + 0x100 * (v / 0x100 % p)
  {
    var q := v / 0x100 / p;
    var r := v / 0x100 % p;
    assert v / 0x100 == p * q + r;
    assert 0x100 * (p * q) == (0x100 * p) * q;
    UniqueModulo(v, 0x100 * p, q, 0x100 * r + v % 0x100);
  }

  lemma {:induction false} LittleInverse(s: Bytes)
    ensures LittleBytes(LittleValue(s), |s|) == s
  {
    if s != [] {
      LittleInverse(s[1..]);
    }
  }

  lemma {:induction false} LittleBound(s: Bytes)
    ensures LittleValue(s) < Pow2(8 * |s|)
  {
    if s != [] {
      LittleBound(s[1..]);
      Pow2Add(8, 8 * |s[1..]|);
      Pow2Constants();
    }
  }

  /** Storing a number and loading it gives the number back, up to the room there is. */
  lemma ValueOfBytes(bigEndian: bool, v: nat, n: nat)
    ensures ValueOf(bigEndian, BytesOf(bigEndian, v, n)) == Low(v, 8 * n)
  {
    LittleRoundTrip(v, n);
    ReversedTwice(LittleBytes(v, n));
  }

  /** Loading a number and storing it gives the bytes back. */
  lemma BytesOfValue(bigEndian: bool, s: Bytes)
    ensures BytesOf(bigEndian, ValueOf(bigEndian, s), |s|) == s
  {
    LittleInverse(if bigEndian then Reversed(s) else s);
    ReversedTwice(s);
  }

  lemma ValueOfBound(bigEndian: bool, s: Bytes, n: nat)
    requires |s| <= n
    ensures ValueOf(bigEndian, s) < Pow2(8 * n)
  {
    LittleBound(if bigEndian then Reversed(s) else s);
    Pow2Add(8 * |s|, 8 * (n - |s|));
    MulMonotone(Pow2(8 * |s|), 1, Pow2(8 * (n - |s|)));
  }

  /** A field of a buffer: where it starts and how many bytes it takes. */
  datatype Field = Field(offset: nat, width: nat) {
    function End(): nat {
      offset + width
    }
  }

  ghost predicate Disjoint(f: Field, g: Field) {
    f.End() <= g.offset || g.End() <= f.offset
  }

  /** The number in field f of buffer m. */
  function Get(bigEndian: bool, m: Bytes, f: Field): (v: Word)
    requires f.End() <= |m| && f.width <= 4
  {
    ValueOfBound(bigEndian, m[f.offset..f.End()], 4);
    Pow2Constants();
    ValueOf(bigEndian, m[f.offset..f.End()])
  }

  /** The number in two bytes, written out. */
  function TwoBytes(bigEndian: bool, m: Bytes, i: nat): (n: nat)
    requires i + 2 <= |m|
    ensures n < 0x1_0000
  {
    var first: nat, second: nat := m[i], m[i + 1];
    if bigEndian then 0x100 * first + second else first + 0x100 * second
  }

  function FourBytes(bigEndian: bool, m: Bytes, i: nat): Word
    requires i + 4 <= |m|
  {
    if bigEndian then 0x1_0000 * TwoBytes(true, m, i) + TwoBytes(true, m, i + 2)
    else TwoBytes(false, m, i) + 0x1_0000 * TwoBytes(false, m, i + 2)
  }

  /** Fields of one, two and four bytes, in numbers. */
  lemma GetIs(bigEndian: bool, m: Bytes, i: nat)
    ensures i + 1 <= |m| ==> Get(bigEndian, m, Field(i, 1)) == m[i]
    ensures i + 2 <= |m| ==> Get(bigEndian, m, Field(i, 2)) == TwoBytes(bigEndian, m, i)
    ensures i + 4 <= |m| ==> Get(bigEndian, m, Field(i, 4)) == FourBytes(bigEndian, m, i)
  {
    if i + 1 <= |m| {
      ShortValues(m[i..i + 1]);
      ShortValues(Reversed(m[i..i + 1]));
    }
    if i + 2 <= |m| {
      ShortValues(m[i..i + 2]);
      ShortValues(Reversed(m[i..i + 2]));
    }
    if i + 4 <= |m| {
      ShortValues(m[i..i + 4]);
      ShortValues(Reversed(m[i..i + 4]));
    }
  }

  lemma ShortValues(s: Bytes)
    ensures |s| == 1 ==> LittleValue(s) == s[0]
    ensures |s| == 2 ==> LittleValue(s) == TwoBytes(false, s, 0)
    ensures |s| == 4 ==> LittleValue(s) == FourBytes(false, s, 0)
  {
    if |s| == 2 {
      assert LittleValue(s[1..]) == s[1];
    }
    if |s| == 4 {
      assert s[1..][1..] == s[2..];
      assert LittleValue(s[2..]) == s[2] + 0x100 * LittleValue(s[2..][1..]);
      assert LittleValue(s[2..][1..]) == s[3];
    }
  }

  function Put(bigEndian: bool, m: Bytes, f: Field, v: Word): (r: Bytes)
    requires f.End() <= |m|
    ensures |r| == |m|
    ensures r[f.offset..f.End()] == BytesOf(bigEndian, v, f.width)
    ensures forall i :: 0 <= i < |m| && !(f.offset <= i < f.End()) ==> r[i] == m[i]
  {
    m[..f.offset] + BytesOf(bigEndian, v, f.width) + m[f.End()..]
  }

  lemma GetPut(bigEndian: bool, m: Bytes, f: Field, v: Word)
    requires f.End() <= |m| && f.width <= 4
    ensures Get(bigEndian, Put(bigEndian, m, f, v), f) == Low(v, 8 * f.width)
  {
    ValueOfBytes(bigEndian, v, f.width);
  }

  lemma GetPutOther(bigEndian: bool, m: Bytes, f: Field, v: Word, g: Field)
    requires f.End() <= |m| && g.End() <= |m| && g.width <= 4 && Disjoint(f, g)
    ensures Get(bigEndian, Put(bigEndian, m, f, v), g) == Get(bigEndian, m, g)
  {
    assert Put(bigEndian, m, f, v)[g.offset..g.End()] == m[g.offset..g.End()];
  }

  /** All the fields lie in the first n bytes and have a width the proxy can load. */
  ghost predicate Within(fields: seq<Field>, n: nat) {
    forall i :: 0 <= i < |fields| ==> fields[i].End() <= n && 1 <= fields[i].width <= 4
  }

  ghost predicate PairwiseDisjoint(fields: seq<Field>) {
    forall i, j :: 0 <= i < j < |fields| ==> Disjoint(fields[i], fields[j])
  }

  function GetAll(bigEndian: bool, m: Bytes, fields: seq<Field>): (vs: seq<Word>)
    requires Within(fields, |m|)
    ensures |vs| == |fields|
    ensures forall i :: 0 <= i < |fields| ==> vs[i] == Get(bigEndian, m, fields[i])
  {
    seq(|fields|, i requires 0 <= i < |fields| => Get(bigEndian, m, fields[i]))
  }

  function PutAll(bigEndian: bool, m: Bytes, fields: seq<Field>, values: seq<Word>): (r: Bytes)
    requires Within(fields, |m|) && |values| == |fields|
    ensures |r| == |m|
    decreases |fields|
  {
    if fields == [] then m
    else PutAll(bigEndian, Put(bigEndian, m, fields[0], values[0]), fields[1..], values[1..])
  }

  /** A field that no write touches keeps its value. */
  lemma {:induction false} PutAllOther(bigEndian: bool, m: Bytes, fields: seq<Field>, values: seq<Word>, g: Field)
    requires Within(fields, |m|) && |values| == |fields|
    requires g.End() <= |m| && g.width <= 4
    requires forall i :: 0 <= i < |fields| ==> Disjoint(fields[i], g)
    ensures Get(bigEndian, PutAll(bigEndian, m, fields, values), g) == Get(bigEndian, m, g)
    decreases |fields|
  {
    if fields != [] {
      GetPutOther(bigEndian, m, fields[0], values[0], g);
      PutAllOther(bigEndian, Put(bigEndian, m, fields[0], values[0]), fields[1..], values[1..], g);
    }
  }

  /** Writing disjoint fields and reading them back. */
  lemma {:induction false} GetPutAll(bigEndian: bool, m: Bytes, fields: seq<Field>, values: seq<Word>, i: nat)
    requires Within(fields, |m|) && PairwiseDisjoint(fields) && |values| == |fields|
    requires i < |fields|
    ensures Get(bigEndian, PutAll(bigEndian, m, fields, values), fields[i]) == Low(values[i], 8 * fields[i].width)
    decreases |fields|
  {
    var m' := Put(bigEndian, m, fields[0], values[0]);
    if i == 0 {
      GetPut(bigEndian, m, fields[0], values[0]);
      PutAllOther(bigEndian, m', fields[1..], values[1..], fields[0]);
    } else {
      GetPutAll(bigEndian, m', fields[1..], values[1..], i - 1);
    }
  }

}
