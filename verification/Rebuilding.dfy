/**
 Requests as the decoding side writes them: the identity fields, the opcode and the length go
 into a buffer that holds whatever was there before, and the data part follows.
 */
module Rebuilding {
  import opened Words
  import opened Buffers
  import opened Tokens
  import opened Messages

  /** The identity part, written over the bytes of `blank`. */
  function Head(layout: seq<Field>, opcode: Byte, bigEndian: bool, blank: Bytes, identity: seq<Word>, size: nat): (h: Bytes)
    requires Apart(layout, |blank|) && |identity| == |layout|
    ensures |h| == |blank|
  {
    var h := PutAll(bigEndian, blank, layout, identity);
    Put(bigEndian, h[0 := opcode], LENGTH_FIELD, size / 4 % 0x1_0000)
  }

  function Request(c: MessageClass, bigEndian: bool, blank: Bytes, identity: seq<Word>, data: Bytes): (r: Bytes)
    requires c.SoundLayout() && |blank| == c.identitySize && |identity| == |c.layout|
    ensures |r| == c.identitySize + |data|
  {
    Head(c.layout, c.opcode, bigEndian, blank, identity, c.identitySize + |data|) + data
  }

  /** The identity part does not depend on the bytes of the data part. */
  lemma RequestFront(c: MessageClass, bigEndian: bool, blank: Bytes, identity: seq<Word>, d: Bytes, e: Bytes)
    requires c.SoundLayout() && |blank| == c.identitySize && |identity| == |c.layout| && |d| == |e|
    ensures Request(c, bigEndian, blank, identity, d)[..c.identitySize] ==
            Request(c, bigEndian, blank, identity, e)[..c.identitySize]
  {
    var h := Head(c.layout, c.opcode, bigEndian, blank, identity, c.identitySize + |d|);
    assert (h + d)[..c.identitySize] == h && (h + e)[..c.identitySize] == h;
  }

  // ----- Reading the fields back -----

  lemma HeadField(layout: seq<Field>, opcode: Byte, bigEndian: bool, blank: Bytes, identity: seq<Word>, size: nat, j: nat)
    requires Apart(layout, |blank|) && |identity| == |layout| && j < |layout|
    requires identity[j] < Pow2(8 * layout[j].width)
    requires layout[j] == LENGTH_FIELD ==> identity[j] == size / 4
    ensures Get(bigEndian, Head(layout, opcode, bigEndian, blank, identity, size), layout[j]) == identity[j]
  {
    var h := PutAll(bigEndian, blank, layout, identity);
    GetPutAll(bigEndian, blank, layout, identity, j);
    LowIdentity(identity[j], 8 * layout[j].width);
    GetBehindFirst(bigEndian, h, layout[j], opcode);
    if layout[j] == LENGTH_FIELD {
      assert size / 4 < 0x1_0000 by { Pow2Constants(); }
    }
    LengthWritten(bigEndian, h[0 := opcode], size / 4 % 0x1_0000, layout[j]);
  }

  lemma GetBehindFirst(bigEndian: bool, m: Bytes, f: Field, b: Byte)
    requires 1 <= f.offset && f.End() <= |m| && 1 <= f.width <= 4
    ensures Get(bigEndian, m[0 := b], f) == Get(bigEndian, m, f)
  {
    assert m[0 := b][f.offset..f.End()] == m[f.offset..f.End()];
  }

  lemma LengthWritten(bigEndian: bool, h: Bytes, v: Word, f: Field)
    requires LENGTH_FIELD.End() <= |h| && f.End() <= |h| && f.width <= 4
    requires f == LENGTH_FIELD || Disjoint(LENGTH_FIELD, f)
    ensures Get(bigEndian, Put(bigEndian, h, LENGTH_FIELD, v), f) ==
            if f == LENGTH_FIELD then v % 0x1_0000 else Get(bigEndian, h, f)
  {
    if f == LENGTH_FIELD {
      Pow2Constants();
      GetPut(bigEndian, h, LENGTH_FIELD, v);
    } else {
      GetPutOther(bigEndian, h, LENGTH_FIELD, v, f);
    }
  }

  lemma HeadHeader(layout: seq<Field>, opcode: Byte, bigEndian: bool, blank: Bytes, identity: seq<Word>, size: nat)
    requires Apart(layout, |blank|) && |identity| == |layout| && size / 4 < 0x1_0000
    ensures var h := Head(layout, opcode, bigEndian, blank, identity, size);
            h[0] == opcode && Get(bigEndian, h, LENGTH_FIELD) == size / 4
  {
    var h := PutAll(bigEndian, blank, layout, identity)[0 := opcode];
    LengthWritten(bigEndian, h, size / 4, LENGTH_FIELD);
  }

  /** Writing the fields of a buffer over themselves changes nothing. */
  lemma HeadIdle(layout: seq<Field>, opcode: Byte, bigEndian: bool, blank: Bytes, identity: seq<Word>, size: nat)
    requires Apart(layout, |blank|) && identity == GetAll(bigEndian, blank, layout)
    requires blank[0] == opcode && Get(bigEndian, blank, LENGTH_FIELD) == size / 4 < 0x1_0000
    ensures Head(layout, opcode, bigEndian, blank, identity, size) == blank
  {
    PutAllIdle(bigEndian, blank, layout, identity);
    PutIdle(bigEndian, blank, LENGTH_FIELD);
  }

  lemma PutIdle(bigEndian: bool, m: Bytes, f: Field)
    requires f.End() <= |m| && f.width <= 4
    ensures Put(bigEndian, m, f, Get(bigEndian, m, f)) == m
  {
    BytesOfGet(bigEndian, m, f);
  }

  lemma {:induction false} PutAllIdle(bigEndian: bool, m: Bytes, fields: seq<Field>, values: seq<Word>)
    requires Within(fields, |m|) && |values| == |fields|
    requires forall j :: 0 <= j < |fields| ==> Get(bigEndian, m, fields[j]) == values[j]
    ensures PutAll(bigEndian, m, fields, values) == m
    decreases |fields|
  {
    if fields != [] {
      PutIdle(bigEndian, m, fields[0]);
      PutAllIdle(bigEndian, m, fields[1..], values[1..]);
    }
  }

  // ----- Requests rebuilt from what arrived -----

  lemma LengthTold(c: MessageClass, bigEndian: bool, m: Bytes)
    requires WellFormed(c, bigEndian, m)
    ensures Get(bigEndian, m, LENGTH_FIELD) == |m| / 4 < 0x1_0000
    ensures Get(bigEndian, m[..c.identitySize], LENGTH_FIELD) == |m| / 4
  {
    GetInFront(bigEndian, m, m[..c.identitySize], c.identitySize, LENGTH_FIELD);
    GetBound(bigEndian, m, LENGTH_FIELD);
    Pow2Constants();
  }

  /** What arrives of a request fits into its fields, and a length that is sent arrives. */
  lemma DeliveredFits(c: MessageClass, bigEndian: bool, m: Bytes, j: nat)
    requires c.Sound() && WellFormed(c, bigEndian, m) && j < |c.layout|
    ensures DeliveredIdentity(c, bigEndian, m)[j] < Pow2(8 * c.layout[j].width)
    ensures c.layout[j] == LENGTH_FIELD ==> DeliveredIdentity(c, bigEndian, m)[j] == |m| / 4
  {
    DeliveredLess(c.codecs[j], Fields(c, bigEndian, m)[j]);
    FieldsStorable(c, bigEndian, m);
    if c.layout[j] == LENGTH_FIELD {
      LengthTold(c, bigEndian, m);
    }
  }

  /** A request rebuilt from what arrived of the identity of m. */
  ghost predicate Rebuilds(c: MessageClass, bigEndian: bool, m: Bytes, out: Bytes, blank: Bytes, data: Bytes) {
    && WellFormed(c, bigEndian, m)
    && |blank| == c.identitySize
    && |data| == |m| - c.identitySize
    && out == Request(c, bigEndian, blank, DeliveredIdentity(c, bigEndian, m), data)
  }

  lemma RebuiltFields(c: MessageClass, bigEndian: bool, m: Bytes, out: Bytes, blank: Bytes, data: Bytes)
    requires c.Sound() && Rebuilds(c, bigEndian, m, out, blank, data)
    ensures Fields(c, bigEndian, out) == DeliveredIdentity(c, bigEndian, m)
  {
    var identity, n := DeliveredIdentity(c, bigEndian, m), c.identitySize;
    var h := Head(c.layout, c.opcode, bigEndian, blank, identity, |m|);
    assert out[..n] == h;
    forall j | 0 <= j < |c.layout| ensures Fields(c, bigEndian, out)[j] == identity[j] {
      DeliveredFits(c, bigEndian, m, j);
      HeadField(c.layout, c.opcode, bigEndian, blank, identity, |m|, j);
      GetInFront(bigEndian, out, h, n, c.layout[j]);
    }
  }

  lemma RebuiltHeader(c: MessageClass, bigEndian: bool, m: Bytes, out: Bytes, blank: Bytes, data: Bytes)
    requires Rebuilds(c, bigEndian, m, out, blank, data)
    ensures out[0] == c.opcode && Get(bigEndian, out, LENGTH_FIELD) == |m| / 4
  {
    LengthTold(c, bigEndian, m);
    var identity, n := DeliveredIdentity(c, bigEndian, m), c.identitySize;
    HeadHeader(c.layout, c.opcode, bigEndian, blank, identity, |m|);
    var h := Head(c.layout, c.opcode, bigEndian, blank, identity, |m|);
    assert out[..n] == h;
    GetInFront(bigEndian, out, h, n, LENGTH_FIELD);
  }

  lemma RebuiltWellFormed(c: MessageClass, bigEndian: bool, m: Bytes, out: Bytes, blank: Bytes, data: Bytes)
    requires c.Sound() && Rebuilds(c, bigEndian, m, out, blank, data)
    ensures WellFormed(c, bigEndian, out)
    ensures TailOf(c, bigEndian, out) == TailOf(c, bigEndian, m)
    ensures DeliveredIdentity(c, bigEndian, out) == DeliveredIdentity(c, bigEndian, m)
  {
    RebuiltFields(c, bigEndian, m, out, blank, data);
    DeliverAllTwice(c.codecs, Fields(c, bigEndian, m));
    assert TailOf(c, bigEndian, out) == TailOf(c, bigEndian, m) && c.accepts(Fields(c, bigEndian, out)) by {
      SameTail(c, bigEndian, m);
    }
    RebuiltHeader(c, bigEndian, m, out, blank, data);
    WellFormedLike(c, bigEndian, m, out);
  }

  lemma WellFormedLike(c: MessageClass, bigEndian: bool, m: Bytes, out: Bytes)
    requires WellFormed(c, bigEndian, m) && |out| == |m|
    requires out[0] == c.opcode && Get(bigEndian, out, LENGTH_FIELD) == |m| / 4
    requires c.accepts(Fields(c, bigEndian, out)) && TailOf(c, bigEndian, out) == TailOf(c, bigEndian, m)
    ensures WellFormed(c, bigEndian, out)
  {
  }

  /** The body of the data part is the one that was sent; what pads it may be anything. */
  ghost predicate SameBody(c: MessageClass, bigEndian: bool, m: Bytes, data: Bytes)
    requires WellFormed(c, bigEndian, m)
  {
    var body := DeliveredBody(c, bigEndian, m);
    |data| == |m| - c.identitySize && data[..|body|] == body
  }

  /** Parsed by the decoding side, a rebuilt request has the data part of the original. */
  lemma RebuiltData(c: MessageClass, bigEndian: bool, m: Bytes, out: Bytes, blank: Bytes, data: Bytes)
    requires c.Sound() && Rebuilds(c, bigEndian, m, out, blank, data) && SameBody(c, bigEndian, m, data)
    ensures WellFormed(c, bigEndian, out) && Data(c, bigEndian, out) == Data(c, bigEndian, m)
  {
    RebuiltWellFormed(c, bigEndian, m, out, blank, data);
    assert out[c.identitySize..] == data;
    BodyRead(c, bigEndian, m, out);
  }

  lemma BodyRead(c: MessageClass, bigEndian: bool, m: Bytes, out: Bytes)
    requires WellFormed(c, bigEndian, m) && WellFormed(c, bigEndian, out) && |out| == |m|
    requires TailOf(c, bigEndian, out) == TailOf(c, bigEndian, m)
    requires SameBody(c, bigEndian, m, out[c.identitySize..])
    ensures DeliveredBody(c, bigEndian, out) == DeliveredBody(c, bigEndian, m)
  {
    var t, n := TailOf(c, bigEndian, m), c.identitySize;
    var arrived := DeliverAll(t.codecs, TailValues(c, bigEndian, m));
    TailValuesFit(c, bigEndian, m);
    SliceOfRest(out, n, t.Size());
    ValuesOfStored(bigEndian, out, n, arrived, t.width);
    DeliverAllTwice(t.codecs, TailValues(c, bigEndian, m));
  }

  lemma SliceOfRest(m: Bytes, n: nat, size: nat)
    requires n + size <= |m|
    ensures m[n..][..size] == m[n..n + size]
  {
  }

  // ----- Canonical requests -----

  /** The canonical form of a request: every value reduced to the bits that cross the link, every
      byte that means nothing cleared. */
  function Canonical(c: MessageClass, bigEndian: bool, m: Bytes): (r: Bytes)
    requires WellFormed(c, bigEndian, m)
    ensures |r| == |m|
  {
    Request(c, bigEndian, Zeros(c.identitySize), DeliveredIdentity(c, bigEndian, m), Data(c, bigEndian, m))
  }

  /** A rebuilt request tells the X server what arrived of the original, in every field as it
      stands in the bytes, and no more; so it has the same canonical form. */
  lemma RebuiltCanonical(c: MessageClass, bigEndian: bool, m: Bytes, out: Bytes, blank: Bytes, data: Bytes)
    requires c.Sound() && Rebuilds(c, bigEndian, m, out, blank, data) && SameBody(c, bigEndian, m, data)
    ensures WellFormed(c, bigEndian, out) && Fields(c, bigEndian, out) == DeliveredIdentity(c, bigEndian, m)
    ensures SameBody(c, bigEndian, m, out[c.identitySize..])
    ensures Canonical(c, bigEndian, out) == Canonical(c, bigEndian, m)
  {
    RebuiltData(c, bigEndian, m, out, blank, data);
    RebuiltFields(c, bigEndian, m, out, blank, data);
    RebuiltWellFormed(c, bigEndian, m, out, blank, data);
  }

  lemma DataSameBody(c: MessageClass, bigEndian: bool, m: Bytes)
    requires WellFormed(c, bigEndian, m)
    ensures SameBody(c, bigEndian, m, Data(c, bigEndian, m))
  {
  }

  /** The canonical form is one: canonicalising again changes nothing. */
  lemma CanonicalTwice(c: MessageClass, bigEndian: bool, m: Bytes)
    requires c.Sound() && WellFormed(c, bigEndian, m)
    ensures WellFormed(c, bigEndian, Canonical(c, bigEndian, m))
    ensures Canonical(c, bigEndian, Canonical(c, bigEndian, m)) == Canonical(c, bigEndian, m)
  {
    DataSameBody(c, bigEndian, m);
    RebuiltCanonical(c, bigEndian, m, Canonical(c, bigEndian, m), Zeros(c.identitySize), Data(c, bigEndian, m));
  }

  // ----- Requests that come out as they were -----

  /** A byte of the identity that neither a field nor the header covers. */
  ghost predicate Unused(layout: seq<Field>, i: nat) {
    i != 0 && !(2 <= i < 4) && forall j :: 0 <= j < |layout| ==> !Covers(layout[j], i)
  }

  ghost predicate Covers(f: Field, i: nat) {
    f.offset <= i < f.End()
  }

  lemma {:induction false} PutAllKeeps(bigEndian: bool, m: Bytes, fields: seq<Field>, values: seq<Word>, i: nat)
    requires Within(fields, |m|) && |values| == |fields| && i < |m|
    requires forall j :: 0 <= j < |fields| ==> !Covers(fields[j], i)
    ensures PutAll(bigEndian, m, fields, values)[i] == m[i]
    decreases |fields|
  {
    if fields != [] {
      assert !Covers(fields[0], i);
      PutAllKeeps(bigEndian, Put(bigEndian, m, fields[0], values[0]), fields[1..], values[1..], i);
    }
  }

  /** What the write buffer held shows through. */
  lemma HeadKeeps(layout: seq<Field>, opcode: Byte, bigEndian: bool, blank: Bytes, identity: seq<Word>, size: nat, i: nat)
    requires Apart(layout, |blank|) && |identity| == |layout| && i < |blank| && Unused(layout, i)
    ensures Head(layout, opcode, bigEndian, blank, identity, size)[i] == blank[i]
  {
    PutAllKeeps(bigEndian, blank, layout, identity, i);
  }

  lemma {:induction false} FieldBytes(bigEndian: bool, m: Bytes, r: Bytes, f: Field, i: nat)
    requires f.End() <= |m| && f.End() <= |r| && f.width <= 4 && Covers(f, i)
    requires Get(bigEndian, m, f) == Get(bigEndian, r, f)
    ensures m[i] == r[i]
  {
    assert m[f.offset..f.End()] == r[f.offset..f.End()] by {
      BytesOfGet(bigEndian, m, f);
      BytesOfGet(bigEndian, r, f);
    }
    assert m[i] == m[f.offset..f.End()][i - f.offset] && r[i] == r[f.offset..f.End()][i - f.offset];
  }

  /** The unused bytes of the write buffer are those of the request. */
  ghost predicate SameUnused(c: MessageClass, m: Bytes, blank: Bytes)
    requires c.identitySize <= |m| && c.identitySize <= |blank|
  {
    forall i :: 0 <= i < c.identitySize && Unused(c.layout, i) ==> blank[i] == m[i]
  }

  function HeadFrom(c: MessageClass, bigEndian: bool, m: Bytes, blank: Bytes): (h: Bytes)
    requires c.SoundLayout() && |blank| == c.identitySize <= |m|
    ensures |h| == c.identitySize
  {
    Head(c.layout, c.opcode, bigEndian, blank, DeliveredIdentity(c, bigEndian, m), |m|)
  }

  lemma RequestHead(c: MessageClass, bigEndian: bool, m: Bytes, blank: Bytes, data: Bytes)
    requires c.SoundLayout() && |blank| == c.identitySize <= |m| && |data| == |m| - c.identitySize
    ensures Request(c, bigEndian, blank, DeliveredIdentity(c, bigEndian, m), data)[..c.identitySize] ==
            HeadFrom(c, bigEndian, m, blank)
  {
  }

  lemma HeadFromField(c: MessageClass, bigEndian: bool, m: Bytes, blank: Bytes, j: nat)
    requires c.Sound() && WellFormed(c, bigEndian, m) && |blank| == c.identitySize && j < |c.layout|
    ensures Get(bigEndian, HeadFrom(c, bigEndian, m, blank), c.layout[j]) == DeliveredIdentity(c, bigEndian, m)[j]
  {
    DeliveredFits(c, bigEndian, m, j);
    HeadField(c.layout, c.opcode, bigEndian, blank, DeliveredIdentity(c, bigEndian, m), |m|, j);
  }

  lemma HeadFromByte(c: MessageClass, bigEndian: bool, m: Bytes, blank: Bytes, i: nat)
    requires c.Sound() && WellFormed(c, bigEndian, m) && |blank| == c.identitySize && i < c.identitySize
    requires DeliveredIdentity(c, bigEndian, m) == Fields(c, bigEndian, m) && SameUnused(c, m, blank)
    ensures HeadFrom(c, bigEndian, m, blank)[i] == m[i]
  {
    var h := HeadFrom(c, bigEndian, m, blank);
    if j :| 0 <= j < |c.layout| && Covers(c.layout[j], i) {
      HeadFromField(c, bigEndian, m, blank, j);
      FieldBytes(bigEndian, h, m, c.layout[j], i);
    } else if Unused(c.layout, i) {
      HeadKeeps(c.layout, c.opcode, bigEndian, blank, DeliveredIdentity(c, bigEndian, m), |m|, i);
    } else {
      LengthTold(c, bigEndian, m);
      HeadHeader(c.layout, c.opcode, bigEndian, blank, DeliveredIdentity(c, bigEndian, m), |m|);
      if i != 0 {
        FieldBytes(bigEndian, h, m, LENGTH_FIELD, i);
      }
    }
  }

  /** The identity part comes out as it was exactly if each field arrives whole and the write
      buffer held the unused bytes of the request. */
  lemma HeadExactly(c: MessageClass, bigEndian: bool, m: Bytes, blank: Bytes)
    requires c.Sound() && WellFormed(c, bigEndian, m) && |blank| == c.identitySize
    ensures HeadFrom(c, bigEndian, m, blank) == m[..c.identitySize] <==>
            DeliveredIdentity(c, bigEndian, m) == Fields(c, bigEndian, m) && SameUnused(c, m, blank)
  {
    var h, n := HeadFrom(c, bigEndian, m, blank), c.identitySize;
    if h == m[..n] {
      forall j | 0 <= j < |c.layout| ensures DeliveredIdentity(c, bigEndian, m)[j] == Fields(c, bigEndian, m)[j] {
        HeadFromField(c, bigEndian, m, blank, j);
        GetInFront(bigEndian, m, h, n, c.layout[j]);
      }
      forall i | 0 <= i < n && Unused(c.layout, i) ensures blank[i] == m[i] {
        HeadKeeps(c.layout, c.opcode, bigEndian, blank, DeliveredIdentity(c, bigEndian, m), |m|, i);
        assert h[i] == m[..n][i];
      }
    }
    if DeliveredIdentity(c, bigEndian, m) == Fields(c, bigEndian, m) && SameUnused(c, m, blank) {
      forall i | 0 <= i < n ensures h[i] == m[i] {
        HeadFromByte(c, bigEndian, m, blank, i);
      }
      assert h == m[..n];
    }
  }

  /** Values arrive whole exactly if their codes have room for them. */
  lemma WholeExactly(codecs: seq<ValidCodec>, values: seq<Word>)
    requires |codecs| == |values|
    ensures DeliverAll(codecs, values) == values <==> HaveRoom(codecs, values)
  {
    var arrived := DeliverAll(codecs, values);
    forall j | 0 <= j < |values| ensures arrived[j] == values[j] <==> values[j] < Pow2(Room(codecs[j])) {
      DeliveredWhole(codecs[j], values[j]);
    }
    if arrived == values {
      assert forall j :: 0 <= j < |values| ==> arrived[j] == values[j];
    }
  }

  /** The body of the data part comes out as it was exactly if its values arrive whole. */
  lemma {:induction false} BodyExactly(c: MessageClass, bigEndian: bool, m: Bytes)
    requires WellFormed(c, bigEndian, m)
    ensures var t, n := TailOf(c, bigEndian, m), c.identitySize;
            DeliveredBody(c, bigEndian, m) == m[n..n + t.Size()] <==>
            HaveRoom(t.codecs, TailValues(c, bigEndian, m))
  {
    var t, vs := TailOf(c, bigEndian, m), TailValues(c, bigEndian, m);
    WholeExactly(t.codecs, vs);
    TailValuesFit(c, bigEndian, m);
    StoredExactly(bigEndian, m, c.identitySize, t.width, DeliverAll(t.codecs, vs));
  }

  /** Storing values leaves the bytes at an offset as they are exactly if they are the values found
      there. */
  lemma {:induction false} StoredExactly(bigEndian: bool, m: Bytes, at: nat, width: nat, values: seq<Word>)
    requires width <= 4 && at + Span(|values|, width) <= |m|
    requires forall j :: 0 <= j < |values| ==> values[j] < Pow2(8 * width)
    ensures Stored(bigEndian, values, width) == m[at..at + Span(|values|, width)] <==>
            values == Values(bigEndian, m, at, width, |values|)
  {
    if values == Values(bigEndian, m, at, width, |values|) {
      StoredValues(bigEndian, m, at, width, |values|);
    }
    if Stored(bigEndian, values, width) == m[at..at + Span(|values|, width)] {
      ValuesOfStored(bigEndian, m, at, values, width);
    }
  }

  // ----- Normalising -----

  /** Normalising once is enough. */
  lemma NormalisedTwice(c: MessageClass, bigEndian: bool, m: Bytes)
    requires WellFormed(c, bigEndian, m)
    ensures var r := Normalised(c, bigEndian, m);
            WellFormed(c, bigEndian, r) && Normalised(c, bigEndian, r) == r
  {
    var r := Normalised(c, bigEndian, m);
    NormalisedWellFormed(c, bigEndian, m);
    DataSameBody(c, bigEndian, m);
    BodyRead(c, bigEndian, m, r);
  }

  lemma NormalisedWellFormed(c: MessageClass, bigEndian: bool, m: Bytes)
    requires WellFormed(c, bigEndian, m)
    ensures var r := Normalised(c, bigEndian, m);
            WellFormed(c, bigEndian, r) && TailOf(c, bigEndian, r) == TailOf(c, bigEndian, m)
  {
    var r, n := Normalised(c, bigEndian, m), c.identitySize;
    FieldsInFront(c, bigEndian, m, r);
    GetInFront(bigEndian, m, r, n, LENGTH_FIELD);
    assert r[0] == r[..n][0] == m[..n][0];
  }

  /** Two requests with the same identity bytes become byte-equal exactly when their values
      agree in every bit that is sent. */
  lemma NormalisedEqualExactly(c: MessageClass, bigEndian: bool, m: Bytes, n: Bytes)
    requires WellFormed(c, bigEndian, m) && WellFormed(c, bigEndian, n)
    requires m[..c.identitySize] == n[..c.identitySize]
    ensures TailOf(c, bigEndian, m) == TailOf(c, bigEndian, n)
    ensures Normalised(c, bigEndian, m) == Normalised(c, bigEndian, n) <==>
            DeliverAll(TailOf(c, bigEndian, m).codecs, TailValues(c, bigEndian, m)) ==
            DeliverAll(TailOf(c, bigEndian, m).codecs, TailValues(c, bigEndian, n))
  {
    FieldsInFront(c, bigEndian, m, n);
    if Normalised(c, bigEndian, m) == Normalised(c, bigEndian, n) {
      ArrivedValues(c, bigEndian, m);
      ArrivedValues(c, bigEndian, n);
    }
  }

  /** The values found in a normalised request are those that arrive of the original. */
  lemma ArrivedValues(c: MessageClass, bigEndian: bool, m: Bytes)
    requires WellFormed(c, bigEndian, m)
    ensures var t := TailOf(c, bigEndian, m);
            Values(bigEndian, Normalised(c, bigEndian, m), c.identitySize, t.width, |t.codecs|) ==
            DeliverAll(t.codecs, TailValues(c, bigEndian, m))
  {
    var t, r := TailOf(c, bigEndian, m), Normalised(c, bigEndian, m);
    TailValuesFit(c, bigEndian, m);
    SliceOfRest(r, c.identitySize, t.Size());
    ValuesOfStored(bigEndian, r, c.identitySize, DeliverAll(t.codecs, TailValues(c, bigEndian, m)), t.width);
  }
}
