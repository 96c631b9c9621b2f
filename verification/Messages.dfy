/**
 Message classes: what a message store knows about the requests of its class through the
 virtual methods of MessageStore.  A class tells where the identity fields lie and how each is
 sent, which bytes the checksum covers, which fields a hit sends again, and what follows the
 identity.  Everything here holds for any class that is sound; the classes of the X protocol
 are in Classes.dfy.
 */
module Messages {
  import opened Words
  import opened Buffers
  import opened ClientCache
  import opened Tokens
  import opened LockStep

  /** The request length in words, which every request carries in bytes 2 and 3
      (section 1 of the X Window System Protocol, Version 11). */
  const LENGTH_FIELD := Field(2, 2)

  /** A field that a hit sends again; a relative one goes as the difference from the cached one. */
  datatype Update = Update(index: nat, codec: ValidCodec, relative: bool)

  /** What follows the identity when the whole request is sent: values of `width` bytes, each
      with its code, after an alignment of the stream if they are sent as raw bytes. */
  datatype TailShape = TailShape(align: bool, codecs: seq<ValidCodec>, width: nat) {
    function Size(): nat {
      Span(|codecs|, width)
    }
  }

  type Tail = t: TailShape | 1 <= t.width <= 4 witness TailShape(false, [], 1)

  datatype MessageClass = MessageClass(
    kind: Kind,
    opcode: Byte,
    identitySize: nat,
    layout: seq<Field>,
    codecs: seq<ValidCodec>,
    updates: seq<Update>,
    fingerprint: seq<Field>,
    trimmed: seq<nat>,
    accepts: seq<Word> -> bool,
    tail: seq<Word> -> Tail)
  {
    /** The fields can be stored and loaded and do not overlap, nor does the header. */
    ghost predicate SoundLayout() {
      && 12 <= identitySize && identitySize % 4 == 0
      && |codecs| == |layout|
      && Apart(layout, identitySize)
    }

    /** A hit sends each field again with the code it has otherwise, or as a difference. */
    ghost predicate SoundUpdates() {
      forall i :: 0 <= i < |updates| ==> updates[i].index < |codecs| && Fits(updates[i], codecs[updates[i].index])
    }

    predicate SentAgain(j: nat) {
      exists i :: 0 <= i < |updates| && updates[i].index == j
    }

    /** Every identity field is sent again on a hit, lies inside the fingerprint, or is the
        length, which the size of the data part determines. */
    ghost predicate Covered() {
      && (forall i :: 0 <= i < |fingerprint| ==> fingerprint[i].End() <= identitySize)
      && (forall j :: 0 <= j < |layout| && !SentAgain(j) && layout[j] != LENGTH_FIELD ==>
            exists i :: 0 <= i < |fingerprint| && Inside(layout[j], fingerprint[i]))
    }

    ghost predicate Storable(identity: seq<Word>) {
      && |identity| == |layout|
      && forall j :: 0 <= j < |layout| ==> identity[j] < Pow2(8 * layout[j].width)
    }

    /** The receiver, who knows only what arrived of an identity, expects the data part that
        the sender sends. */
    ghost predicate SoundTail()
      requires SoundLayout()
    {
      && (forall identity :: Storable(identity) ==>
            var arrived := DeliverAll(codecs, identity);
            tail(arrived) == tail(identity) && accepts(arrived) == accepts(identity))
      && (forall j, v: Word :: 0 <= j < |layout| && layout[j] == LENGTH_FIELD && v < 0x1_0000 ==>
            Delivered(codecs[j], v) == v)
    }

    ghost predicate Sound() {
      SoundLayout() && SoundUpdates() && Covered() && SoundTail()
    }
  }

  /** Fields that lie in the first n bytes, apart from each other and from the header. */
  ghost predicate Apart(layout: seq<Field>, n: nat) {
    && 4 <= n && Within(layout, n) && PairwiseDisjoint(layout)
    && forall j :: 0 <= j < |layout| ==>
      1 <= layout[j].offset && (layout[j] == LENGTH_FIELD || Disjoint(LENGTH_FIELD, layout[j]))
  }

  ghost predicate Inside(f: Field, g: Field) {
    g.offset <= f.offset && f.End() <= g.End()
  }

  /** An update uses the code that sends the field in full, or a difference as wide. */
  ghost predicate Fits(u: Update, full: Codec) {
    if u.relative then
      u.codec.Cached? && u.codec.bits == COORDINATE_BITS && full.Since?
    else
      u.codec == full && (full.Slotted? || full.NewXid?)
  }

  // ----- Values in a row -----

  /** The bytes taken by n values of `width` bytes. */
  function Span(n: nat, width: nat): nat {
    if n == 0 then 0 else width + Span(n - 1, width)
  }

  /** The n values of `width` bytes from offset `at` on. */
  function Values(bigEndian: bool, m: Bytes, at: nat, width: nat, n: nat): (vs: seq<Word>)
    requires width <= 4 && at + Span(n, width) <= |m|
    ensures |vs| == n
    decreases n
  {
    if n == 0 then []
    else
      var rest := Values(bigEndian, m, at + width, width, n - 1);
      [Get(bigEndian, m, Field(at, width))] + rest
  }

  /** The bytes that store the values. */
  function Stored(bigEndian: bool, values: seq<Word>, width: nat): (d: Bytes)
    ensures |d| == Span(|values|, width)
  {
    if values == [] then []
    else BytesOf(bigEndian, values[0], width) + Stored(bigEndian, values[1..], width)
  }

  function DeliverAll(codecs: seq<ValidCodec>, values: seq<Word>): (vs: seq<Word>)
    requires |codecs| == |values|
    ensures |vs| == |values|
    ensures forall j :: 0 <= j < |vs| ==> vs[j] == Delivered(codecs[j], values[j])
  {
    seq(|values|, j requires 0 <= j < |values| => Delivered(codecs[j], values[j]))
  }

  function RoundUp4(n: nat): (r: nat)
    ensures n <= r < n + 4 && r % 4 == 0
  {
    (n + 3) / 4 * 4
  }

  function Zeros(n: nat): (z: Bytes)
    ensures |z| == n
  {
    seq(n, _ => 0)
  }

  // ----- Requests -----

  /** The identity fields of a request as they stand in its bytes. */
  function Fields(c: MessageClass, bigEndian: bool, m: Bytes): (vs: seq<Word>)
    requires c.SoundLayout() && |m| >= c.identitySize
    ensures |vs| == |c.layout|
    ensures forall j :: 0 <= j < |vs| ==> vs[j] == Get(bigEndian, m, c.layout[j])
  {
    GetAll(bigEndian, m, c.layout)
  }

  function TailOf(c: MessageClass, bigEndian: bool, m: Bytes): Tail
    requires c.SoundLayout() && |m| >= c.identitySize
  {
    c.tail(Fields(c, bigEndian, m))
  }

  /** A request that the proxy can handle: it is of the class, its length field tells its size,
      and it holds every byte that the proxy reads of it and no word that it does not. */
  ghost predicate WellFormed(c: MessageClass, bigEndian: bool, m: Bytes) {
    && c.SoundLayout()
    && |m| >= c.identitySize
    && m[0] == c.opcode
    && |m| == 4 * Get(bigEndian, m, LENGTH_FIELD)
    && c.accepts(Fields(c, bigEndian, m))
    && |m| == c.identitySize + RoundUp4(TailOf(c, bigEndian, m).Size())
  }

  function TailValues(c: MessageClass, bigEndian: bool, m: Bytes): (vs: seq<Word>)
    requires WellFormed(c, bigEndian, m)
    ensures |vs| == |TailOf(c, bigEndian, m).codecs|
  {
    var t := TailOf(c, bigEndian, m);
    Values(bigEndian, m, c.identitySize, t.width, |t.codecs|)
  }

  /** The identity that the receiving side has in the end. */
  function DeliveredIdentity(c: MessageClass, bigEndian: bool, m: Bytes): (vs: seq<Word>)
    requires c.SoundLayout() && |m| >= c.identitySize
    ensures |vs| == |c.layout|
  {
    DeliverAll(c.codecs, Fields(c, bigEndian, m))
  }

  /** What arrives of the values behind the identity. */
  function DeliveredBody(c: MessageClass, bigEndian: bool, m: Bytes): (d: Bytes)
    requires WellFormed(c, bigEndian, m)
    ensures |d| == TailOf(c, bigEndian, m).Size()
  {
    var t := TailOf(c, bigEndian, m);
    Stored(bigEndian, DeliverAll(t.codecs, TailValues(c, bigEndian, m)), t.width)
  }

  /** The data part as parseIdentity leaves it in the buffer: no bit that will not arrive, and
      no padding byte, is set. */
  function Data(c: MessageClass, bigEndian: bool, m: Bytes): (d: Bytes)
    requires WellFormed(c, bigEndian, m)
    ensures |d| == |m| - c.identitySize
  {
    var body := DeliveredBody(c, bigEndian, m);
    body + Zeros(|m| - c.identitySize - |body|)
  }

  /** The request as parseIdentity leaves it. */
  function Normalised(c: MessageClass, bigEndian: bool, m: Bytes): (r: Bytes)
    requires WellFormed(c, bigEndian, m)
    ensures |r| == |m| && r[..c.identitySize] == m[..c.identitySize]
    ensures r[c.identitySize..] == Data(c, bigEndian, m)
  {
    m[..c.identitySize] + Data(c, bigEndian, m)
  }

  /** The identity that parseIdentity stores: some fields lose the bits that will not arrive,
      if there is a data part. */
  function Parsed(c: MessageClass, bigEndian: bool, m: Bytes): (vs: seq<Word>)
    requires c.SoundLayout() && |m| >= c.identitySize
    ensures |vs| == |c.layout|
  {
    var vs := Fields(c, bigEndian, m);
    seq(|vs|, j requires 0 <= j < |vs| =>
      if j in c.trimmed && |m| > c.identitySize then Delivered(c.codecs[j], vs[j]) else vs[j])
  }

  // ----- Facts about values -----

  lemma GetBound(bigEndian: bool, m: Bytes, f: Field)
    requires f.End() <= |m| && f.width <= 4
    ensures Get(bigEndian, m, f) < Pow2(8 * f.width)
  {
    ValueOfBound(bigEndian, m[f.offset..f.End()], f.width);
  }

  lemma BytesOfGet(bigEndian: bool, m: Bytes, f: Field)
    requires f.End() <= |m| && f.width <= 4
    ensures BytesOf(bigEndian, Get(bigEndian, m, f), f.width) == m[f.offset..f.End()]
  {
    BytesOfValue(bigEndian, m[f.offset..f.End()]);
  }

  lemma GetInFront(bigEndian: bool, m: Bytes, r: Bytes, n: nat, f: Field)
    requires n <= |m| && n <= |r| && m[..n] == r[..n] && f.End() <= n && f.width <= 4
    ensures Get(bigEndian, m, f) == Get(bigEndian, r, f)
  {
    assert m[f.offset..f.End()] == m[..n][f.offset..f.End()] == r[..n][f.offset..f.End()] == r[f.offset..f.End()];
  }

  lemma FieldsInFront(c: MessageClass, bigEndian: bool, m: Bytes, r: Bytes)
    requires c.SoundLayout() && c.identitySize <= |m| && c.identitySize <= |r|
    requires m[..c.identitySize] == r[..c.identitySize]
    ensures Fields(c, bigEndian, m) == Fields(c, bigEndian, r)
  {
    forall j | 0 <= j < |c.layout| ensures Fields(c, bigEndian, m)[j] == Fields(c, bigEndian, r)[j] {
      GetInFront(bigEndian, m, r, c.identitySize, c.layout[j]);
    }
  }

  lemma FieldsStorable(c: MessageClass, bigEndian: bool, m: Bytes)
    requires c.SoundLayout() && |m| >= c.identitySize
    ensures c.Storable(Fields(c, bigEndian, m))
  {
    forall j | 0 <= j < |c.layout| ensures Fields(c, bigEndian, m)[j] < Pow2(8 * c.layout[j].width) {
      GetBound(bigEndian, m, c.layout[j]);
    }
  }

  lemma DeliveredLess(c: ValidCodec, v: Word)
    ensures Delivered(c, v) <= v
  {
    match c
    case Plain(bits, _) => LowLess(v, bits);
    case Cached(_, bits, _) => LowLess(v, bits);
    case Slotted(name) => LowLess(v, SlottedWidth(name));
    case NewXid(_, _) => LowLess(v, XID_BITS);
    case Since(_, _) => LowLess(v, COORDINATE_BITS);
    case _ =>
  }

  /** A value arrives whole exactly if its code has room for it. */
  lemma DeliveredWhole(c: ValidCodec, v: Word)
    ensures Delivered(c, v) == v <==> v < Pow2(Room(c))
  {
    LowIdentity(v, Room(c));
    Pow2Constants();
  }

  ghost predicate HaveRoom(codecs: seq<ValidCodec>, values: seq<Word>)
    requires |codecs| == |values|
  {
    forall j :: 0 <= j < |values| ==> values[j] < Pow2(Room(codecs[j]))
  }

  lemma DeliveredTwice(c: ValidCodec, v: Word)
    ensures Delivered(c, Delivered(c, v)) == Delivered(c, v)
  {
    match c
    case Plain(bits, _) => LowTwice(v, bits);
    case Cached(_, bits, _) => LowTwice(v, bits);
    case Slotted(name) => LowTwice(v, SlottedWidth(name));
    case NewXid(_, _) => LowTwice(v, XID_BITS);
    case Since(_, _) => LowTwice(v, COORDINATE_BITS);
    case _ =>
  }

  lemma DeliverAllTwice(codecs: seq<ValidCodec>, values: seq<Word>)
    requires |codecs| == |values|
    ensures DeliverAll(codecs, DeliverAll(codecs, values)) == DeliverAll(codecs, values)
  {
    forall j | 0 <= j < |values|
      ensures Delivered(codecs[j], Delivered(codecs[j], values[j])) == Delivered(codecs[j], values[j])
    {
      DeliveredTwice(codecs[j], values[j]);
    }
  }

  lemma {:induction false} ValueBound(bigEndian: bool, m: Bytes, at: nat, width: nat, n: nat, j: nat)
    requires width <= 4 && at + Span(n, width) <= |m| && j < n
    ensures Values(bigEndian, m, at, width, n)[j] < Pow2(8 * width)
    decreases n
  {
    if j == 0 {
      GetBound(bigEndian, m, Field(at, width));
    } else {
      ValueBound(bigEndian, m, at + width, width, n - 1, j - 1);
    }
  }

  lemma {:induction false} ValuesStep(bigEndian: bool, m: Bytes, at: nat, width: nat, n: nat)
    requires width <= 4 && at + Span(n + 1, width) <= |m|
    ensures at + Span(n + 1, width) == at + width + Span(n, width)
    ensures Values(bigEndian, m, at, width, n + 1) ==
            [Get(bigEndian, m, Field(at, width))] + Values(bigEndian, m, at + width, width, n)
  {
  }

  /** Storing values and loading them. */
  lemma {:induction false} ValuesOfStored(
      bigEndian: bool, m: Bytes, at: nat, values: seq<Word>, width: nat)
    requires width <= 4 && at + Span(|values|, width) <= |m|
    requires m[at..at + Span(|values|, width)] == Stored(bigEndian, values, width)
    requires forall j :: 0 <= j < |values| ==> values[j] < Pow2(8 * width)
    ensures Values(bigEndian, m, at, width, |values|) == values
    decreases |values|
  {
    if values != [] {
      var rest := values[1..];
      FirstStored(bigEndian, m, at, values, width);
      ValuesOfStored(bigEndian, m, at + width, rest, width);
      ValuesJoined(bigEndian, m, at, values, width);
    }
  }

  lemma {:induction false} ValuesJoined(bigEndian: bool, m: Bytes, at: nat, values: seq<Word>, width: nat)
    requires values != [] && width <= 4 && at + Span(|values|, width) <= |m|
    requires at + width + Span(|values[1..]|, width) <= |m|
    requires Get(bigEndian, m, Field(at, width)) == values[0]
    requires Values(bigEndian, m, at + width, width, |values[1..]|) == values[1..]
    ensures Values(bigEndian, m, at, width, |values|) == values
  {
    ValuesStep(bigEndian, m, at, width, |values[1..]|);
    assert values == [values[0]] + values[1..];
  }

  lemma {:induction false} FirstStored(bigEndian: bool, m: Bytes, at: nat, values: seq<Word>, width: nat)
    requires values != [] && width <= 4 && at + Span(|values|, width) <= |m|
    requires m[at..at + Span(|values|, width)] == Stored(bigEndian, values, width)
    requires values[0] < Pow2(8 * width)
    ensures at + width + Span(|values[1..]|, width) == at + Span(|values|, width)
    ensures Get(bigEndian, m, Field(at, width)) == values[0]
    ensures m[at + width..at + width + Span(|values[1..]|, width)] == Stored(bigEndian, values[1..], width)
  {
    var first, rest := BytesOf(bigEndian, values[0], width), Stored(bigEndian, values[1..], width);
    SplitSlice(m, at, at + Span(|values|, width), first, rest);
    GetStored(bigEndian, m, Field(at, width), values[0]);
  }

  lemma SplitSlice(m: Bytes, from: nat, to: nat, a: Bytes, b: Bytes)
    requires from <= to <= |m| && m[from..to] == a + b
    ensures to == from + |a| + |b| && m[from..from + |a|] == a && m[from + |a|..to] == b
  {
    assert to - from == |a + b|;
    assert m[from..from + |a|] == m[from..to][..|a|];
    assert m[from + |a|..to] == m[from..to][|a|..];
  }

  lemma GetStored(bigEndian: bool, m: Bytes, f: Field, v: Word)
    requires f.End() <= |m| && f.width <= 4 && v < Pow2(8 * f.width)
    requires m[f.offset..f.End()] == BytesOf(bigEndian, v, f.width)
    ensures Get(bigEndian, m, f) == v
  {
    ValueOfBytes(bigEndian, v, f.width);
    LowIdentity(v, 8 * f.width);
  }

  /** Storing the values found at an offset gives the bytes there back. */
  lemma {:induction false} StoredValues(bigEndian: bool, m: Bytes, at: nat, width: nat, n: nat)
    requires width <= 4 && at + Span(n, width) <= |m|
    ensures Stored(bigEndian, Values(bigEndian, m, at, width, n), width) == m[at..at + Span(n, width)]
  {
    FoundStored(bigEndian, m, at, Values(bigEndian, m, at, width, n), width);
  }

  lemma {:induction false} FoundStored(bigEndian: bool, m: Bytes, at: nat, values: seq<Word>, width: nat)
    requires width <= 4 && at + Span(|values|, width) <= |m|
    requires values == Values(bigEndian, m, at, width, |values|)
    ensures Stored(bigEndian, values, width) == m[at..at + Span(|values|, width)]
    decreases |values|
  {
    if values != [] {
      var n := |values| - 1;
      var rest := Values(bigEndian, m, at + width, width, n);
      ValuesStep(bigEndian, m, at, width, n);
      FoundStored(bigEndian, m, at + width, rest, width);
      StoredFirst(bigEndian, m, at, at + Span(n + 1, width), values, rest, width);
    }
  }

  lemma {:induction false} StoredFirst(
      bigEndian: bool, m: Bytes, at: nat, to: nat, values: seq<Word>, rest: seq<Word>, width: nat)
    requires width <= 4 && at + width <= to <= |m| && values == [Get(bigEndian, m, Field(at, width))] + rest
    requires Stored(bigEndian, rest, width) == m[at + width..to]
    ensures Stored(bigEndian, values, width) == m[at..to]
  {
    BytesOfGet(bigEndian, m, Field(at, width));
    StoredJoined(bigEndian, m, at, at + width, to, Get(bigEndian, m, Field(at, width)), rest, width);
  }

  lemma {:induction false} StoredJoined(
      bigEndian: bool, m: Bytes, a: nat, b: nat, c: nat, v: Word, rest: seq<Word>, width: nat)
    requires a <= b <= c <= |m| && BytesOf(bigEndian, v, width) == m[a..b] && Stored(bigEndian, rest, width) == m[b..c]
    ensures Stored(bigEndian, [v] + rest, width) == m[a..c]
  {
    assert ([v] + rest)[1..] == rest;
    SliceSplit(m, a, b, c);
  }

  lemma SliceSplit(m: Bytes, a: nat, b: nat, c: nat)
    requires a <= b <= c <= |m|
    ensures m[a..c] == m[a..b] + m[b..c]
  {
  }

  lemma SameParts(a: Bytes, b: Bytes, d: Bytes, e: Bytes)
    requires a + b == d + e && |a| == |d|
    ensures a == d && b == e
  {
    assert a == (a + b)[..|a|] && d == (d + e)[..|d|];
    assert b == (a + b)[|a|..] && e == (d + e)[|d|..];
  }

  // ----- What arrives -----

  /** The receiver expects the data part that the sender sends. */
  lemma SameTail(c: MessageClass, bigEndian: bool, m: Bytes)
    requires c.Sound() && |m| >= c.identitySize
    ensures c.tail(DeliveredIdentity(c, bigEndian, m)) == TailOf(c, bigEndian, m)
    ensures c.accepts(DeliveredIdentity(c, bigEndian, m)) == c.accepts(Fields(c, bigEndian, m))
  {
    FieldsStorable(c, bigEndian, m);
  }

  /** What is seen of the identity from afar is the same for the parsed identity. */
  lemma ParsedDelivers(c: MessageClass, bigEndian: bool, m: Bytes)
    requires c.SoundLayout() && |m| >= c.identitySize
    ensures DeliverAll(c.codecs, Parsed(c, bigEndian, m)) == DeliveredIdentity(c, bigEndian, m)
  {
    forall j | 0 <= j < |c.layout|
      ensures Delivered(c.codecs[j], Parsed(c, bigEndian, m)[j]) == DeliveredIdentity(c, bigEndian, m)[j]
    {
      DeliveredTwice(c.codecs[j], Fields(c, bigEndian, m)[j]);
    }
  }

  /** The values of a request fit into their bytes, before and after they are sent. */
  lemma TailValuesFit(c: MessageClass, bigEndian: bool, m: Bytes)
    requires WellFormed(c, bigEndian, m)
    ensures var t, vs := TailOf(c, bigEndian, m), TailValues(c, bigEndian, m);
            forall j :: 0 <= j < |vs| ==>
              vs[j] < Pow2(8 * t.width) && Delivered(t.codecs[j], vs[j]) < Pow2(8 * t.width)
  {
    var t, vs := TailOf(c, bigEndian, m), TailValues(c, bigEndian, m);
    forall j | 0 <= j < |vs|
      ensures vs[j] < Pow2(8 * t.width) && Delivered(t.codecs[j], vs[j]) < Pow2(8 * t.width)
    {
      ValueBound(bigEndian, m, c.identitySize, t.width, |t.codecs|, j);
      DeliveredLess(t.codecs[j], vs[j]);
    }
  }
}
