/**
 parseIdentity of the message classes: it reads the identity fields and normalises the request
 in the buffer.
 */
module Parsing {
  import opened Words
  import opened Buffers
  import opened ClientCache
  import opened Tokens
  import opened Messages
  import opened Classes

  // ----- Value lists -----

  type Bits = n: nat | n <= 32

  /** The number of set bits. */
  function CountBits(bits: seq<bool>): nat {
    if bits == [] then 0 else (if bits[0] then 1 else 0) + CountBits(bits[1..])
  }

  /** One word, reduced to its width in bits. */
  function MaskWord(bigEndian: bool, m: Bytes, at: nat, width: Bits): (r: Bytes)
    requires at + 4 <= |m|
    ensures |r| == |m|
  {
    Put(bigEndian, m, Field(at, 4), LowWord(Get(bigEndian, m, Field(at, 4)), width))
  }

  /** What the loop over the bits of a mask makes of a buffer: the words from `at` on belong to
      the set bits, in order. */
  function MaskWords(bigEndian: bool, m: Bytes, at: nat, bits: seq<bool>, widths: seq<Bits>): (r: Bytes)
    requires |bits| == |widths| && at + 4 * CountBits(bits) <= |m|
    ensures |r| == |m|
    decreases |bits|
  {
    if bits == [] then m
    else if bits[0] then MaskWords(bigEndian, MaskWord(bigEndian, m, at, widths[0]), at + 4, bits[1..], widths[1..])
    else MaskWords(bigEndian, m, at, bits[1..], widths[1..])
  }

  /** The code delivers the low bits of a value. */
  ghost predicate Reduces(c: ValidCodec, width: Bits) {
    forall v: Word :: Delivered(c, v) == LowWord(v, width)
  }

  ghost predicate AllReduce(codec: nat -> ValidCodec, from: nat, widths: seq<Bits>)
    decreases |widths|
  {
    widths == [] || (Reduces(codec(from), widths[0]) && AllReduce(codec, from + 1, widths[1..]))
  }

  function ListCodecs(codec: nat -> ValidCodec, ix: seq<nat>): (cs: seq<ValidCodec>)
    ensures |cs| == |ix|
  {
    if ix == [] then [] else [codec(ix[0])] + ListCodecs(codec, ix[1..])
  }

  /** The words from `at` on as the codes deliver them. */
  function Served(bigEndian: bool, m: Bytes, at: nat, cs: seq<ValidCodec>): (d: Bytes)
    requires at + 4 * |cs| <= |m|
    ensures |d| == 4 * |cs|
    decreases |cs|
  {
    if cs == [] then []
    else BytesOf(bigEndian, Delivered(cs[0], Get(bigEndian, m, Field(at, 4))), 4) + Served(bigEndian, m, at + 4, cs[1..])
  }

  /** Words behind a change are served alike. */
  lemma {:induction false} ServedBehind(bigEndian: bool, m: Bytes, r: Bytes, at: nat, from: nat, cs: seq<ValidCodec>)
    requires at <= from && from + 4 * |cs| <= |m| == |r| && m[at..] == r[at..]
    ensures Served(bigEndian, m, from, cs) == Served(bigEndian, r, from, cs)
    decreases |cs|
  {
    if cs != [] {
      assert Get(bigEndian, m, Field(from, 4)) == Get(bigEndian, r, Field(from, 4)) by {
        assert m[from..from + 4] == m[at..][from - at..from - at + 4] == r[from..from + 4];
      }
      ServedBehind(bigEndian, m, r, at, from + 4, cs[1..]);
    }
  }

  /** Around the words that are served nothing changes. */
  function Spliced(m: Bytes, at: nat, d: Bytes): (r: Bytes)
    requires at + |d| <= |m|
    ensures |r| == |m|
  {
    m[..at] + d + m[at + |d|..]
  }

  lemma {:induction false} ListLength(bits: seq<bool>, from: nat, codec: nat -> ValidCodec)
    ensures |ListCodecs(codec, SetBits(bits, from))| == CountBits(bits)
    decreases |bits|
  {
    if bits != [] {
      ListLength(bits[1..], from + 1, codec);
    }
  }

  /** The loop leaves what the codes of the values deliver, in the order of the mask, and touches
      nothing else. */
  lemma {:induction false} MaskWordsServe(
      bigEndian: bool, m: Bytes, at: nat, bits: seq<bool>, widths: seq<Bits>, codec: nat -> ValidCodec, from: nat)
    requires |bits| == |widths| && at + 4 * CountBits(bits) <= |m| && AllReduce(codec, from, widths)
    ensures var cs := ListCodecs(codec, SetBits(bits, from));
            |cs| == CountBits(bits) &&
            MaskWords(bigEndian, m, at, bits, widths) == Spliced(m, at, Served(bigEndian, m, at, cs))
    decreases |bits|
  {
    ListLength(bits, from, codec);
    if bits == [] {
      assert Spliced(m, at, []) == m;
    } else if bits[0] {
      var m', rest := MaskWord(bigEndian, m, at, widths[0]), ListCodecs(codec, SetBits(bits[1..], from + 1));
      ListLength(bits[1..], from + 1, codec);
      FirstCodec(bits, from, codec);
      MaskWordsServe(bigEndian, m', at + 4, bits[1..], widths[1..], codec, from + 1);
      FirstServed(bigEndian, m, at, widths[0], codec(from), rest);
    } else {
      assert SetBits(bits, from) == SetBits(bits[1..], from + 1);
      MaskWordsServe(bigEndian, m, at, bits[1..], widths[1..], codec, from + 1);
    }
  }

  lemma FirstCodec(bits: seq<bool>, from: nat, codec: nat -> ValidCodec)
    requires bits != [] && bits[0]
    ensures ListCodecs(codec, SetBits(bits, from)) == [codec(from)] + ListCodecs(codec, SetBits(bits[1..], from + 1))
  {
    var ix := SetBits(bits[1..], from + 1);
    assert SetBits(bits, from) == [from] + ix && ([from] + ix)[1..] == ix;
  }

  /** The first word, followed by the others. */
  lemma FirstServed(bigEndian: bool, m: Bytes, at: nat, width: Bits, c: ValidCodec, rest: seq<ValidCodec>)
    requires at + 4 + 4 * |rest| <= |m| && Reduces(c, width)
    ensures var m' := MaskWord(bigEndian, m, at, width);
            Spliced(m', at + 4, Served(bigEndian, m', at + 4, rest)) ==
            Spliced(m, at, Served(bigEndian, m, at, [c] + rest))
  {
    var m' := MaskWord(bigEndian, m, at, width);
    var first := BytesOf(bigEndian, LowWord(Get(bigEndian, m, Field(at, 4)), width), 4);
    assert m' == m[..at] + first + m[at + 4..];
    assert m'[at + 4..] == m[at + 4..];
    ServedBehind(bigEndian, m, m', at + 4, at + 4, rest);
    var d := Served(bigEndian, m, at + 4, rest);
    assert ([c] + rest)[1..] == rest;
    assert Served(bigEndian, m, at, [c] + rest) == first + d;
    SplicedTwice(m, at, first, d);
  }

  lemma SplicedTwice(m: Bytes, at: nat, a: Bytes, b: Bytes)
    requires at + |a| + |b| <= |m|
    ensures Spliced(Spliced(m, at, a), at + |a|, b) == Spliced(m, at, a + b)
  {
  }

  lemma {:induction false} SpanOfWords(n: nat)
    ensures Span(n, 4) == 4 * n
  {
    if n > 0 {
      SpanOfWords(n - 1);
    }
  }

  /** What is served are the values of the data part, delivered and stored. */
  lemma {:induction false} ServedIsStored(bigEndian: bool, m: Bytes, at: nat, cs: seq<ValidCodec>)
    requires at + 4 * |cs| <= |m| && at + Span(|cs|, 4) <= |m|
    ensures Served(bigEndian, m, at, cs) ==
            Stored(bigEndian, DeliverAll(cs, Values(bigEndian, m, at, 4, |cs|)), 4)
    decreases |cs|
  {
    if cs != [] {
      var vs, rest := Values(bigEndian, m, at, 4, |cs|), Values(bigEndian, m, at + 4, 4, |cs| - 1);
      var ws := DeliverAll(cs, vs);
      assert vs[1..] == rest;
      assert ws[1..] == DeliverAll(cs[1..], rest);
      ServedIsStored(bigEndian, m, at + 4, cs[1..]);
    }
  }

  lemma {:induction false} ListCodecsAt(codec: nat -> ValidCodec, ix: seq<nat>, j: nat)
    requires j < |ix|
    ensures ListCodecs(codec, ix)[j] == codec(ix[j])
  {
    if j > 0 {
      ListCodecsAt(codec, ix[1..], j - 1);
    }
  }

  lemma ListIsTail(mask: Word, fields: nat, codec: nat -> ValidCodec)
    ensures ValueList(mask, fields, codec).codecs == ListCodecs(codec, SetBits(BitsOf(mask, fields), 0))
  {
    var ix := SetBits(BitsOf(mask, fields), 0);
    forall j | 0 <= j < |ix| ensures ValueList(mask, fields, codec).codecs[j] == ListCodecs(codec, ix)[j] {
      ListCodecsAt(codec, ix, j);
    }
  }

  // ----- Classes with a value list -----

  const GC_WIDTHS: seq<Bits> := CREATEGC_FIELD_WIDTH
  const WINDOW_WIDTHS: seq<Bits> := CONFIGUREWINDOW_FIELD_WIDTH

  lemma {:induction false} GCReduces(i: nat)
    requires i <= GC_FIELDS
    ensures AllReduce(GCValueCodec, i, GC_WIDTHS[i..])
    decreases GC_FIELDS - i
  {
    if i < GC_FIELDS {
      GCReduces(i + 1);
      assert GC_WIDTHS[i..][1..] == GC_WIDTHS[i + 1..];
    }
  }

  lemma {:induction false} WindowReduces(i: nat)
    requires i <= WINDOW_FIELDS
    ensures AllReduce(WindowValueCodec, i, WINDOW_WIDTHS[i..])
    decreases WINDOW_FIELDS - i
  {
    if i < WINDOW_FIELDS {
      WindowReduces(i + 1);
      assert WINDOW_WIDTHS[i..][1..] == WINDOW_WIDTHS[i + 1..];
    }
  }

  /** A request of class c carries a list of values with these widths. */
  ghost predicate Listed(c: MessageClass, bigEndian: bool, m: Bytes, mask: Word, widths: seq<Bits>, codec: nat -> ValidCodec) {
    && WellFormed(c, bigEndian, m)
    && TailOf(c, bigEndian, m) == ValueList(mask, |widths|, codec)
    && AllReduce(codec, 0, widths)
  }

  /** There is a word for every set bit, and the loop over the bits normalises the request. */
  lemma LoopNormalises(c: MessageClass, bigEndian: bool, m: Bytes, mask: Word, widths: seq<Bits>, codec: nat -> ValidCodec)
    requires Listed(c, bigEndian, m, mask, widths, codec)
    ensures |m| == c.identitySize + 4 * CountBits(BitsOf(mask, |widths|))
    ensures MaskWords(bigEndian, m, c.identitySize, BitsOf(mask, |widths|), widths) == Normalised(c, bigEndian, m)
  {
    var bits := BitsOf(mask, |widths|);
    var cs := ListCodecs(codec, SetBits(bits, 0));
    ListIsTail(mask, |widths|, codec);
    ListLength(bits, 0, codec);
    BodyServed(c, bigEndian, m, cs);
    MaskWordsServe(bigEndian, m, c.identitySize, bits, widths, codec, 0);
    SplicedWhole(m, c.identitySize, Served(bigEndian, m, c.identitySize, cs));
    NormalisedParts(c, bigEndian, m, Served(bigEndian, m, c.identitySize, cs));
  }

  /** A data part of whole words. */
  lemma BodyServed(c: MessageClass, bigEndian: bool, m: Bytes, cs: seq<ValidCodec>)
    requires WellFormed(c, bigEndian, m) && TailOf(c, bigEndian, m) == TailShape(false, cs, 4)
    ensures |m| == c.identitySize + 4 * |cs| && DeliveredBody(c, bigEndian, m) == Served(bigEndian, m, c.identitySize, cs)
  {
    assert TailOf(c, bigEndian, m).Size() == 4 * |cs| && RoundUp4(4 * |cs|) == 4 * |cs| by {
      SpanOfWords(|cs|);
    }
    assert |m| == c.identitySize + 4 * |cs|;
    ServedIsStored(bigEndian, m, c.identitySize, cs);
  }

  lemma SplicedWhole(m: Bytes, at: nat, d: Bytes)
    requires at + |d| == |m|
    ensures Spliced(m, at, d) == m[..at] + d
  {
  }

  lemma NormalisedParts(c: MessageClass, bigEndian: bool, m: Bytes, body: Bytes)
    requires WellFormed(c, bigEndian, m) && body == DeliveredBody(c, bigEndian, m) && |m| == c.identitySize + |body|
    ensures Normalised(c, bigEndian, m) == m[..c.identitySize] + body
  {
    assert body + Zeros(0) == body;
  }

  /** PutULONG. */
  method StoreWord(buffer: array<Byte>, bigEndian: bool, at: nat, v: Word)
    requires at + 4 <= buffer.Length
    modifies buffer
    ensures buffer[..] == Put(bigEndian, old(buffer[..]), Field(at, 4), v)
  {
    var bytes := BytesOf(bigEndian, v, 4);
    ghost var was := buffer[..];
    var i := 0;
    while i < 4
      invariant i <= 4
      invariant buffer[..] == was[..at] + bytes[..i] + was[at + i..]
    {
      buffer[at + i] := bytes[i];
      i := i + 1;
    }
    assert bytes[..4] == bytes;
  }

  /** The loop over the bits of a mask. */
  method MaskValues(buffer: array<Byte>, bigEndian: bool, at: nat, mask: Word, widths: seq<Bits>)
    requires at + 4 * CountBits(BitsOf(mask, |widths|)) <= buffer.Length
    modifies buffer
    ensures buffer[..] == MaskWords(bigEndian, old(buffer[..]), at, BitsOf(mask, |widths|), widths)
  {
    var bits := BitsOf(mask, |widths|);
    var source: nat, i := at, 0;
    ghost var result := MaskWords(bigEndian, buffer[..], at, bits, widths);
    assert bits[0..] == bits && widths[0..] == widths;
    while i < |widths|
      invariant i <= |widths| && source + 4 * CountBits(bits[i..]) <= buffer.Length
      invariant MaskWords(bigEndian, buffer[..], source, bits[i..], widths[i..]) == result
    {
      assert bits[i..][1..] == bits[i + 1..] && widths[i..][1..] == widths[i + 1..];
      if bits[i] {
        var value := Get(bigEndian, buffer[..], Field(source, 4));
        StoreWord(buffer, bigEndian, source, LowWord(value, widths[i]));
        source := source + 4;
      }
      i := i + 1;
    }
  }

  /** parseIdentity of a class with a value list: the mask is identity field j. */
  method ParseListed(c: MessageClass, buffer: array<Byte>, bigEndian: bool, j: nat, widths: seq<Bits>, ghost codec: nat -> ValidCodec)
    returns (identity: seq<Word>)
    requires WellFormed(c, bigEndian, buffer[..]) && j < |c.layout| && |widths| <= 32 && c.trimmed == [j]
    requires c.codecs[j].Cached? && c.codecs[j].bits == |widths|
    requires Listed(c, bigEndian, buffer[..], Fields(c, bigEndian, buffer[..])[j], widths, codec)
    modifies buffer
    ensures buffer[..] == Normalised(c, bigEndian, old(buffer[..]))
    ensures identity == Parsed(c, bigEndian, old(buffer[..]))
  {
    ghost var m := buffer[..];
    identity := Fields(c, bigEndian, buffer[..]);
    LoopNormalises(c, bigEndian, m, identity[j], widths, codec);
    if buffer.Length > c.identitySize {
      BitsOfLow(identity[j], |widths|);
      identity := identity[j := LowWord(identity[j], |widths|)];
      MaskValues(buffer, bigEndian, c.identitySize, identity[j], widths);
    } else {
      assert m == m[..c.identitySize] + [];
    }
    TrimmedIsParsed(c, bigEndian, m, identity, j);
  }

  lemma TrimmedIsParsed(c: MessageClass, bigEndian: bool, m: Bytes, identity: seq<Word>, j: nat)
    requires WellFormed(c, bigEndian, m) && j < |c.layout| && c.trimmed == [j]
    requires identity ==
             var vs := Fields(c, bigEndian, m);
             if |m| > c.identitySize then vs[j := Delivered(c.codecs[j], vs[j])] else vs
    ensures identity == Parsed(c, bigEndian, m)
  {
  }

  method ParseCreateGC(buffer: array<Byte>, bigEndian: bool) returns (identity: seq<Word>)
    requires WellFormed(CREATE_GC, bigEndian, buffer[..])
    modifies buffer
    ensures buffer[..] == Normalised(CREATE_GC, bigEndian, old(buffer[..]))
    ensures identity == Parsed(CREATE_GC, bigEndian, old(buffer[..]))
  {
    GCReduces(0);
    assert GC_WIDTHS[0..] == GC_WIDTHS;
    identity := ParseListed(CREATE_GC, buffer, bigEndian, 2, GC_WIDTHS, GCValueCodec);
  }

  method ParseChangeGC(buffer: array<Byte>, bigEndian: bool) returns (identity: seq<Word>)
    requires WellFormed(CHANGE_GC, bigEndian, buffer[..])
    modifies buffer
    ensures buffer[..] == Normalised(CHANGE_GC, bigEndian, old(buffer[..]))
    ensures identity == Parsed(CHANGE_GC, bigEndian, old(buffer[..]))
  {
    GCReduces(0);
    assert GC_WIDTHS[0..] == GC_WIDTHS;
    identity := ParseListed(CHANGE_GC, buffer, bigEndian, 1, GC_WIDTHS, GCValueCodec);
  }

  method ParseConfigureWindow(buffer: array<Byte>, bigEndian: bool) returns (identity: seq<Word>)
    requires WellFormed(CONFIGURE_WINDOW, bigEndian, buffer[..])
    modifies buffer
    ensures buffer[..] == Normalised(CONFIGURE_WINDOW, bigEndian, old(buffer[..]))
    ensures identity == Parsed(CONFIGURE_WINDOW, bigEndian, old(buffer[..]))
  {
    WindowReduces(0);
    assert WINDOW_WIDTHS[0..] == WINDOW_WIDTHS;
    identity := ParseListed(CONFIGURE_WINDOW, buffer, bigEndian, 1, WINDOW_WIDTHS, WindowValueCodec);
  }

  // ----- Properties -----

  /** CleanData. */
  method Clean(buffer: array<Byte>, from: nat)
    requires from <= buffer.Length
    modifies buffer
    ensures buffer[..] == old(buffer[..from]) + Zeros(buffer.Length - from)
  {
    ghost var was := buffer[..];
    var i := from;
    while i < buffer.Length
      invariant from <= i <= buffer.Length
      invariant buffer[..i] == was[..from] + Zeros(i - from)
    {
      buffer[i] := 0;
      i := i + 1;
    }
    assert buffer[..i] == buffer[..];
  }

  /** parseIdentity of ChangeProperty: what pads the data is cleared. */
  method ParseChangeProperty(buffer: array<Byte>, bigEndian: bool) returns (identity: seq<Word>)
    requires WellFormed(CHANGE_PROPERTY, bigEndian, buffer[..])
    modifies buffer
    ensures buffer[..] == Normalised(CHANGE_PROPERTY, bigEndian, old(buffer[..]))
    ensures identity == Parsed(CHANGE_PROPERTY, bigEndian, old(buffer[..]))
  {
    ghost var m := buffer[..];
    identity := Fields(CHANGE_PROPERTY, bigEndian, buffer[..]);
    UntrimmedIsParsed(CHANGE_PROPERTY, bigEndian, m);
    PropertyWhole(bigEndian, m);
    if buffer.Length > CHANGE_PROPERTY.identitySize {
      Clean(buffer, CHANGE_PROPERTY.identitySize + LengthInBytes(identity[0], identity[1]));
    } else {
      assert m == m[..CHANGE_PROPERTY.identitySize] + Zeros(0);
    }
  }

  function LengthInBytes(format: Word, count: Word): nat {
    if format == 16 then 2 * count else if format == 32 then 4 * count else count
  }

  lemma UntrimmedIsParsed(c: MessageClass, bigEndian: bool, m: Bytes)
    requires c.SoundLayout() && |m| >= c.identitySize && c.trimmed == []
    ensures Parsed(c, bigEndian, m) == Fields(c, bigEndian, m)
  {
  }

  lemma PropertyBytes(format: Word, count: Word)
    requires format == 8 || format == 16 || format == 32
    ensures PropertyData(format, count).Size() == LengthInBytes(format, count)
  {
    SpanTimes(count, PropertyData(format, count).width);
  }

  lemma {:induction false} SpanTimes(n: nat, width: nat)
    ensures Span(n, width) == n * width
  {
    if n > 0 {
      SpanTimes(n - 1, width);
    }
  }

  lemma PropertyTail(bigEndian: bool, m: Bytes)
    requires WellFormed(CHANGE_PROPERTY, bigEndian, m)
    ensures var vs := Fields(CHANGE_PROPERTY, bigEndian, m);
            |vs| == 6 && TailOf(CHANGE_PROPERTY, bigEndian, m) == PropertyData(vs[0], vs[1]) &&
            (vs[0] == 8 || vs[0] == 16 || vs[0] == 32)
  {
  }

  /** Where the data of a property ends. */
  lemma PropertyWhole(bigEndian: bool, m: Bytes)
    requires WellFormed(CHANGE_PROPERTY, bigEndian, m)
    ensures var vs := Fields(CHANGE_PROPERTY, bigEndian, m);
            |vs| == 6 &&
            var end := CHANGE_PROPERTY.identitySize + LengthInBytes(vs[0], vs[1]);
            end <= |m| && Normalised(CHANGE_PROPERTY, bigEndian, m) == m[..end] + Zeros(|m| - end)
  {
    var vs := Fields(CHANGE_PROPERTY, bigEndian, m);
    PropertyTail(bigEndian, m);
    PropertyBytes(vs[0], vs[1]);
    WholeItems(CHANGE_PROPERTY, bigEndian, m, vs[0], vs[1]);
  }

  /** The items of a property are sent whole. */
  lemma WholeItems(c: MessageClass, bigEndian: bool, m: Bytes, format: Word, count: Word)
    requires WellFormed(c, bigEndian, m) && TailOf(c, bigEndian, m) == PropertyData(format, count)
    ensures var end := c.identitySize + TailOf(c, bigEndian, m).Size();
            end <= |m| && Normalised(c, bigEndian, m) == m[..end] + Zeros(|m| - end)
  {
    WholeValues(c, bigEndian, m, format, count);
    WholeBody(c, bigEndian, m);
  }

  lemma WholeValues(c: MessageClass, bigEndian: bool, m: Bytes, format: Word, count: Word)
    requires WellFormed(c, bigEndian, m) && TailOf(c, bigEndian, m) == PropertyData(format, count)
    ensures DeliverAll(TailOf(c, bigEndian, m).codecs, TailValues(c, bigEndian, m)) == TailValues(c, bigEndian, m)
  {
    var t, vs := TailOf(c, bigEndian, m), TailValues(c, bigEndian, m);
    forall j | 0 <= j < |vs| ensures Delivered(t.codecs[j], vs[j]) == vs[j] {
      ValueBound(bigEndian, m, c.identitySize, t.width, |t.codecs|, j);
      WholeItem(t, format, count, vs[j], j);
    }
  }

  lemma WholeBody(c: MessageClass, bigEndian: bool, m: Bytes)
    requires WellFormed(c, bigEndian, m)
    requires DeliverAll(TailOf(c, bigEndian, m).codecs, TailValues(c, bigEndian, m)) == TailValues(c, bigEndian, m)
    ensures var end := c.identitySize + TailOf(c, bigEndian, m).Size();
            end <= |m| && Normalised(c, bigEndian, m) == m[..end] + Zeros(|m| - end)
  {
    var t, n := TailOf(c, bigEndian, m), c.identitySize;
    StoredValues(bigEndian, m, n, t.width, |t.codecs|);
    assert DeliveredBody(c, bigEndian, m) == m[n..n + t.Size()];
    FrontJoined(m, n, n + t.Size(), Zeros(|m| - n - t.Size()));
  }

  lemma FrontJoined(m: Bytes, a: nat, b: nat, z: Bytes)
    requires a <= b <= |m|
    ensures m[..a] + (m[a..b] + z) == m[..b] + z
  {
  }

  lemma WholeItem(t: Tail, format: Word, count: Word, v: Word, j: nat)
    requires t == PropertyData(format, count) && j < |t.codecs| && v < Pow2(8 * t.width)
    ensures Delivered(t.codecs[j], v) == v
  {
    Pow2Constants();
    LowIdentity(v, 16);
    LowIdentity(v, 32);
  }
}
