/** Each reading function of the decoding side finds what the matching tokens were written for. */
module Arrivals {
  import opened Words
  import opened Buffers
  import opened ClientCache
  import opened Tokens
  import opened Streams
  import opened Messages
  import opened Rebuilding
  import opened Exchange

  lemma FlagArrives(r: Receiver, b: bool, k: Caches)
    requires Before(r, [Flag(b)], k)
    ensures var g := ReadFlag(r);
            g.FlagRead? && g.flag == b && Behind(g.next, r, [Flag(b)], k)
  {
    OneArrives(r, Flag(b), k);
    Pow2Constants();
  }

  lemma BytesDelivered(d: Bytes)
    ensures Truncated(DeliveredOf(Zip(RawCodecs(|d|), d))) == d
  {
  }

  lemma CodecsOfZip(cs: seq<ValidCodec>, vs: seq<Word>)
    requires |cs| == |vs|
    ensures CodecsOf(Zip(cs, vs)) == cs && DeliveredOf(Zip(cs, vs)) == DeliverAll(cs, vs)
  {
  }

  lemma ZipArrives(r: Receiver, cs: seq<ValidCodec>, vs: seq<Word>, k: Caches)
    requires |cs| == |vs| && Before(r, Zip(cs, vs), k)
    ensures var g := ReceiveAll(cs, r);
            g.ReceivedAll? && g.values == DeliverAll(cs, vs) && Behind(g.next, r, Zip(cs, vs), k)
  {
    CodecsOfZip(cs, vs);
    AllArrive(r, Zip(cs, vs), k);
  }

  lemma BytesArrive(r: Receiver, d: Bytes, k: Caches)
    requires Before(r, BytesTokens(d), k)
    ensures var g := ReadBytes(|d|, r);
            g.BytesRead? && g.bytes == d && Behind(g.next, r, BytesTokens(d), k)
  {
    var head, rest := [Token(Align, 0)], Zip(RawCodecs(|d|), d);
    BeforeSplit(r, head, rest, k);
    OneArrives(r, head[0], k);
    var r' := Receive(Align, r).next;
    ZipArrives(r', RawCodecs(|d|), d, AfterAll(head, k));
    CodecsOfZip(RawCodecs(|d|), d);
    BytesDelivered(d);
    BehindBoth(ReceiveAll(RawCodecs(|d|), r').next, r', r, head, rest, k);
  }

  lemma ValuesArrive(r: Receiver, t: Tail, bigEndian: bool, vs: seq<Word>, k: Caches)
    requires |vs| == |t.codecs| && Before(r, Zip(t.codecs, vs), k)
    ensures var g := ReadValues(t, bigEndian, r);
            g.BytesRead? && g.bytes == Stored(bigEndian, DeliverAll(t.codecs, vs), t.width) &&
            Behind(g.next, r, Zip(t.codecs, vs), k)
  {
    ZipArrives(r, t.codecs, vs, k);
  }

  lemma BodyArrives(r: Receiver, s: Store, m: Bytes, k: Caches)
    requires Good(s, m) && Before(r, BodyTokens(s, m), k)
    ensures var g := ReadBody(TailFor(s, m), s.bigEndian, r);
            g.BytesRead? && |g.bytes| <= RoundUp4(TailFor(s, m).Size()) == |DataOf(s, m)| &&
            HasBody(s, m, g.bytes) && Behind(g.next, r, BodyTokens(s, m), k)
  {
    GoodFacts(s, m);
    TailArrives(r, TailFor(s, m), s.bigEndian, TailValues(s.c, s.bigEndian, m), k);
  }

  ghost predicate HasBody(s: Store, m: Bytes, body: Bytes)
    requires Good(s, m)
  {
    GoodFacts(s, m);
    body == DeliveredBody(s.c, s.bigEndian, m)
  }

  lemma TailArrives(r: Receiver, t: Tail, bigEndian: bool, vs: seq<Word>, k: Caches)
    requires |vs| == |t.codecs|
    requires Before(r, AlignedTokens(t, vs), k)
    ensures var g := ReadBody(t, bigEndian, r);
            g.BytesRead? && g.bytes == Stored(bigEndian, DeliverAll(t.codecs, vs), t.width) &&
            Behind(g.next, r, AlignedTokens(t, vs), k)
  {
    var rest := Zip(t.codecs, vs);
    if t.align {
      var head := [Token(Align, 0)];
      BeforeSplit(r, head, rest, k);
      OneArrives(r, head[0], k);
      var r' := Receive(Align, r).next;
      ValuesArrive(r', t, bigEndian, vs, AfterAll(head, k));
      BehindBoth(ReadValues(t, bigEndian, r').next, r', r, head, rest, k);
    } else {
      assert [] + rest == rest;
      ValuesArrive(r, t, bigEndian, vs, k);
    }
  }

  // ----- Compressed data -----

  /** What is kept of a data part that was compressed, or was not. */
  ghost predicate Keeps(k: Compressor, g: DataReading, d: Bytes) {
    && g.DataRead?
    && g.data == d
    && g.compressed == (d != [] && k.Smaller(d).Some?)
    && g.kept == if g.compressed then k.Smaller(d).value else d
  }

  lemma PlainArrives(r: Receiver, d: Bytes, k: Caches)
    requires Before(r, [Flag(false)] + BytesTokens(d), k)
    ensures var g := ReadFlag(r);
            g.FlagRead? && !g.flag && var h := ReadBytes(|d|, g.next);
            h.BytesRead? && h.bytes == d && Behind(h.next, r, [Flag(false)] + BytesTokens(d), k)
  {
    var head := [Flag(false)];
    BeforeSplit(r, head, BytesTokens(d), k);
    FlagArrives(r, false, k);
    var r' := ReadFlag(r).next;
    BytesArrive(r', d, AfterAll(head, k));
    BehindBoth(ReadBytes(|d|, r').next, r', r, head, BytesTokens(d), k);
  }

  function Sizes(z: Bytes, d: Bytes): seq<Token>
    requires |z| < 0x1_0000_0000 && |d| < 0x1_0000_0000
  {
    Zip([SIZE_CODE, SIZE_CODE], [|z|, |d|])
  }

  lemma SizesRead(r: Receiver, z: Bytes, d: Bytes, k: Caches)
    requires |z| < 0x1_0000_0000 && |d| < 0x1_0000_0000 && Before(r, Sizes(z, d), k)
    ensures var g := ReceiveAll([SIZE_CODE, SIZE_CODE], r);
            g.ReceivedAll? && g.values == [|z|, |d|] && Behind(g.next, r, Sizes(z, d), k)
  {
    ZipArrives(r, [SIZE_CODE, SIZE_CODE], [|z|, |d|], k);
    SizesWhole(|z|, |d|);
  }

  lemma SizesWhole(a: Word, b: Word)
    ensures DeliverAll([SIZE_CODE, SIZE_CODE], [a, b]) == [a, b]
  {
    Pow2Constants();
  }

  lemma SizesArrive(r: Receiver, z: Bytes, d: Bytes, k: Caches)
    requires |z| < 0x1_0000_0000 && |d| < 0x1_0000_0000
    requires Before(r, Sizes(z, d) + BytesTokens(z), k)
    ensures var g := ReceiveAll([SIZE_CODE, SIZE_CODE], r);
            g.ReceivedAll? && g.values == [|z|, |d|] &&
            var h := ReadBytes(|z|, g.next);
            h.BytesRead? && h.bytes == z && Behind(h.next, r, Sizes(z, d) + BytesTokens(z), k)
  {
    var head, rest := Sizes(z, d), BytesTokens(z);
    BeforeSplit(r, head, rest, k);
    SizesRead(r, z, d, k);
    var r' := ReceiveAll([SIZE_CODE, SIZE_CODE], r).next;
    BytesArrive(r', z, AfterAll(head, k));
    BehindBoth(ReadBytes(|z|, r').next, r', r, head, rest, k);
  }

  lemma SizedArrives(r: Receiver, z: Bytes, c: Compressor, d: Bytes, k: Caches)
    requires |z| < 0x1_0000_0000 && |d| < 0x1_0000_0000 && c.decompress(z, |d|) == Some(d)
    requires Before(r, Sizes(z, d) + BytesTokens(z), k)
    ensures var g := ReadCompressedSizes(c, |d|, r);
            g.DataRead? && g == DataRead(d, z, true, g.next) && Behind(g.next, r, Sizes(z, d) + BytesTokens(z), k)
  {
    SizesArrive(r, z, d, k);
  }

  lemma CompressedArrives(r: Receiver, z: Bytes, c: Compressor, d: Bytes, k: Caches)
    requires |z| < |d| < 0x1_0000_0000 && c.decompress(z, |d|) == Some(d)
    requires Before(r, [Flag(true)] + (Sizes(z, d) + BytesTokens(z)), k)
    ensures var g := ReadFlag(r);
            g.FlagRead? && g.flag && var h := ReadCompressedSizes(c, |d|, g.next);
            h.DataRead? && h == DataRead(d, z, true, h.next) &&
            Behind(h.next, r, [Flag(true)] + (Sizes(z, d) + BytesTokens(z)), k)
  {
    var head, rest := [Flag(true)], Sizes(z, d) + BytesTokens(z);
    BeforeSplit(r, head, rest, k);
    FlagArrives(r, true, k);
    var r' := ReadFlag(r).next;
    SizedArrives(r', z, c, d, AfterAll(head, k));
    BehindBoth(ReadCompressedSizes(c, |d|, r').next, r', r, head, rest, k);
  }

  lemma CompressTokensShape(c: Compressor, d: Bytes)
    requires 0 < |d| < 0x1_0000_0000
    ensures CompressTokens(c, d) ==
            match c.Smaller(d)
            case None => [Flag(false)] + BytesTokens(d)
            case Some(z) => [Flag(true)] + (Sizes(z, d) + BytesTokens(z))
  {
    if c.Smaller(d).Some? {
      var z := c.Smaller(d).value;
      assert Sizes(z, d) == [Token(SIZE_CODE, |z|), Token(SIZE_CODE, |d|)];
      assert [Flag(true), Token(SIZE_CODE, |z|), Token(SIZE_CODE, |d|)] == [Flag(true)] + Sizes(z, d);
    }
  }

  lemma CompressArrives(r: Receiver, c: Compressor, d: Bytes, k: Caches)
    requires |d| < 0x1_0000_0000 && c.Faithful() && Before(r, CompressTokens(c, d), k)
    ensures var g := ReadCompressed(c, |d|, r);
            Keeps(c, g, d) && Behind(g.next, r, CompressTokens(c, d), k)
  {
    if d != [] {
      CompressTokensShape(c, d);
      match c.Smaller(d)
      case None => PlainArrives(r, d, k);
      case Some(z) => CompressedArrives(r, z, c, d, k);
    } else {
      NothingRead(r, k);
    }
  }

  // ----- Data parts -----

  function SizeKept(s: Store, g: DataReading): nat
    requires g.DataRead?
  {
    if g.compressed then |g.kept| + s.c.identitySize else 0
  }

  /** A kept data part is the one sent, or what that was compressed to. */
  ghost predicate KeptFor(s: Store, m: Bytes, g: DataReading)
    requires Good(s, m)
  {
    var d := DataOf(s, m);
    && g.DataRead?
    && g.data == d
    && SizeKept(s, g) == AddedSize(s, m)
    && if g.compressed then s.compressor.decompress(g.kept, |d|) == Some(d) else g.kept == d
  }

  /** A data part that tells the X server what that of m tells it. */
  ghost predicate Carries(s: Store, m: Bytes, data: Bytes)
    requires Good(s, m)
  {
    GoodFacts(s, m);
    SameBody(s.c, s.bigEndian, m, data)
  }

  lemma OwnData(s: Store, m: Bytes)
    requires Good(s, m)
    ensures Carries(s, m, DataOf(s, m))
  {
    GoodFacts(s, m);
  }

  function BodyOf(s: Store, m: Bytes): (body: Bytes)
    requires Good(s, m)
    ensures |body| <= |DataOf(s, m)| && DataOf(s, m) == body + Zeros(|DataOf(s, m)| - |body|)
  {
    GoodFacts(s, m);
    DeliveredBody(s.c, s.bigEndian, m)
  }

  /** The data part that is written out: the padding of a request that is not saved is what was in
      the write buffer. */
  function WrittenData(s: Store, m: Bytes, saved: bool, scratch: Bytes): (d: Bytes)
    requires Good(s, m)
    ensures |d| == |m| - s.c.identitySize
  {
    Padded(BodyOf(s, m), |DataOf(s, m)|, saved, scratch, s.c.identitySize)
  }

  /** The data part arrives, and in a form that can be kept if it is to be saved. */
  ghost predicate DataArrived(s: Store, m: Bytes, saved: bool, scratch: Bytes, g: DataReading)
    requires Good(s, m)
  {
    g.DataRead? && g.data == WrittenData(s, m, saved, scratch) && Carries(s, m, g.data) && (saved ==> KeptFor(s, m, g))
  }

  lemma SavedData(s: Store, m: Bytes, scratch: Bytes)
    requires Good(s, m)
    ensures WrittenData(s, m, true, scratch) == DataOf(s, m)
  {
  }

  /** Raw bytes leave no room for padding. */
  lemma RawUnpadded(s: Store, m: Bytes, saved: bool, scratch: Bytes)
    requires Good(s, m) && s.coding.General?
    ensures WrittenData(s, m, saved, scratch) == DataOf(s, m)
  {
    RawFull(s, m);
    FullyPadded(BodyOf(s, m), saved, scratch, s.c.identitySize);
    FullyPadded(BodyOf(s, m), true, scratch, s.c.identitySize);
    SavedData(s, m, scratch);
  }

  lemma FullyPadded(body: Bytes, saved: bool, scratch: Bytes, from: nat)
    ensures Padded(body, |body|, saved, scratch, from) == body
  {
  }

  lemma RawFull(s: Store, m: Bytes)
    requires Good(s, m) && s.coding.General?
    ensures |BodyOf(s, m)| == |DataOf(s, m)|
  {
    GoodFacts(s, m);
    RawSpan(s, TailOf(s.c, s.bigEndian, m));
  }

  lemma RawSpan(s: StoreTraits, t: Tail)
    requires s.Raw(t)
    ensures RoundUp4(t.Size()) == t.Size()
  {
    SpanOne(|t.codecs|);
  }

  lemma {:induction false} SpanOne(n: nat)
    ensures Span(n, 1) == n
  {
    if n > 0 {
      SpanOne(n - 1);
    }
  }

  lemma DataArrives(r: Receiver, s: Store, m: Bytes, saved: bool, scratch: Bytes, k: Caches)
    requires Good(s, m) && Before(r, DataTokens(s, m), k)
    ensures var g := ReadData(s, TailFor(s, m), saved, scratch, r);
            DataArrived(s, m, saved, scratch, g) && Behind(g.next, r, DataTokens(s, m), k)
  {
    if s.Compresses() {
      CompressedDataArrives(r, s, m, saved, scratch, k);
    } else if s.coding.General? && !s.coding.data {
      NoDataArrives(r, s, m, saved, scratch, k);
    } else {
      PlainDataArrives(r, s, m, saved, scratch, k);
    }
  }

  lemma NoDataArrives(r: Receiver, s: Store, m: Bytes, saved: bool, scratch: Bytes, k: Caches)
    requires Good(s, m) && s.coding.General? && !s.coding.data && Before(r, [], k)
    ensures var g := ReadData(s, TailFor(s, m), saved, scratch, r);
            DataArrived(s, m, saved, scratch, g) && Behind(g.next, r, [], k)
  {
    NothingRead(r, k);
    NoData(s, m);
    OwnData(s, m);
    RawUnpadded(s, m, saved, scratch);
  }

  lemma NoData(s: Store, m: Bytes)
    requires Good(s, m) && s.coding.General? && !s.coding.data
    ensures DataOf(s, m) == [] && TailFor(s, m).codecs == []
  {
    GoodFacts(s, m);
  }

  lemma RawSize(s: Store, m: Bytes)
    requires Good(s, m) && s.coding.General?
    ensures RoundUp4(TailFor(s, m).Size()) == |DataOf(s, m)|
  {
    GoodFacts(s, m);
  }

  lemma CompressedDataArrives(r: Receiver, s: Store, m: Bytes, saved: bool, scratch: Bytes, k: Caches)
    requires Good(s, m) && s.Compresses() && Before(r, CompressTokens(s.compressor, DataOf(s, m)), k)
    ensures var g := ReadData(s, TailFor(s, m), saved, scratch, r);
            DataArrived(s, m, saved, scratch, g) && Behind(g.next, r, CompressTokens(s.compressor, DataOf(s, m)), k)
  {
    RawSize(s, m);
    Faithful(s);
    CompressArrives(r, s.compressor, DataOf(s, m), k);
    OwnData(s, m);
    RawUnpadded(s, m, saved, scratch);
  }

  lemma Faithful(s: Store)
    ensures s.compressor.Faithful()
  {
    StoreFacts(s);
  }

  lemma PlainDataArrives(r: Receiver, s: Store, m: Bytes, saved: bool, scratch: Bytes, k: Caches)
    requires Good(s, m) && !s.Compresses() && (s.coding.Direct? || s.coding.data) && Before(r, BodyTokens(s, m), k)
    ensures var g := ReadData(s, TailFor(s, m), saved, scratch, r);
            DataArrived(s, m, saved, scratch, g) && Behind(g.next, r, BodyTokens(s, m), k)
  {
    BodyArrives(r, s, m, k);
    var body := ReadBody(TailFor(s, m), s.bigEndian, r).bytes;
    PaddedCarries(s, m, body, saved, scratch);
  }

  lemma PaddedCarries(s: Store, m: Bytes, body: Bytes, saved: bool, scratch: Bytes)
    requires Good(s, m) && HasBody(s, m, body) && |body| <= |DataOf(s, m)|
    ensures var d := Padded(body, |DataOf(s, m)|, saved, scratch, s.c.identitySize);
            Carries(s, m, d) && d == WrittenData(s, m, saved, scratch) && (saved ==> d == DataOf(s, m))
  {
    GoodFacts(s, m);
  }
}
