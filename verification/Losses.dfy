/**
 What the requests of a client lose on their way: for each class, which of them cross the link
 unharmed, in numbers; and requests that do not.
 */
module Losses {
  import opened Words
  import opened Buffers
  import opened ClientCache
  import opened BitCodec
  import opened Tokens
  import opened Streams
  import opened Messages
  import opened Rebuilding
  import opened Exchange
  import opened Coherence
  import opened Splits
  import opened Channel
  import opened Runs
  import opened Sessions
  import opened Classes
  import opened Fidelity
  import opened Proxy

  // ----- Identities -----

  predicate IsXid(v: Word) {
    v < 0x2000_0000
  }

  /** Which identities arrive whole: identifiers must have their top three bits clear, masks no bit
      that stands for no value, the mode of a property and the format of an image two bits.  The
      other fields always have room. */
  predicate IdentityFits(k: Kind, vs: seq<Word>) {
    match k
    case CreateGC => IsXid(Nth(vs, 0)) && IsXid(Nth(vs, 1)) && Nth(vs, 2) < 0x80_0000
    case ChangeGC => IsXid(Nth(vs, 0)) && Nth(vs, 1) < 0x80_0000
    case ConfigureWindow => IsXid(Nth(vs, 0)) && Nth(vs, 1) < 0x80
    case CopyArea => IsXid(Nth(vs, 0)) && IsXid(Nth(vs, 1)) && IsXid(Nth(vs, 2))
    case ChangeProperty => Nth(vs, 2) < 4 && IsXid(Nth(vs, 3)) && IsXid(Nth(vs, 4)) && IsXid(Nth(vs, 5))
    case CreatePixmap => IsXid(Nth(vs, 1)) && IsXid(Nth(vs, 2))
    case PutImage => Nth(vs, 1) < 4 && IsXid(Nth(vs, 2)) && IsXid(Nth(vs, 3))
  }

  lemma CreateGCRoom(vs: seq<Word>)
    requires |vs| == 3
    ensures HaveRoom(CREATE_GC.codecs, vs) <==> IdentityFits(CreateGC, vs)
  {
    Pow2Constants();
    RoomOfThree(CREATE_GC.codecs, vs);
  }

  lemma RoomOfThree(codecs: seq<ValidCodec>, vs: seq<Word>)
    requires |codecs| == |vs| == 3
    ensures HaveRoom(codecs, vs) <==> (vs[0] < Pow2(Room(codecs[0])) && vs[1] < Pow2(Room(codecs[1])) && vs[2] < Pow2(Room(codecs[2])))
  {
  }

  lemma ChangeGCRoom(vs: seq<Word>)
    requires |vs| == 2
    ensures HaveRoom(CHANGE_GC.codecs, vs) <==> IdentityFits(ChangeGC, vs)
  {
    Pow2Constants();
    RoomOfTwo(CHANGE_GC.codecs, vs);
  }

  lemma RoomOfTwo(codecs: seq<ValidCodec>, vs: seq<Word>)
    requires |codecs| == |vs| == 2
    ensures HaveRoom(codecs, vs) <==> (vs[0] < Pow2(Room(codecs[0])) && vs[1] < Pow2(Room(codecs[1])))
  {
  }

  lemma ConfigureWindowRoom(vs: seq<Word>)
    requires |vs| == 2
    ensures HaveRoom(CONFIGURE_WINDOW.codecs, vs) <==> IdentityFits(ConfigureWindow, vs)
  {
    Pow2Constants();
    RoomOfTwo(CONFIGURE_WINDOW.codecs, vs);
  }

  /** The fields that have room whatever their value is. */
  predicate AlwaysFits(c: MessageClass, j: nat)
    requires |c.codecs| == |c.layout|
  {
    j < |c.layout| && 8 * c.layout[j].width == Room(c.codecs[j])
  }

  /** Only the fields with a narrower code matter. */
  lemma RoomOfOthers(c: MessageClass, vs: seq<Word>)
    requires c.Storable(vs) && |c.codecs| == |c.layout|
    ensures HaveRoom(c.codecs, vs) <==>
            forall j :: 0 <= j < |vs| && !AlwaysFits(c, j) ==> vs[j] < Pow2(Room(c.codecs[j]))
  {
  }

  lemma CopyAreaRoom(vs: seq<Word>)
    requires COPY_AREA.Storable(vs)
    ensures |vs| == 9 && (HaveRoom(COPY_AREA.codecs, vs) <==> IdentityFits(CopyArea, vs))
  {
    Pow2Constants();
    RoomOfOthers(COPY_AREA, vs);
    assert forall j :: 0 <= j < 9 ==> (AlwaysFits(COPY_AREA, j) <==> j >= 3);
    assert Room(COPY_AREA.codecs[0]) == Room(COPY_AREA.codecs[1]) == Room(COPY_AREA.codecs[2]) == XID_BITS;
  }

  lemma ChangePropertyRoom(vs: seq<Word>)
    requires CHANGE_PROPERTY.Storable(vs)
    ensures |vs| == 6 && (HaveRoom(CHANGE_PROPERTY.codecs, vs) <==> IdentityFits(ChangeProperty, vs))
  {
    Pow2Constants();
    RoomOfOthers(CHANGE_PROPERTY, vs);
    assert forall j :: 0 <= j < 6 ==> (AlwaysFits(CHANGE_PROPERTY, j) <==> j <= 1);
    assert Room(CHANGE_PROPERTY.codecs[2]) == 2;
    assert Room(CHANGE_PROPERTY.codecs[3]) == Room(CHANGE_PROPERTY.codecs[4]) == Room(CHANGE_PROPERTY.codecs[5]) == XID_BITS;
  }

  lemma CreatePixmapRoom(vs: seq<Word>)
    requires CREATE_PIXMAP.Storable(vs)
    ensures |vs| == 5 && (HaveRoom(CREATE_PIXMAP.codecs, vs) <==> IdentityFits(CreatePixmap, vs))
  {
    Pow2Constants();
    RoomOfOthers(CREATE_PIXMAP, vs);
    assert forall j :: 0 <= j < 5 ==> (AlwaysFits(CREATE_PIXMAP, j) <==> j != 1 && j != 2);
    assert Room(CREATE_PIXMAP.codecs[1]) == Room(CREATE_PIXMAP.codecs[2]) == XID_BITS;
  }

  lemma PutImageRoom(vs: seq<Word>)
    requires PUT_IMAGE.Storable(vs)
    ensures |vs| == 10 && (HaveRoom(PUT_IMAGE.codecs, vs) <==> IdentityFits(PutImage, vs))
  {
    RoomOfOthers(PUT_IMAGE, vs);
    PutImageNarrow();
    Pow2Constants();
  }

  lemma PutImageNarrow()
    ensures |PUT_IMAGE.codecs| == |PUT_IMAGE.layout| == 10
    ensures forall j :: 0 <= j < 10 ==> (AlwaysFits(PUT_IMAGE, j) <==> j == 0 || j >= 4)
    ensures Room(PUT_IMAGE.codecs[1]) == 2 && Room(PUT_IMAGE.codecs[2]) == Room(PUT_IMAGE.codecs[3]) == XID_BITS
  {
  }

  /** For each class, the identities that arrive whole. */
  lemma IdentityRoom(k: Kind, bigEndian: bool, m: Bytes)
    requires WellFormed(ClassOf(k), bigEndian, m)
    ensures HaveRoom(ClassOf(k).codecs, Fields(ClassOf(k), bigEndian, m)) <==>
            IdentityFits(k, Fields(ClassOf(k), bigEndian, m))
  {
    var vs := Fields(ClassOf(k), bigEndian, m);
    FieldsStorable(ClassOf(k), bigEndian, m);
    match k
    case CreateGC => CreateGCRoom(vs);
    case ChangeGC => ChangeGCRoom(vs);
    case ConfigureWindow => ConfigureWindowRoom(vs);
    case CopyArea => CopyAreaRoom(vs);
    case ChangeProperty => ChangePropertyRoom(vs);
    case CreatePixmap => CreatePixmapRoom(vs);
    case PutImage => PutImageRoom(vs);
  }

  // ----- Values -----

  /** The values of the fields of a GC, by the bits of its mask (CreateGC in section 9 of the X Window
      System Protocol, Version 11): function; plane mask, foreground and background; line width; line,
      cap, join and fill style; fill rule; tile and stipple; tile and stipple origin; font; subwindow
      mode and graphics exposures; clip origin; clip mask; dash offset; dashes; arc mode. */
  predicate GCValueFits(i: nat, v: Word) {
    match i
    case 0 => v < 16
    case 1 | 2 | 3 => true
    case 4 => v < 0x1_0000
    case 5 | 6 | 7 | 8 => v < 4
    case 9 => v < 2
    case 10 | 11 => IsXid(v)
    case 12 | 13 => v < 0x1_0000
    case 14 => IsXid(v)
    case 15 | 16 => v < 2
    case 17 | 18 => v < 0x1_0000
    case 19 => IsXid(v)
    case 20 => v < 0x1_0000
    case 21 => v < 0x100
    case 22 => v < 2
    case _ => true
  }

  /** The values of ConfigureWindow: position, size and border width; sibling; stack mode. */
  predicate WindowValueFits(i: nat, v: Word) {
    match i
    case 0 | 1 | 2 | 3 | 4 => v < 0x1_0000
    case 5 => IsXid(v)
    case 6 => v < 8
    case _ => true
  }

  /** Each value that one of the n low bits of a mask asks for is within its bounds. */
  predicate ListFits(mask: Word, n: nat, fits: (nat, Word) -> bool, values: seq<Word>) {
    var ix := SetBits(BitsOf(mask, n), 0);
    forall j :: 0 <= j < |ix| && j < |values| ==> fits(ix[j], values[j])
  }

  /** Which values behind the identity arrive whole.  Those of properties and images always do. */
  predicate ValuesFit(k: Kind, identity: seq<Word>, values: seq<Word>) {
    match k
    case CreateGC => ListFits(Nth(identity, 2), 23, GCValueFits, values)
    case ChangeGC => ListFits(Nth(identity, 1), 23, GCValueFits, values)
    case ConfigureWindow => ListFits(Nth(identity, 1), 7, WindowValueFits, values)
    case _ => true
  }

  lemma GCValueRoom(i: nat, v: Word)
    requires i < 23
    ensures v < Pow2(Room(GCValueCodec(i))) <==> GCValueFits(i, v)
  {
    Pow2Constants();
  }

  lemma WindowValueRoom(i: nat, v: Word)
    requires i < 7
    ensures v < Pow2(Room(WindowValueCodec(i))) <==> WindowValueFits(i, v)
  {
    Pow2Constants();
  }

  lemma ListRoom(mask: Word, n: nat, codec: nat -> ValidCodec, fits: (nat, Word) -> bool, values: seq<Word>)
    requires forall i: nat, v: Word :: i < n ==> (v < Pow2(Room(codec(i))) <==> fits(i, v))
    requires |values| == |ValueList(mask, n, codec).codecs|
    ensures HaveRoom(ValueList(mask, n, codec).codecs, values) <==> ListFits(mask, n, fits, values)
  {
    var ix := SetBits(BitsOf(mask, n), 0);
    assert forall j :: 0 <= j < |ix| ==> ix[j] < n;
  }

  lemma GCListRoom(mask: Word, values: seq<Word>)
    requires |values| == |ValueList(mask, GC_FIELDS, GCValueCodec).codecs|
    ensures HaveRoom(ValueList(mask, GC_FIELDS, GCValueCodec).codecs, values) <==> ListFits(mask, 23, GCValueFits, values)
  {
    forall i: nat, v: Word | i < 23 ensures v < Pow2(Room(GCValueCodec(i))) <==> GCValueFits(i, v) {
      GCValueRoom(i, v);
    }
    ListRoom(mask, GC_FIELDS, GCValueCodec, GCValueFits, values);
  }

  lemma WindowListRoom(mask: Word, values: seq<Word>)
    requires |values| == |ValueList(mask, WINDOW_FIELDS, WindowValueCodec).codecs|
    ensures HaveRoom(ValueList(mask, WINDOW_FIELDS, WindowValueCodec).codecs, values) <==>
            ListFits(mask, 7, WindowValueFits, values)
  {
    forall i: nat, v: Word | i < 7 ensures v < Pow2(Room(WindowValueCodec(i))) <==> WindowValueFits(i, v) {
      WindowValueRoom(i, v);
    }
    ListRoom(mask, WINDOW_FIELDS, WindowValueCodec, WindowValueFits, values);
  }

  /** A value of as many bits as its code arrives whole. */
  lemma WideRoom(t: Tail, values: seq<Word>)
    requires |values| == |t.codecs| && forall j :: 0 <= j < |values| ==> values[j] < Pow2(8 * t.width)
    requires forall j :: 0 <= j < |t.codecs| ==> Room(t.codecs[j]) == 8 * t.width
    ensures HaveRoom(t.codecs, values)
  {
  }

  /** For each class, the values that arrive whole. */
  lemma ValuesRoom(k: Kind, bigEndian: bool, m: Bytes)
    requires WellFormed(ClassOf(k), bigEndian, m)
    ensures HaveRoom(TailOf(ClassOf(k), bigEndian, m).codecs, TailValues(ClassOf(k), bigEndian, m)) <==>
            ValuesFit(k, Fields(ClassOf(k), bigEndian, m), TailValues(ClassOf(k), bigEndian, m))
  {
    var vs, values := Fields(ClassOf(k), bigEndian, m), TailValues(ClassOf(k), bigEndian, m);
    match k
    case CreateGC => GCListRoom(Nth(vs, 2), values);
    case ChangeGC => GCListRoom(Nth(vs, 1), values);
    case ConfigureWindow => WindowListRoom(Nth(vs, 1), values);
    case _ => WideValuesRoom(k, bigEndian, m);
  }

  lemma WideTail(k: Kind, identity: seq<Word>)
    requires !k.CreateGC? && !k.ChangeGC? && !k.ConfigureWindow? && ClassOf(k).accepts(identity)
    ensures var t := ClassOf(k).tail(identity); forall j :: 0 <= j < |t.codecs| ==> Room(t.codecs[j]) == 8 * t.width
  {
  }

  lemma WideValuesRoom(k: Kind, bigEndian: bool, m: Bytes)
    requires !k.CreateGC? && !k.ChangeGC? && !k.ConfigureWindow? && WellFormed(ClassOf(k), bigEndian, m)
    ensures HaveRoom(TailOf(ClassOf(k), bigEndian, m).codecs, TailValues(ClassOf(k), bigEndian, m))
  {
    TailValuesFit(ClassOf(k), bigEndian, m);
    WideTail(k, Fields(ClassOf(k), bigEndian, m));
    WideRoom(TailOf(ClassOf(k), bigEndian, m), TailValues(ClassOf(k), bigEndian, m));
  }

  // ----- Unused bytes -----

  function UnusedBytes(k: Kind): set<nat> {
    match k
    case CreateGC => {1}
    case ChangeGC => {1}
    case ConfigureWindow => {1, 10, 11}
    case CopyArea => {1}
    case ChangeProperty => {17, 18, 19}
    case CreatePixmap => {}
    case PutImage => {22, 23}
  }

  lemma UnusedAre(k: Kind, i: nat)
    requires i < ClassOf(k).identitySize
    ensures Unused(ClassOf(k).layout, i) <==> i in UnusedBytes(k)
  {
    var f := ClassOf(k).layout;
    match k
    case CreateGC => assert i < 4 || Covers(f[0], i) || Covers(f[1], i) || Covers(f[2], i);
    case ChangeGC => assert i < 4 || Covers(f[0], i) || Covers(f[1], i);
    case ConfigureWindow => assert i < 4 || i > 9 || Covers(f[0], i) || Covers(f[1], i);
    case CopyArea => UnusedCopyArea(i);
    case ChangeProperty =>
      assert i == 0 || 2 <= i < 4 || 17 <= i < 20 || Covers(f[0], i) || Covers(f[1], i) || Covers(f[2], i) ||
             Covers(f[3], i) || Covers(f[4], i) || Covers(f[5], i);
    case CreatePixmap =>
      assert i == 0 || 2 <= i < 4 || Covers(f[0], i) || Covers(f[1], i) || Covers(f[2], i) || Covers(f[3], i) || Covers(f[4], i);
    case PutImage => UnusedPutImage(i);
  }

  lemma UnusedCopyArea(i: nat)
    requires i < 28
    ensures Unused(COPY_AREA.layout, i) <==> i == 1
  {
    var f := COPY_AREA.layout;
    assert i < 4 || Covers(f[0], i) || Covers(f[1], i) || Covers(f[2], i) || Covers(f[3], i) || Covers(f[4], i) ||
           Covers(f[5], i) || Covers(f[6], i) || Covers(f[7], i) || Covers(f[8], i);
  }

  lemma UnusedPutImage(i: nat)
    requires i < 24
    ensures Unused(PUT_IMAGE.layout, i) <==> i == 22 || i == 23
  {
    var f := PUT_IMAGE.layout;
    assert i == 0 || i > 21 || Covers(f[0], i) || Covers(f[1], i) || Covers(f[2], i) || Covers(f[3], i) || Covers(f[4], i) ||
           Covers(f[5], i) || Covers(f[6], i) || Covers(f[7], i) || Covers(f[8], i) || Covers(f[9], i);
  }

  // ----- Requests -----

  lemma IdentityRoomOf(t: Settings, k: Kind, m: Bytes)
    requires Good(StoreOf(t, k), m)
    ensures HaveRoom(StoreOf(t, k).c.codecs, FieldsOf(StoreOf(t, k), m)) <==> IdentityFits(k, FieldsOf(StoreOf(t, k), m))
  {
    GoodFacts(StoreOf(t, k), m);
    IdentityRoom(k, t.bigEndian, m);
  }

  lemma ValuesRoomOf(t: Settings, k: Kind, m: Bytes)
    requires Good(StoreOf(t, k), m)
    ensures var s := StoreOf(t, k);
            HaveRoom(TailFor(s, m).codecs, ValuesOf(s, m)) <==> ValuesFit(k, FieldsOf(s, m), ValuesOf(s, m))
  {
    GoodFacts(StoreOf(t, k), m);
    ValuesRoom(k, t.bigEndian, m);
  }

  /** The unused bytes of a request stand in the memory that it is written to. */
  ghost predicate UnusedStand(k: Kind, m: Bytes, scratch: Bytes)
    requires |m| >= ClassOf(k).identitySize
  {
    forall i :: 0 <= i < ClassOf(k).identitySize && i in UnusedBytes(k) ==> m[i] == Found(scratch, i)
  }

  lemma UnusedOf(t: Settings, k: Kind, m: Bytes, scratch: Bytes)
    requires Good(StoreOf(t, k), m)
    ensures UnusedFound(StoreOf(t, k), m, scratch) <==> UnusedStand(k, m, scratch)
  {
    forall i | 0 <= i < ClassOf(k).identitySize ensures Unused(ClassOf(k).layout, i) <==> i in UnusedBytes(k) {
      UnusedAre(k, i);
    }
  }

  /** For each class, which requests cross the link unharmed. */
  lemma UnharmedRequests(t: Settings, k: Kind, m: Bytes, saved: bool, scratch: Bytes)
    requires Good(StoreOf(t, k), m)
    ensures var s := StoreOf(t, k);
            Unharmed(s, m, saved, scratch) <==>
            IdentityFits(k, FieldsOf(s, m)) && ValuesFit(k, FieldsOf(s, m), ValuesOf(s, m)) &&
            UnusedStand(k, m, scratch) && PaddingFound(s, m, saved, scratch)
  {
    IdentityRoomOf(t, k, m);
    ValuesRoomOf(t, k, m);
    UnusedOf(t, k, m, scratch);
  }

  /** The values behind the identity are those that the client sent, byte for byte. */
  ghost predicate SameValues(s: Store, m: Bytes, out: Bytes)
    requires Good(s, m)
  {
    var n, size := s.c.identitySize, TailFor(s, m).Size();
    n + size <= |m| == |out| && out[n..n + size] == m[n..n + size]
  }

  lemma ValuesPresentedIn(s: Store, m: Bytes, out: Bytes)
    requires Good(s, m) && Presents(s, m, out)
    ensures SameValues(s, m, out) <==> HaveRoom(TailFor(s, m).codecs, ValuesOf(s, m))
  {
    SizeOfBody(s, m);
    BodyOfExactly(s, m);
    SliceOfRest(out, s.c.identitySize, TailFor(s, m).Size());
  }

  /** What tells the X server a request has the values behind the identity as the client sent them
      exactly if each is within its bounds. */
  lemma ValuesPresented(t: Settings, k: Kind, m: Bytes, out: Bytes)
    requires Good(StoreOf(t, k), m) && Presents(StoreOf(t, k), m, out)
    ensures var s := StoreOf(t, k); SameValues(s, m, out) <==> ValuesFit(k, FieldsOf(s, m), ValuesOf(s, m))
  {
    ValuesPresentedIn(StoreOf(t, k), m, out);
    ValuesRoomOf(t, k, m);
  }

  /** The same for the identity. */
  lemma IdentityPresented(t: Settings, k: Kind, m: Bytes, out: Bytes)
    requires Good(StoreOf(t, k), m) && Presents(StoreOf(t, k), m, out)
    ensures var s := StoreOf(t, k); FieldsOf(s, out) == FieldsOf(s, m) <==> IdentityFits(k, FieldsOf(s, m))
  {
    var s := StoreOf(t, k);
    IdentityRoomOf(t, k, m);
    GoodFacts(s, m);
    WholeExactly(s.c.codecs, FieldsOf(s, m));
  }

  // ----- Requests that are harmed -----

  /** The decoding side of a new channel whose first request, not to be cached, is m. */
  ghost function FirstReceiver(s: Store, m: Bytes): Receiver
    requires Good(s, m)
  {
    Receiver(Codes(RequestTokens(s, [], m, [], Discard, false), FreshCaches(), 0), 0, FreshCaches())
  }

  lemma FirstRequest(s: Store, m: Bytes, scratch: Bytes)
    requires Good(s, m)
    ensures var g := DecodeRequest(s, [], scratch, FirstReceiver(s, m));
            Follows(g, s, [], m, Discard, false, scratch) && !g.taken && Presents(s, m, g.out)
  {
    var ts, r := RequestTokens(s, [], m, [], Discard, false), FirstReceiver(s, m);
    assert Before(r, ts, FreshCaches()) by {
      FreshInStep();
      assert r.stream[0..|r.stream|] == r.stream;
      AtSlice(r.stream, 0, Codes(ts, FreshCaches(), 0));
    }
    RequestArrives(r, s, [], [], m, [], Discard, false, scratch, FreshCaches());
    AnnouncedPresents(s, m, DecodeRequest(s, [], scratch, r).out, scratch);
  }

  lemma FirstField(s: Store, m: Bytes, scratch: Bytes, j: nat)
    requires Good(s, m) && j < Arity(s)
    ensures var g := DecodeRequest(s, [], scratch, FirstReceiver(s, m));
            g.Decoded? && |g.out| == |m| && FieldsOf(s, g.out)[j] == Delivered(s.c.codecs[j], FieldsOf(s, m)[j])
  {
    FirstRequest(s, m, scratch);
  }

  lemma FirstShows(s: Store, m: Bytes, scratch: Bytes, i: nat)
    requires Good(s, m) && i < s.c.identitySize && Unused(s.c.layout, i)
    ensures var g := DecodeRequest(s, [], scratch, FirstReceiver(s, m));
            g.Decoded? && |g.out| == |m| && g.out[i] == Found(scratch, i)
  {
    FirstRequest(s, m, scratch);
    ShownThrough(s, m, DecodeRequest(s, [], scratch, FirstReceiver(s, m)).out, scratch, i);
  }

  ghost predicate Fine(c: MessageClass, bigEndian: bool, m: Bytes) {
    forall n: nat :: Opening(n) ==> WellFormed(c, bigEndian, m)
  }

  lemma GoodOf(t: Settings, k: Kind, m: Bytes)
    requires Fine(ClassOf(k), t.bigEndian, m)
    ensures Good(StoreOf(t, k), m)
  {
    assert Opening(0);
  }

  /** A CreateGC request with bit 23 of its mask set and no values. */
  predicate StrayMask(m: Bytes) {
    |m| == 16 && m[0] == 55 && m[2..4] == [4, 0] && m[12..16] == [0, 0, 128, 0]
  }

  /** It can be handled, but the X server receives an empty mask. */
  lemma StrayMaskBitLost(t: Settings, m: Bytes, scratch: Bytes)
    requires !t.bigEndian && StrayMask(m)
    ensures Good(StoreOf(t, CreateGC), m)
    ensures var s := StoreOf(t, CreateGC);
            var g := DecodeRequest(s, [], scratch, FirstReceiver(s, m));
            FieldsOf(s, m)[2] == 0x80_0000 && g.Decoded? && |g.out| == 16 && FieldsOf(s, g.out)[2] == 0
  {
    StrayWellFormed(m);
    GoodOf(t, CreateGC, m);
    FirstField(StoreOf(t, CreateGC), m, scratch, 2);
    MaskDelivered();
  }

  /** There is such a request. */
  lemma StrayMaskExample()
    ensures StrayMask([55, 0, 4, 0, 1, 0, 0, 0, 2, 0, 0, 0, 0, 0, 128, 0])
  {
    var m: Bytes := [55, 0, 4, 0, 1, 0, 0, 0, 2, 0, 0, 0, 0, 0, 128, 0];
    assert m[2..4] == [4, 0] && m[12..16] == [0, 0, 128, 0];
  }

  lemma MaskDelivered()
    ensures Delivered(CREATE_GC.codecs[2], 0x80_0000) == 0
  {
    Pow2Constants();
  }

  lemma StrayWellFormed(m: Bytes)
    requires StrayMask(m)
    ensures CREATE_GC.SoundLayout() && WellFormed(CREATE_GC, false, m) && Fields(CREATE_GC, false, m)[2] == 0x80_0000
  {
    ClassSound(CreateGC);
    StrayBytes();
    assert Get(false, m, LENGTH_FIELD) == 4 && Get(false, m, Field(12, 4)) == 0x80_0000;
    assert CREATE_GC.layout[2] == Field(12, 4);
    StrayTail(Fields(CREATE_GC, false, m));
  }

  lemma StrayBytes()
    ensures ValueOf(false, [4, 0]) == 4 && ValueOf(false, [0, 0, 128, 0]) == 0x80_0000
  {
    assert [4, 0][1..] == [0] && [0][1..] == [];
    assert [0, 0, 128, 0][1..] == [0, 128, 0] && [0, 128, 0][1..] == [128, 0] && [128, 0][1..] == [0];
    assert LittleValue([0]) == 0 && LittleValue([4, 0]) == 4;
    assert LittleValue([128, 0]) == 128;
    assert LittleValue([0, 128, 0]) == 0x8000;
  }

  lemma StrayTail(vs: seq<Word>)
    requires |vs| == 3 && vs[2] == 0x80_0000
    ensures CREATE_GC.tail(vs).codecs == [] && CREATE_GC.accepts(vs)
  {
    Pow2Constants();
    assert Low(0x80_0000, 23) == 0;
    BitsOfLow(0x80_0000, GC_FIELDS);
    NoBits(GC_FIELDS, 0);
  }

  /** No bits of 0 are set. */
  lemma {:induction false} NoBits(n: nat, from: nat)
    ensures SetBits(BitsOf(0, n), from) == []
  {
    if n > 0 {
      NoBits(n - 1, from + 1);
    }
  }

  /** Every unused byte of a request shows what was in the write buffer. */
  lemma FirstShowsUnused(t: Settings, k: Kind, m: Bytes, scratch: Bytes, i: nat)
    requires Good(StoreOf(t, k), m) && i < ClassOf(k).identitySize && i in UnusedBytes(k)
    ensures var s := StoreOf(t, k);
            var g := DecodeRequest(s, [], scratch, FirstReceiver(s, m));
            g.Decoded? && |g.out| == |m| && g.out[i] == Found(scratch, i)
  {
    UnusedAre(k, i);
    FirstShows(StoreOf(t, k), m, scratch, i);
  }

  /** A CopyArea request, of which byte 1 is unused, with a zero there. */
  predicate PlainCopy(m: Bytes) {
    |m| == 28 && m[0] == 62 && m[1] == 0 && m[2] == 7 && m[3] == 0
  }

  /** Whenever the write buffer holds something else there, the X server receives that. */
  lemma UnusedByteChanged(t: Settings, k: Kind, m: Bytes, scratch: Bytes)
    requires k.CopyArea? && Good(StoreOf(t, k), m) && |scratch| >= 2 && scratch[1] != m[1]
    ensures var s := StoreOf(t, k);
            var g := DecodeRequest(s, [], scratch, FirstReceiver(s, m));
            g.Decoded? && |g.out| == |m| && g.out[1] == scratch[1] && g.out != m
  {
    FirstShowsUnused(t, k, m, scratch, 1);
  }

  /** There is such a request, with a zero in its unused byte. */
  lemma PlainCopyExample()
    ensures PlainCopy([62, 0, 7, 0, 1, 0, 0, 0, 2, 0, 0, 0, 3, 0, 0, 0, 4, 0, 5, 0, 6, 0, 7, 0, 8, 0, 9, 0])
  {
  }

  /** It can be handled. */
  lemma CopyGood(t: Settings, k: Kind, m: Bytes)
    requires !t.bigEndian && k.CopyArea? && PlainCopy(m)
    ensures Good(StoreOf(t, k), m)
  {
    assert Fine(ClassOf(k), false, m) by {
      CopyWellFormed(m);
    }
    GoodOf(t, k, m);
  }

  lemma CopyWellFormed(m: Bytes)
    requires PlainCopy(m)
    ensures Fine(COPY_AREA, false, m)
  {
    ClassSound(CopyArea);
    assert m[2..4] == [7, 0];
    assert [7, 0][1..] == [0] && [0][1..] == [];
    assert LittleValue([0]) == 0 && LittleValue([7, 0]) == 7;
    assert Get(false, m, LENGTH_FIELD) == 7;
  }

  /** The unused bytes of a request that is written out are what the write buffer held. */
  lemma ShownThrough(s: Store, m: Bytes, out: Bytes, scratch: Bytes, i: nat)
    requires Good(s, m) && Announces(s, m, out, scratch) && i < s.c.identitySize && Unused(s.c.layout, i)
    ensures out[i] == Found(scratch, i)
  {
    var n := s.c.identitySize;
    var blank := Blank(scratch, 0, n);
    GoodFacts(s, m);
    RequestHead(s.c, s.bigEndian, m, blank, out[n..]);
    HeadKeeps(s.c.layout, s.c.opcode, s.bigEndian, blank, ArrivedIdentity(s, m), |m|, i);
    assert out[i] == out[..n][i];
  }

  // ----- Splits without data -----

  /** A request that is taken by a split and not cached. */
  function TakenItem(k: Kind, m: Bytes): Item {
    RequestItem(k, m, [], Discard, true)
  }

  lemma {:induction false} TakenAfter(cat: CatalogTraits, a: Sender, k: Kind, m: Bytes)
    requires Good(cat.store(k), m) && cat.store(k).SplitsData() && |a.stores[k]| <= MAX_SLOTS && a.resource.Some?
    ensures Allowed(cat, a, TakenItem(k, m)) && !ItemOverruns(cat, a, TakenItem(k, m))
    ensures var b := After(cat, a, TakenItem(k, m));
            b.pending == a.pending + [NewOutgoing(cat.store(k), a.resource.value, Discard, m)] &&
            b.resource == a.resource && b.stores[k] == a.stores[k]
  {
  }

  /** A packet without limit completes the first split. */
  lemma {:induction false} PacketAfter(cat: CatalogTraits, a: Sender, resource: Byte)
    requires a.pending != [] && a.pending[0].resource == resource && Sendable(a.pending[0]) && !a.pending[0].loaded
    ensures Allowed(cat, a, DataItem(resource, 0)) && FirstOf(a.pending, resource) == 0
    ensures After(cat, a, DataItem(resource, 0)).pending == a.pending[1..]
  {
    assert Resources(a.pending)[0] == resource;
    var o := NextOutgoing(cat.store(a.pending[0].kind), a.pending[0], 0);
    assert Complete(o);
    assert WithoutAt(a.pending, 0) == a.pending[1..];
  }

  /** One more item in front of a run. */
  lemma {:induction false} RunStep(cat: CatalogTraits, a: Sender, item: Item, b: Sender, rest: seq<Item>)
    requires Allowed(cat, a, item) && b == After(cat, a, item) && AllAllowed(cat, b, rest)
    ensures AllAllowed(cat, a, [item] + rest)
    ensures RunOverruns(cat, a, [item] + rest) <==> ItemOverruns(cat, a, item) || RunOverruns(cat, b, rest)
  {
    var items := [item] + rest;
    assert items[0] == item && items[1..] == rest;
  }

  /** While the split of a request with data is pending, one without data is taken too, and its packet
      makes the decoding side write past the end of its memory: for every class whose data parts are
      split, every pair of such requests and every state in which no other split is pending.  This
      needs a store whose split switch is on, and all stores of the sources leave it off:
      Proxy.UnsplitArrives says that then it cannot happen. */
  lemma {:induction false} SplitWithoutDataOverruns(cat: CatalogTraits, a: Sender, k: Kind, m: Bytes, n: Bytes)
    requires Good(cat.store(k), m) && Good(cat.store(k), n) && cat.store(k).SplitsData() && |a.stores[k]| <= MAX_SLOTS
    requires a.resource.Some? && a.pending == [] && |m| > |n| == cat.store(k).c.identitySize
    ensures var packet := DataItem(a.resource.value, 0);
            var items := [TakenItem(k, m)] + ([TakenItem(k, n)] + ([packet] + [packet]));
            AllAllowed(cat, a, items) && RunOverruns(cat, a, items)
  {
    var packet := DataItem(a.resource.value, 0);
    TakenAfter(cat, a, k, m);
    var b := After(cat, a, TakenItem(k, m));
    SecondOverruns(cat, b, k, n);
    RunStep(cat, a, TakenItem(k, m), b, [TakenItem(k, n)] + ([packet] + [packet]));
  }

  /** One split is pending, and a request without data is taken. */
  lemma {:induction false} SecondOverruns(cat: CatalogTraits, a: Sender, k: Kind, n: Bytes)
    requires Good(cat.store(k), n) && cat.store(k).SplitsData() && |a.stores[k]| <= MAX_SLOTS
    requires a.resource.Some? && |n| == cat.store(k).c.identitySize
    requires |a.pending| == 1 && a.pending[0].resource == a.resource.value && Sendable(a.pending[0]) && !a.pending[0].loaded
    ensures var packet := DataItem(a.resource.value, 0);
            var items := [TakenItem(k, n)] + ([packet] + [packet]);
            AllAllowed(cat, a, items) && RunOverruns(cat, a, items)
  {
    TakenAfter(cat, a, k, n);
    OverrunsExactly(cat.store(k), a.resource.value, Discard, n);
    TwoPending(cat, a, TakenItem(k, n), After(cat, a, TakenItem(k, n)), NewOutgoing(cat.store(k), a.resource.value, Discard, n),
               a.resource.value);
  }

  lemma {:induction false} TwoPending(cat: CatalogTraits, a: Sender, item: Item, b: Sender, o: Outgoing, resource: Byte)
    requires Allowed(cat, a, item) && b == After(cat, a, item) && b.pending == a.pending + [o]
    requires |a.pending| == 1 && a.pending[0].resource == resource && Sendable(a.pending[0]) && !a.pending[0].loaded
    requires o.resource == resource && Sendable(o) && Overruns(o)
    ensures var items := [item] + ([DataItem(resource, 0)] + [DataItem(resource, 0)]);
            AllAllowed(cat, a, items) && RunOverruns(cat, a, items)
  {
    PacketsOverrun(cat, b, resource);
    RunStep(cat, a, item, b, [DataItem(resource, 0)] + [DataItem(resource, 0)]);
  }

  /** Two splits are pending, the second one without data. */
  lemma {:induction false} PacketsOverrun(cat: CatalogTraits, c: Sender, resource: Byte)
    requires |c.pending| == 2 && c.pending[0].resource == c.pending[1].resource == resource
    requires Sendable(c.pending[0]) && !c.pending[0].loaded && Sendable(c.pending[1]) && Overruns(c.pending[1])
    ensures var packet := DataItem(resource, 0);
            AllAllowed(cat, c, [packet] + [packet]) && RunOverruns(cat, c, [packet] + [packet])
  {
    var packet := DataItem(resource, 0);
    PacketAfter(cat, c, resource);
    var d := After(cat, c, packet);
    PacketAfter(cat, d, resource);
    RunStep(cat, d, packet, After(cat, d, packet), []);
    assert [packet] + [] == [packet];
    RunStep(cat, c, packet, d, [packet]);
  }

  /** A PutImage request of 24 bytes, without an image. */
  predicate EmptyImage(m: Bytes) {
    |m| == PUT_IMAGE_SIZE && m[0] == 72 && m[2] == 6 && m[3] == 0
  }

  /** It can be handled, and it is all identity. */
  lemma EmptyImageGood(t: Settings, k: Kind, m: Bytes)
    requires !t.bigEndian && k.PutImage? && EmptyImage(m)
    ensures Good(StoreOf(t, k), m) && |m| == StoreOf(t, k).c.identitySize
  {
    assert Fine(ClassOf(k), false, m) by {
      EmptyImageWellFormed(m);
    }
    GoodOf(t, k, m);
  }

  lemma EmptyImageWellFormed(m: Bytes)
    requires EmptyImage(m)
    ensures Fine(PUT_IMAGE, false, m)
  {
    ClassSound(PutImage);
    assert m[2..4] == [6, 0];
    assert [6, 0][1..] == [0] && [0][1..] == [];
    assert LittleValue([0]) == 0 && LittleValue([6, 0]) == 6;
    assert Get(false, m, LENGTH_FIELD) == 6;
  }
}
