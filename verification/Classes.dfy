/**
 The message classes of the requests that are modelled: where the identity fields lie, how each
 is sent, which of them the fingerprint covers and which a hit sends again, and what follows
 the identity.  The tables restate parseIdentity, unparseIdentity, identityChecksum and
 updateIdentity of each class, the encoding of ClientChannel.cpp and the decoding of
 ServerChannel.cpp.
 */
module Classes {
  import opened Words
  import opened Buffers
  import opened ClientCache
  import opened Tokens
  import opened Messages

  // ----- Values chosen by a mask -----

  /** The indices of the set bits, in order, the first bit having index `from`. */
  function SetBits(bits: seq<bool>, from: nat): (ix: seq<nat>)
    ensures forall j :: 0 <= j < |ix| ==> from <= ix[j] < from + |bits| && bits[ix[j] - from]
    ensures |ix| <= |bits|
  {
    if bits == [] then []
    else (if bits[0] then [from] else []) + SetBits(bits[1..], from + 1)
  }

  /** Every set bit of a mask is listed. */
  lemma {:induction false} SetBitsComplete(bits: seq<bool>, from: nat, i: nat)
    requires i < |bits| && bits[i]
    ensures from + i in SetBits(bits, from)
  {
    if i > 0 {
      SetBitsComplete(bits[1..], from + 1, i - 1);
    }
  }

  /** The bits are listed in ascending order, so the values follow the order of the mask. */
  lemma {:induction false} SetBitsAscend(bits: seq<bool>, from: nat)
    ensures forall i, j :: 0 <= i < j < |SetBits(bits, from)| ==> SetBits(bits, from)[i] < SetBits(bits, from)[j]
  {
    if bits != [] {
      SetBitsAscend(bits[1..], from + 1);
    }
  }

  lemma {:induction false} BitsOfLow(v: nat, n: nat)
    ensures BitsOf(Low(v, n), n) == BitsOf(v, n)
  {
    if n > 0 {
      HalfModulo(v, Pow2(n - 1));
      BitsOfLow(v / 2, n - 1);
      assert Low(v, n) / 2 == Low(v / 2, n - 1) && Low(v, n) % 2 == v % 2;
    }
  }

  const GC_FIELDS: nat := 23
  const WINDOW_FIELDS: nat := 7

  /** The code of the value for bit i of a GC mask. */
  function GCValueCodec(i: nat): ValidCodec {
    if i >= GC_FIELDS then Plain(32, 0)
    else if CREATEGC_FIELD_WIDTH[i] <= 4 then Plain(CREATEGC_FIELD_WIDTH[i], 0)
    else Cached(CreateGCAttr(i), CREATEGC_FIELD_WIDTH[i], 0)
  }

  /** The code of the value for bit i of the mask of ConfigureWindow. */
  function WindowValueCodec(i: nat): ValidCodec {
    if i >= WINDOW_FIELDS then Plain(32, 0) else Cached(ConfigureWindowAttr(i), CONFIGUREWINDOW_FIELD_WIDTH[i], 8)
  }

  /** One value of four bytes for each of the low bits of the mask. */
  function ValueList(mask: Word, fields: nat, codec: nat -> ValidCodec): Tail {
    var ix := SetBits(BitsOf(mask, fields), 0);
    TailShape(false, seq(|ix|, j requires 0 <= j < |ix| => codec(ix[j])), 4)
  }

  lemma SameValueList(mask: Word, fields: nat, codec: nat -> ValidCodec)
    requires fields <= 32
    ensures ValueList(LowWord(mask, fields), fields, codec) == ValueList(mask, fields, codec)
  {
    BitsOfLow(mask, fields);
  }

  // ----- Data parts -----

  function RawData(n: nat): Tail {
    TailShape(n > 0, seq(n, _ => RawByte), 1)
  }

  function NoData(identity: seq<Word>): Tail {
    TailShape(false, [], 1)
  }

  /** Properties come in items of 8, 16 or 32 bits. */
  function PropertyData(format: Word, count: Word): Tail {
    if format == 8 then TailShape(true, seq(count, _ => RawByte), 1)
    else if format == 32 then TailShape(false, seq(count, _ => Cached(PropertyData32, 32, 0)), 4)
    else TailShape(false, seq(count, _ => Plain(16, 0)), 2)
  }

  /** Field j of an identity, or 0 if there are not so many. */
  function Nth(identity: seq<Word>, j: nat): Word {
    if j < |identity| then identity[j] else 0
  }

  function Anything(identity: seq<Word>): bool {
    true
  }

  // ----- The classes -----

  const PUT_IMAGE_SIZE: nat := 24

  function ImageBytes(length: Word): nat {
    if 4 * length > PUT_IMAGE_SIZE then 4 * length - PUT_IMAGE_SIZE else 0
  }

  const CREATE_GC := MessageClass(
    CreateGC, 55, 16,
    [Field(4, 4), Field(8, 4), Field(12, 4)],
    [NewXid(GCs, FreeGC), Slotted(Drawables), Cached(CreateGCBitmask, 23, 0)],
    [Update(0, NewXid(GCs, FreeGC), false)],
    [Field(8, 8)],
    [2], Anything, identity => ValueList(Nth(identity, 2), GC_FIELDS, GCValueCodec))

  const CHANGE_GC := MessageClass(
    ChangeGC, 56, 12,
    [Field(4, 4), Field(8, 4)],
    [Slotted(GCs), Cached(CreateGCBitmask, 23, 0)],
    [Update(0, Slotted(GCs), false)],
    [Field(8, 4)],
    [1], Anything, identity => ValueList(Nth(identity, 1), GC_FIELDS, GCValueCodec))

  const CONFIGURE_WINDOW := MessageClass(
    ConfigureWindow, 12, 12,
    [Field(4, 4), Field(8, 2)],
    [Slotted(Windows), Cached(ConfigureWindowBitmask, 7, 0)],
    [],
    [Field(4, 4), Field(8, 2)],
    [1], Anything, identity => ValueList(Nth(identity, 1), WINDOW_FIELDS, WindowValueCodec))

  const COPY_AREA := MessageClass(
    CopyArea, 62, 28,
    [Field(4, 4), Field(8, 4), Field(12, 4), Field(16, 2), Field(18, 2), Field(20, 2),
     Field(22, 2), Field(24, 2), Field(26, 2)],
    [Slotted(Drawables), Slotted(Drawables), Slotted(GCs),
     Cached(CopyAreaGeom(0), 16, 8), Cached(CopyAreaGeom(1), 16, 8), Cached(CopyAreaGeom(2), 16, 8),
     Cached(CopyAreaGeom(3), 16, 8), Cached(CopyAreaGeom(4), 16, 8), Cached(CopyAreaGeom(5), 16, 8)],
    [Update(0, Slotted(Drawables), false), Update(1, Slotted(Drawables), false), Update(2, Slotted(GCs), false)],
    [Field(16, 12)],
    [], Anything, NoData)

  /** Format, number of items, mode, window, property and type. */
  const CHANGE_PROPERTY := MessageClass(
    ChangeProperty, 18, 24,
    [Field(16, 1), Field(20, 4), Field(1, 1), Field(4, 4), Field(8, 4), Field(12, 4)],
    [CachedChar(PropertyFormat), Plain(32, 6), Plain(2, 0), Slotted(Windows),
     Cached(PropertyName, 29, 9), Cached(PropertyType, 29, 9)],
    [Update(3, Slotted(Windows), false)],
    [Field(1, 1), Field(16, 1), Field(8, 4), Field(12, 4), Field(20, 4)],
    [], identity => Nth(identity, 0) == 8 || Nth(identity, 0) == 16 || Nth(identity, 0) == 32,
    identity => PropertyData(Nth(identity, 0), Nth(identity, 1)))

  const CREATE_PIXMAP := MessageClass(
    CreatePixmap, 53, 16,
    [Field(1, 1), Field(4, 4), Field(8, 4), Field(12, 2), Field(14, 2)],
    [CachedChar(Depth), NewXid(Drawables, FreeDrawable), Slotted(Windows),
     Cached(PixmapX, 16, 8), Cached(PixmapY, 16, 8)],
    [Update(1, NewXid(Drawables, FreeDrawable), false)],
    [Field(1, 1), Field(8, 8)],
    [], Anything, NoData)

  /** PutImage sends its length field too: the other classes have a length that follows from
      the identity. */
  const PUT_IMAGE := MessageClass(
    PutImage, 72, PUT_IMAGE_SIZE,
    [LENGTH_FIELD, Field(1, 1), Field(4, 4), Field(8, 4), Field(12, 2), Field(14, 2),
     Field(16, 2), Field(18, 2), Field(20, 1), Field(21, 1)],
    [Plain(16, 8), Plain(2, 0), Slotted(Drawables), Slotted(GCs), Cached(ImageWidth, 16, 8),
     Cached(ImageHeight, 16, 8), Since(ImageLastX, ImageX), Since(ImageLastY, ImageY),
     CachedChar(ImageLeftPad), CachedChar(Depth)],
    [Update(2, Slotted(Drawables), false), Update(3, Slotted(GCs), false),
     Update(6, Cached(ImageX, 16, 8), true), Update(7, Cached(ImageY, 16, 8), true)],
    [Field(1, 1), Field(12, 4), Field(20, 2)],
    [], Anything, identity => RawData(ImageBytes(Nth(identity, 0))))

  function ClassOf(k: Kind): MessageClass {
    match k
    case CreateGC => CREATE_GC
    case ChangeGC => CHANGE_GC
    case ConfigureWindow => CONFIGURE_WINDOW
    case CopyArea => COPY_AREA
    case ChangeProperty => CHANGE_PROPERTY
    case CreatePixmap => CREATE_PIXMAP
    case PutImage => PUT_IMAGE
  }

  // ----- Soundness -----

  lemma SoundLayouts(k: Kind)
    ensures ClassOf(k).SoundLayout()
  {
    match k
    case CopyArea => LayoutCopyArea();
    case ChangeProperty => LayoutChangeProperty();
    case PutImage => LayoutPutImage();
    case _ =>
  }

  lemma LayoutCopyArea()
    ensures COPY_AREA.SoundLayout()
  {
  }

  lemma LayoutChangeProperty()
    ensures CHANGE_PROPERTY.SoundLayout()
  {
  }

  lemma LayoutPutImage()
    ensures PUT_IMAGE.SoundLayout()
  {
  }

  lemma SoundUpdatesOf(k: Kind)
    ensures ClassOf(k).SoundUpdates()
  {
  }

  lemma CoveredCreateGC()
    ensures CREATE_GC.Covered()
  {
    assert CREATE_GC.updates[0].index == 0;
    assert Inside(CREATE_GC.layout[1], CREATE_GC.fingerprint[0]);
    assert Inside(CREATE_GC.layout[2], CREATE_GC.fingerprint[0]);
  }

  lemma CoveredChangeGC()
    ensures CHANGE_GC.Covered()
  {
    assert CHANGE_GC.updates[0].index == 0;
    assert Inside(CHANGE_GC.layout[1], CHANGE_GC.fingerprint[0]);
  }

  lemma CoveredConfigureWindow()
    ensures CONFIGURE_WINDOW.Covered()
  {
    assert Inside(CONFIGURE_WINDOW.layout[0], CONFIGURE_WINDOW.fingerprint[0]);
    assert Inside(CONFIGURE_WINDOW.layout[1], CONFIGURE_WINDOW.fingerprint[1]);
  }

  lemma CoveredCopyArea()
    ensures COPY_AREA.Covered()
  {
    assert COPY_AREA.updates[0].index == 0;
    assert COPY_AREA.updates[1].index == 1;
    assert COPY_AREA.updates[2].index == 2;
    assert Inside(COPY_AREA.layout[3], COPY_AREA.fingerprint[0]);
    assert Inside(COPY_AREA.layout[4], COPY_AREA.fingerprint[0]);
    assert Inside(COPY_AREA.layout[5], COPY_AREA.fingerprint[0]);
    assert Inside(COPY_AREA.layout[6], COPY_AREA.fingerprint[0]);
    assert Inside(COPY_AREA.layout[7], COPY_AREA.fingerprint[0]);
    assert Inside(COPY_AREA.layout[8], COPY_AREA.fingerprint[0]);
  }

  lemma CoveredChangeProperty()
    ensures CHANGE_PROPERTY.Covered()
  {
    assert CHANGE_PROPERTY.updates[0].index == 3;
    assert Inside(CHANGE_PROPERTY.layout[0], CHANGE_PROPERTY.fingerprint[1]);
    assert Inside(CHANGE_PROPERTY.layout[1], CHANGE_PROPERTY.fingerprint[4]);
    assert Inside(CHANGE_PROPERTY.layout[2], CHANGE_PROPERTY.fingerprint[0]);
    assert Inside(CHANGE_PROPERTY.layout[4], CHANGE_PROPERTY.fingerprint[2]);
    assert Inside(CHANGE_PROPERTY.layout[5], CHANGE_PROPERTY.fingerprint[3]);
  }

  lemma CoveredCreatePixmap()
    ensures CREATE_PIXMAP.Covered()
  {
    assert CREATE_PIXMAP.updates[0].index == 1;
    assert Inside(CREATE_PIXMAP.layout[0], CREATE_PIXMAP.fingerprint[0]);
    assert Inside(CREATE_PIXMAP.layout[2], CREATE_PIXMAP.fingerprint[1]);
    assert Inside(CREATE_PIXMAP.layout[3], CREATE_PIXMAP.fingerprint[1]);
    assert Inside(CREATE_PIXMAP.layout[4], CREATE_PIXMAP.fingerprint[1]);
  }

  lemma CoveredPutImage()
    ensures PUT_IMAGE.Covered()
  {
    assert PUT_IMAGE.updates[0].index == 2;
    assert PUT_IMAGE.updates[1].index == 3;
    assert PUT_IMAGE.updates[2].index == 6;
    assert PUT_IMAGE.updates[3].index == 7;
    assert Inside(PUT_IMAGE.layout[1], PUT_IMAGE.fingerprint[0]);
    assert Inside(PUT_IMAGE.layout[4], PUT_IMAGE.fingerprint[1]);
    assert Inside(PUT_IMAGE.layout[5], PUT_IMAGE.fingerprint[1]);
    assert Inside(PUT_IMAGE.layout[8], PUT_IMAGE.fingerprint[2]);
    assert Inside(PUT_IMAGE.layout[9], PUT_IMAGE.fingerprint[2]);
  }

  lemma CoveredAll(k: Kind)
    ensures ClassOf(k).Covered()
  {
    match k
    case CreateGC => CoveredCreateGC();
    case ChangeGC => CoveredChangeGC();
    case ConfigureWindow => CoveredConfigureWindow();
    case CopyArea => CoveredCopyArea();
    case ChangeProperty => CoveredChangeProperty();
    case CreatePixmap => CoveredCreatePixmap();
    case PutImage => CoveredPutImage();
  }

  /** A mask loses no bit that stands for a value. */
  lemma MaskTail(c: MessageClass, j: nat, fields: nat, codec: nat -> ValidCodec, identity: seq<Word>)
    requires j < |identity| == |c.codecs| && fields <= 32
    requires c.codecs[j].Cached? && c.codecs[j].bits == fields
    ensures ValueList(DeliverAll(c.codecs, identity)[j], fields, codec) == ValueList(identity[j], fields, codec)
  {
    SameValueList(identity[j], fields, codec);
  }

  lemma TailCreateGC()
    requires CREATE_GC.SoundLayout()
    ensures CREATE_GC.SoundTail()
  {
    forall identity | CREATE_GC.Storable(identity)
      ensures CREATE_GC.tail(DeliverAll(CREATE_GC.codecs, identity)) == CREATE_GC.tail(identity)
    {
      MaskTail(CREATE_GC, 2, GC_FIELDS, GCValueCodec, identity);
    }
  }

  lemma TailChangeGC()
    requires CHANGE_GC.SoundLayout()
    ensures CHANGE_GC.SoundTail()
  {
    forall identity | CHANGE_GC.Storable(identity)
      ensures CHANGE_GC.tail(DeliverAll(CHANGE_GC.codecs, identity)) == CHANGE_GC.tail(identity)
    {
      MaskTail(CHANGE_GC, 1, GC_FIELDS, GCValueCodec, identity);
    }
  }

  lemma TailConfigureWindow()
    requires CONFIGURE_WINDOW.SoundLayout()
    ensures CONFIGURE_WINDOW.SoundTail()
  {
    forall identity | CONFIGURE_WINDOW.Storable(identity)
      ensures CONFIGURE_WINDOW.tail(DeliverAll(CONFIGURE_WINDOW.codecs, identity)) == CONFIGURE_WINDOW.tail(identity)
    {
      MaskTail(CONFIGURE_WINDOW, 1, WINDOW_FIELDS, WindowValueCodec, identity);
    }
  }

  lemma TailChangeProperty()
    requires CHANGE_PROPERTY.SoundLayout()
    ensures CHANGE_PROPERTY.SoundTail()
  {
    var c := CHANGE_PROPERTY;
    forall identity | c.Storable(identity)
      ensures c.tail(DeliverAll(c.codecs, identity)) == c.tail(identity)
      ensures c.accepts(DeliverAll(c.codecs, identity)) == c.accepts(identity)
    {
      assert identity[0] < Pow2(8 * c.layout[0].width);
      Pow2Constants();
      assert DeliverAll(c.codecs, identity)[0] == identity[0];
      assert DeliverAll(c.codecs, identity)[1] == identity[1];
    }
  }

  lemma TailPutImage()
    requires PUT_IMAGE.SoundLayout()
    ensures PUT_IMAGE.SoundTail()
  {
    var c := PUT_IMAGE;
    Pow2Constants();
    forall identity | c.Storable(identity)
      ensures c.tail(DeliverAll(c.codecs, identity)) == c.tail(identity)
    {
      assert identity[0] < Pow2(8 * c.layout[0].width);
      assert DeliverAll(c.codecs, identity)[0] == identity[0];
    }
  }

  lemma SoundTails(k: Kind)
    requires ClassOf(k).SoundLayout()
    ensures ClassOf(k).SoundTail()
  {
    match k
    case CreateGC => TailCreateGC();
    case ChangeGC => TailChangeGC();
    case ConfigureWindow => TailConfigureWindow();
    case ChangeProperty => TailChangeProperty();
    case PutImage => TailPutImage();
    case CopyArea => TailCopyArea();
    case CreatePixmap => TailCreatePixmap();
  }

  lemma TailCopyArea()
    requires COPY_AREA.SoundLayout()
    ensures COPY_AREA.SoundTail()
  {
  }

  lemma TailCreatePixmap()
    requires CREATE_PIXMAP.SoundLayout()
    ensures CREATE_PIXMAP.SoundTail()
  {
  }

  /** Every class meets what the coding of requests relies on. */
  lemma ClassSound(k: Kind)
    ensures ClassOf(k).Sound() && ClassOf(k).kind == k
  {
    SoundLayouts(k);
    SoundUpdatesOf(k);
    CoveredAll(k);
    SoundTails(k);
  }
}
