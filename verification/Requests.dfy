/**
 The requests in numbers of the X protocol: which of them the stores can handle, and which of them
 are one and the same message to a cache.
 */
module Requests {
  import opened Words
  import opened Buffers
  import opened ClientCache
  import opened Tokens
  import opened Messages
  import opened Fingerprints
  import opened Rebuilding
  import opened Classes

  // ----- Which requests are handled -----

  /** How many of the n low bits of v are set. */
  function Ones(v: nat, n: nat): nat {
    if n == 0 then 0 else v % 2 + Ones(v / 2, n - 1)
  }

  lemma {:induction false} SetBitsCount(v: nat, n: nat, from: nat)
    ensures |SetBits(BitsOf(v, n), from)| == Ones(v, n)
  {
    if n > 0 {
      SetBitsCount(v / 2, n - 1, from + 1);
    }
  }

  lemma {:induction false} SpanIs(n: nat, width: nat)
    ensures Span(n, width) == n * width
  {
    if n > 0 {
      SpanIs(n - 1, width);
      assert n * width == width + (n - 1) * width;
    }
  }

  /** The opcode and the size of a request (section 9 and appendix B of the X Window System Protocol,
      Version 11): four bytes for each value that a mask asks for, the items of a property filled up
      to whole words, any number of words for an image. */
  predicate Handled(k: Kind, bigEndian: bool, m: Bytes) {
    && |m| >= 12 && |m| == 4 * TwoBytes(bigEndian, m, 2)
    && match k
       case CreateGC => m[0] == 55 && |m| >= 16 && |m| == 16 + 4 * Ones(FourBytes(bigEndian, m, 12), 23)
       case ChangeGC => m[0] == 56 && |m| == 12 + 4 * Ones(FourBytes(bigEndian, m, 8), 23)
       case ConfigureWindow => m[0] == 12 && |m| == 12 + 4 * Ones(TwoBytes(bigEndian, m, 8), 7)
       case CopyArea => m[0] == 62 && |m| == 28
       case ChangeProperty =>
         && m[0] == 18 && |m| >= 24 && (m[16] == 8 || m[16] == 16 || m[16] == 32)
         && 24 + m[16] / 8 * FourBytes(bigEndian, m, 20) <= |m| < 28 + m[16] / 8 * FourBytes(bigEndian, m, 20)
       case CreatePixmap => m[0] == 53 && |m| == 16
       case PutImage => m[0] == 72 && |m| >= 24
  }

  /** A request is well formed exactly if its length field and its tail tell its size. */
  lemma WellFormedBy(c: MessageClass, bigEndian: bool, m: Bytes, size: nat)
    requires c.SoundLayout() && |m| >= c.identitySize && TailOf(c, bigEndian, m).Size() == size
    ensures WellFormed(c, bigEndian, m) <==>
            m[0] == c.opcode && |m| == 4 * TwoBytes(bigEndian, m, 2) && c.accepts(Fields(c, bigEndian, m)) &&
            c.identitySize + size <= |m| < c.identitySize + size + 4
  {
    GetIs(bigEndian, m, 2);
  }

  lemma ListSize(mask: Word, n: nat, codec: nat -> ValidCodec)
    ensures ValueList(mask, n, codec).Size() == 4 * Ones(mask, n)
  {
    SetBitsCount(mask, n, 0);
    SpanIs(Ones(mask, n), 4);
  }

  /** A class whose requests have the values that a mask asks for. */
  lemma HandledList(c: MessageClass, bigEndian: bool, m: Bytes, mask: Word, n: nat, codec: nat -> ValidCodec)
    requires c.SoundLayout() && |m| >= c.identitySize
    requires TailOf(c, bigEndian, m) == ValueList(mask, n, codec) && c.accepts(Fields(c, bigEndian, m))
    ensures WellFormed(c, bigEndian, m) <==>
            m[0] == c.opcode && |m| == 4 * TwoBytes(bigEndian, m, 2) && |m| == c.identitySize + 4 * Ones(mask, n)
  {
    ListSize(mask, n, codec);
    WellFormedBy(c, bigEndian, m, 4 * Ones(mask, n));
    WholeWords(c.identitySize, |m|, Ones(mask, n));
  }

  lemma WholeWords(identitySize: nat, size: nat, n: nat)
    requires identitySize % 4 == 0
    ensures size % 4 == 0 && identitySize + 4 * n <= size < identitySize + 4 * n + 4 <==> size == identitySize + 4 * n
  {
  }

  lemma MaskCreateGC(c: MessageClass, bigEndian: bool, m: Bytes)
    requires c == CREATE_GC && c.SoundLayout() && |m| >= 16
    ensures TailOf(c, bigEndian, m) == ValueList(FourBytes(bigEndian, m, 12), GC_FIELDS, GCValueCodec)
    ensures c.accepts(Fields(c, bigEndian, m))
  {
    GetIs(bigEndian, m, 12);
    assert c.layout[2] == Field(12, 4);
  }

  lemma HandledCreateGC(c: MessageClass, bigEndian: bool, m: Bytes)
    requires c == CREATE_GC
    ensures WellFormed(c, bigEndian, m) <==> Handled(CreateGC, bigEndian, m)
  {
    ClassSound(CreateGC);
    if |m| >= 16 {
      MaskCreateGC(c, bigEndian, m);
      HandledList(c, bigEndian, m, FourBytes(bigEndian, m, 12), GC_FIELDS, GCValueCodec);
    }
  }

  lemma MaskChangeGC(c: MessageClass, bigEndian: bool, m: Bytes)
    requires c == CHANGE_GC && c.SoundLayout() && |m| >= 12
    ensures TailOf(c, bigEndian, m) == ValueList(FourBytes(bigEndian, m, 8), GC_FIELDS, GCValueCodec)
    ensures c.accepts(Fields(c, bigEndian, m))
  {
    GetIs(bigEndian, m, 8);
    assert c.layout[1] == Field(8, 4);
  }

  lemma HandledChangeGC(c: MessageClass, bigEndian: bool, m: Bytes)
    requires c == CHANGE_GC
    ensures WellFormed(c, bigEndian, m) <==> Handled(ChangeGC, bigEndian, m)
  {
    ClassSound(ChangeGC);
    if |m| >= 12 {
      MaskChangeGC(c, bigEndian, m);
      HandledList(c, bigEndian, m, FourBytes(bigEndian, m, 8), GC_FIELDS, GCValueCodec);
    }
  }

  lemma MaskConfigureWindow(c: MessageClass, bigEndian: bool, m: Bytes, mask: Word)
    requires c == CONFIGURE_WINDOW && c.SoundLayout() && |m| >= 12 && mask == TwoBytes(bigEndian, m, 8)
    ensures TailOf(c, bigEndian, m) == ValueList(mask, WINDOW_FIELDS, WindowValueCodec)
    ensures c.accepts(Fields(c, bigEndian, m))
  {
    GetIs(bigEndian, m, 8);
    assert c.layout[1] == Field(8, 2);
  }

  lemma HandledConfigureWindow(c: MessageClass, bigEndian: bool, m: Bytes)
    requires c == CONFIGURE_WINDOW
    ensures WellFormed(c, bigEndian, m) <==> Handled(ConfigureWindow, bigEndian, m)
  {
    ClassSound(ConfigureWindow);
    if |m| >= 12 {
      var mask := TwoBytes(bigEndian, m, 8);
      MaskConfigureWindow(c, bigEndian, m, mask);
      HandledList(c, bigEndian, m, mask, WINDOW_FIELDS, WindowValueCodec);
    }
  }

  /** A class whose requests have no data part. */
  lemma HandledWithout(c: MessageClass, bigEndian: bool, m: Bytes)
    requires c.SoundLayout() && |m| >= c.identitySize
    requires TailOf(c, bigEndian, m).codecs == [] && c.accepts(Fields(c, bigEndian, m))
    ensures WellFormed(c, bigEndian, m) <==>
            m[0] == c.opcode && |m| == c.identitySize == 4 * TwoBytes(bigEndian, m, 2)
  {
    WellFormedBy(c, bigEndian, m, 0);
  }

  lemma HandledCopyArea(c: MessageClass, bigEndian: bool, m: Bytes)
    requires c == COPY_AREA
    ensures WellFormed(c, bigEndian, m) <==> Handled(CopyArea, bigEndian, m)
  {
    ClassSound(CopyArea);
    if |m| >= 28 {
      HandledWithout(c, bigEndian, m);
    }
  }

  lemma HandledCreatePixmap(c: MessageClass, bigEndian: bool, m: Bytes)
    requires c == CREATE_PIXMAP
    ensures WellFormed(c, bigEndian, m) <==> Handled(CreatePixmap, bigEndian, m)
  {
    ClassSound(CreatePixmap);
    if |m| >= 16 {
      HandledWithout(c, bigEndian, m);
    }
  }

  lemma PropertySize(format: Word, count: Word)
    requires format == 8 || format == 16 || format == 32
    ensures PropertyData(format, count).Size() == format / 8 * count
  {
    SpanIs(count, format / 8);
  }

  lemma HandledChangeProperty(c: MessageClass, bigEndian: bool, m: Bytes)
    requires c == CHANGE_PROPERTY
    ensures WellFormed(c, bigEndian, m) <==> Handled(ChangeProperty, bigEndian, m)
  {
    ClassSound(ChangeProperty);
    if |m| >= 24 {
      GetIs(bigEndian, m, 16);
      GetIs(bigEndian, m, 20);
      assert c.layout[0] == Field(16, 1) && c.layout[1] == Field(20, 4);
      if m[16] == 8 || m[16] == 16 || m[16] == 32 {
        PropertySize(m[16], FourBytes(bigEndian, m, 20));
        WellFormedBy(c, bigEndian, m, m[16] / 8 * FourBytes(bigEndian, m, 20));
      }
    }
  }

  lemma HandledPutImage(c: MessageClass, bigEndian: bool, m: Bytes)
    requires c == PUT_IMAGE
    ensures WellFormed(c, bigEndian, m) <==> Handled(PutImage, bigEndian, m)
  {
    ClassSound(PutImage);
    if |m| >= 24 {
      GetIs(bigEndian, m, 2);
      assert c.layout[0] == Field(2, 2);
      SpanIs(ImageBytes(TwoBytes(bigEndian, m, 2)), 1);
      WellFormedBy(c, bigEndian, m, ImageBytes(TwoBytes(bigEndian, m, 2)));
    }
  }

  /** For each class, exactly the requests that its store can handle. */
  lemma HandledExactly(k: Kind, bigEndian: bool, m: Bytes)
    ensures WellFormed(ClassOf(k), bigEndian, m) <==> Handled(k, bigEndian, m)
  {
    match k
    case CreateGC => HandledCreateGC(ClassOf(k), bigEndian, m);
    case ChangeGC => HandledChangeGC(ClassOf(k), bigEndian, m);
    case ConfigureWindow => HandledConfigureWindow(ClassOf(k), bigEndian, m);
    case CopyArea => HandledCopyArea(ClassOf(k), bigEndian, m);
    case ChangeProperty => HandledChangeProperty(ClassOf(k), bigEndian, m);
    case CreatePixmap => HandledCreatePixmap(ClassOf(k), bigEndian, m);
    case PutImage => HandledPutImage(ClassOf(k), bigEndian, m);
  }

  // ----- Which requests are the same message -----

  /** The identity fields that a hit sends again: the GC of CreateGC and ChangeGC, the three resources
      of CopyArea, the window of ChangeProperty, the pixmap of CreatePixmap, and the drawable, the GC
      and the position of PutImage. */
  function Varying(k: Kind): set<nat> {
    match k
    case CreateGC => {0}
    case ChangeGC => {0}
    case ConfigureWindow => {}
    case CopyArea => {0, 1, 2}
    case ChangeProperty => {3}
    case CreatePixmap => {1}
    case PutImage => {2, 3, 6, 7}
  }

  lemma VaryingAre(k: Kind, j: nat)
    ensures ClassOf(k).SentAgain(j) <==> j in Varying(k)
  {
    var u := ClassOf(k).updates;
    match k
    case CreateGC => assert j == 0 ==> u[0].index == j;
    case ChangeGC => assert j == 0 ==> u[0].index == j;
    case ConfigureWindow => assert u == [];
    case CopyArea => assert j < 3 ==> u[j].index == j;
    case ChangeProperty => assert j == 3 ==> u[0].index == j;
    case CreatePixmap => assert j == 1 ==> u[0].index == j;
    case PutImage =>
      assert (j == 2 ==> u[0].index == j) && (j == 3 ==> u[1].index == j);
      assert (j == 6 ==> u[2].index == j) && (j == 7 ==> u[3].index == j);
  }

  /** Every byte of the fingerprint belongs to a field that a hit does not send again. */
  ghost predicate Lean(c: MessageClass) {
    forall i: nat, b: nat :: i < |c.fingerprint| && Covers(c.fingerprint[i], b) ==>
      exists j :: 0 <= j < |c.layout| && !c.SentAgain(j) && Covers(c.layout[j], b)
  }

  lemma {:induction false} SameAppended(m: Bytes, n: Bytes, fields: seq<Field>)
    requires forall i :: 0 <= i < |fields| ==> fields[i].End() <= |m| && fields[i].End() <= |n|
    requires forall i: nat, b: nat :: i < |fields| && Covers(fields[i], b) ==> m[b] == n[b]
    ensures Appended(m, fields) == Appended(n, fields)
  {
    if fields != [] {
      var f := fields[0];
      assert forall b :: f.offset <= b < f.End() ==> Covers(f, b);
      assert m[f.offset..f.End()] == n[f.offset..f.End()];
      SameAppended(m, n, fields[1..]);
    }
  }

  /** The identity fields that a hit does not send again are equal. */
  ghost predicate KeptEqual(c: MessageClass, bigEndian: bool, m: Bytes, n: Bytes)
    requires c.SoundLayout() && |m| >= c.identitySize && |n| >= c.identitySize
  {
    forall j :: 0 <= j < |c.layout| && !c.SentAgain(j) ==> Fields(c, bigEndian, m)[j] == Fields(c, bigEndian, n)[j]
  }

  lemma SameFingerprint(c: MessageClass, bigEndian: bool, m: Bytes, n: Bytes)
    requires c.Covered() && Lean(c) && c.SoundLayout() && |m| >= c.identitySize && |n| >= c.identitySize
    requires KeptEqual(c, bigEndian, m, n)
    ensures Appended(m, c.fingerprint) == Appended(n, c.fingerprint)
  {
    forall i: nat, b: nat | i < |c.fingerprint| && Covers(c.fingerprint[i], b) ensures m[b] == n[b] {
      var j :| 0 <= j < |c.layout| && !c.SentAgain(j) && Covers(c.layout[j], b);
      assert Fields(c, bigEndian, m)[j] == Fields(c, bigEndian, n)[j];
      FieldBytes(bigEndian, m, n, c.layout[j], b);
    }
    SameAppended(m, n, c.fingerprint);
  }

  lemma KeptAre(c: MessageClass, bigEndian: bool, m: Bytes, n: Bytes)
    requires c.Covered() && WellFormed(c, bigEndian, m) && WellFormed(c, bigEndian, n)
    requires Checksum(c, bigEndian, m) == Checksum(c, bigEndian, n)
    ensures KeptEqual(c, bigEndian, m, n)
  {
    forall j | 0 <= j < |c.layout| && !c.SentAgain(j)
      ensures Fields(c, bigEndian, m)[j] == Fields(c, bigEndian, n)[j]
    {
      SameFields(c, bigEndian, m, n, j);
    }
  }

  /** Two requests have the same checksum exactly if their data parts are equal, and the identity fields
      that a hit does not send again. */
  lemma SameMessage(c: MessageClass, bigEndian: bool, m: Bytes, n: Bytes)
    requires c.Covered() && Lean(c) && WellFormed(c, bigEndian, m) && WellFormed(c, bigEndian, n)
    ensures Checksum(c, bigEndian, m) == Checksum(c, bigEndian, n) <==>
            Data(c, bigEndian, m) == Data(c, bigEndian, n) && KeptEqual(c, bigEndian, m, n)
  {
    if Checksum(c, bigEndian, m) == Checksum(c, bigEndian, n) {
      ChecksumDetermines(c, bigEndian, m, n);
      KeptAre(c, bigEndian, m, n);
    }
    if KeptEqual(c, bigEndian, m, n) {
      SameFingerprint(c, bigEndian, m, n);
    }
  }

  lemma LeanAll(k: Kind)
    ensures Lean(ClassOf(k))
  {
    var c := ClassOf(k);
    forall i: nat, b: nat | i < |c.fingerprint| && Covers(c.fingerprint[i], b)
      ensures exists j :: 0 <= j < |c.layout| && !c.SentAgain(j) && Covers(c.layout[j], b)
    {
      var j := KeptField(k, b);
      VaryingAre(k, j);
    }
  }

  /** The field that byte b of the identity belongs to. */
  function KeptField(k: Kind, b: nat): nat {
    match k
    case CreateGC => if b < 12 then 1 else 2
    case ChangeGC => 1
    case ConfigureWindow => if b < 8 then 0 else 1
    case CopyArea => if b < 18 then 3 else if b < 20 then 4 else if b < 22 then 5 else if b < 24 then 6 else if b < 26 then 7 else 8
    case ChangeProperty => if b < 2 then 2 else if b < 12 then 4 else if b < 16 then 5 else if b < 20 then 0 else 1
    case CreatePixmap => if b < 2 then 0 else if b < 12 then 2 else if b < 14 then 3 else 4
    case PutImage => if b < 2 then 1 else if b < 14 then 4 else if b < 16 then 5 else if b < 21 then 8 else 9
  }

  /** For each class: two requests are one message to a cache exactly if their data parts are equal, and
      their identities but for the fields that vary. */
  lemma SameMessageExactly(k: Kind, bigEndian: bool, m: Bytes, n: Bytes)
    requires WellFormed(ClassOf(k), bigEndian, m) && WellFormed(ClassOf(k), bigEndian, n) && ClassOf(k).Covered()
    ensures var c := ClassOf(k);
            Checksum(c, bigEndian, m) == Checksum(c, bigEndian, n) <==>
            Data(c, bigEndian, m) == Data(c, bigEndian, n) &&
            forall j :: 0 <= j < |c.layout| && j !in Varying(k) ==> Fields(c, bigEndian, m)[j] == Fields(c, bigEndian, n)[j]
  {
    LeanAll(k);
    SameMessage(ClassOf(k), bigEndian, m, n);
    forall j: nat ensures ClassOf(k).SentAgain(j) <==> j in Varying(k) {
      VaryingAre(k, j);
    }
  }
}
