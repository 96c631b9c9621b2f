/**
 The stores of the proxies with their real classes, and what follows for the requests of a
 client.
 */
module Proxy {
  import opened Words
  import opened ClientCache
  import opened Exchange
  import opened Classes
  import opened Channel
  import opened Sessions

  type Compression = c: Compressor | c.Faithful() ghost witness Compressor(_ => None, (_, _) => None)

  /** What can be set for the proxies: the switches of the two stores that go through
      handleEncode.  PutImage has a data part. */
  datatype Settings = Settings(
    compressor: Compression, bigEndian: bool,
    pixmapData: bool, pixmapSplit: bool, pixmapCompress: bool,
    imageSplit: bool, imageCompress: bool)

  function CodingOf(t: Settings, k: Kind): Coding {
    match k
    case CreatePixmap => General(t.pixmapData, t.pixmapSplit, t.pixmapCompress)
    case PutImage => General(true, t.imageSplit, t.imageCompress)
    case _ => Direct
  }

  function TraitsOf(t: Settings, k: Kind): StoreTraits {
    StoreTraits(ClassOf(k), CodingOf(t, k), t.compressor, t.bigEndian)
  }

  lemma TraitsConsistent(t: Settings, k: Kind)
    ensures TraitsOf(t, k).Consistent()
  {
    ClassSound(k);
    if k.PutImage? {
      ImageRaw(TraitsOf(t, k));
    } else if k.CreatePixmap? {
      PixmapRaw(t);
    }
  }

  lemma RawDataRaw(s: StoreTraits, n: nat)
    requires n % 4 == 0
    ensures s.Raw(RawData(n))
  {
  }

  lemma ImageTail(identity: seq<Word>)
    ensures PUT_IMAGE.tail(identity) == RawData(ImageBytes(Nth(identity, 0)))
  {
  }

  lemma ImageRaw(s: StoreTraits)
    ensures forall identity :: s.Raw(PUT_IMAGE.tail(identity))
  {
    forall identity: seq<Word> ensures s.Raw(PUT_IMAGE.tail(identity)) {
      ImageTail(identity);
      var n := ImageBytes(Nth(identity, 0));
      assert n % 4 == 0;
      RawDataRaw(s, n);
    }
  }

  lemma PixmapRaw(t: Settings)
    ensures forall identity ::
      TraitsOf(t, CreatePixmap).Raw(CREATE_PIXMAP.tail(identity)) && CREATE_PIXMAP.tail(identity).codecs == []
  {
  }

  function StoreOf(t: Settings, k: Kind): Store {
    TraitsConsistent(t, k);
    TraitsOf(t, k)
  }

  function CatalogOf(t: Settings): CatalogTraits {
    CatalogTraits(k => StoreOf(t, k))
  }

  lemma CatalogProper(t: Settings)
    ensures CatalogOf(t).Proper()
  {
    forall k: Kind ensures KindOf(StoreOf(t, k)) == k && StoreOf(t, k).c.opcode == OpcodeOf(k) {
      ClassSound(k);
      OpcodeOfClass(k);
    }
  }

  lemma OpcodeOfClass(k: Kind)
    ensures ClassOf(k).opcode == OpcodeOf(k)
  {
  }

  /** Every session of a new pair of proxies, whatever the settings, the numbers of slots, the
      channels and the decisions of the encoding side: the decoding side reads every frame to its end
      and writes out, for every request in order, what the X server is to be told by it; unless, and
      only if, a packet of a split without data is sent. */
  lemma NewProxiesArrive(t: Settings, slots: Kind -> nat, es: seq<Event>, xs: seq<Arrival>)
    requires forall k: Kind :: slots(k) <= MAX_SLOTS
    requires SessionOf(CatalogOf(t), FreshEncoding(slots), es) && AllDelivered(es, xs)
    ensures SessionFinds(CatalogOf(t), FreshEncoding(slots), es, HandleSession(CatalogOf(t), FreshDecoding(slots), xs))
  {
    CatalogProper(t);
    FreshLinked(CatalogOf(t), slots);
    SessionArrives(CatalogOf(t), FreshEncoding(slots), FreshDecoding(slots), es, xs);
  }

  /** Some store splits the data parts of its requests.  All stores of the sources leave their split
      switches off. */
  predicate SplitsSomeData(t: Settings) {
    t.imageSplit || (t.pixmapSplit && t.pixmapData)
  }

  lemma NoDataIsSplit(t: Settings)
    requires !SplitsSomeData(t)
    ensures NoDataSplit(CatalogOf(t))
  {
    forall k: Kind ensures !StoreOf(t, k).SplitsData() {
      CodingIs(t, k);
      CodingUnsplit(t, k, StoreOf(t, k));
    }
  }

  lemma CodingUnsplit(t: Settings, k: Kind, s: StoreTraits)
    requires !SplitsSomeData(t) && s.coding == CodingOf(t, k)
    ensures !s.SplitsData()
  {
  }

  lemma CodingIs(t: Settings, k: Kind)
    ensures StoreOf(t, k).coding == CodingOf(t, k)
  {
  }

  /** With the split switches off, as they are set, every session of a new pair of proxies is read and
      leads to what is expected of it, without exception. */
  lemma UnsplitArrives(t: Settings, slots: Kind -> nat, es: seq<Event>, xs: seq<Arrival>)
    requires !SplitsSomeData(t) && forall k: Kind :: slots(k) <= MAX_SLOTS
    requires SessionOf(CatalogOf(t), FreshEncoding(slots), es) && AllDelivered(es, xs)
    ensures var x := HandleSession(CatalogOf(t), FreshDecoding(slots), xs);
            x.SessionRead? && SessionExpected(CatalogOf(t), FreshEncoding(slots), es, x.outputs) &&
            ProxiesLinked(CatalogOf(t), AfterSession(CatalogOf(t), FreshEncoding(slots), es), x.next)
  {
    NoDataIsSplit(t);
    LoadedSession(CatalogOf(t), FreshEncoding(slots), es);
    NewProxiesArrive(t, slots, es, xs);
  }
}
