/**
 The prediction caches: nxcomp/src/ClientCache.h and ClientCache.cpp, with XidCache, ActionCache,
 OpcodeCache and FreeCache.  Each proxy has one set of them, which all its channels share.
 */
module ClientCache {
  import opened Words
  import opened CharCache
  import opened IntCache

  const BYTE_BITS: nat := 8

  /** The top three bits of an X identifier are always zero. */
  const XID_BITS: nat := 29

  const COORDINATE_BITS: nat := 16

  /** Two bits of action and thirteen of position. */
  const ACTION_BITS: nat := 15

  /** The request classes that are modelled, each with its own message store. */
  datatype Kind = CreateGC | ChangeGC | ConfigureWindow | CopyArea | ChangeProperty | CreatePixmap | PutImage

  /** Sizes in bits of the optional fields of CreateGC and ChangeGC. */
  const CREATEGC_FIELD_WIDTH: seq<nat> :=
    [4, 32, 32, 32, 16, 2, 2, 2, 2, 1, 29, 29, 16, 16, 29, 1, 1, 16, 16, 29, 16, 8, 1]

  /** Sizes in bits of the optional fields of ConfigureWindow. */
  const CONFIGUREWINDOW_FIELD_WIDTH: seq<nat> := [16, 16, 16, 16, 16, 29, 3]

  datatype IntName =
    | FreeGC | FreeDrawable | LastIds
    | CopyAreaGeom(i: nat)
    | CreateGCBitmask | CreateGCAttr(i: nat)
    | ConfigureWindowBitmask | ConfigureWindowAttr(i: nat)
    | PropertyName | PropertyType | PropertyData32
    | PixmapX | PixmapY
    | ImageWidth | ImageHeight | ImageX | ImageY

  /** The capacity given to each cache by the ClientCache constructor.  The caches of the GC
      fields of four bits or less are never used; they count as having room for three. */
  function IntSize(name: IntName): (n: nat)
    ensures 3 <= n
  {
    match name
    case FreeGC | FreeDrawable | LastIds | PropertyName | PropertyType | PropertyData32 => 16
    case CreateGCAttr(i) =>
      if i >= 23 || CREATEGC_FIELD_WIDTH[i] > 16 then 16
      else if CREATEGC_FIELD_WIDTH[i] < 3 then 3 else CREATEGC_FIELD_WIDTH[i]
    case ConfigureWindowBitmask => 4
    case _ => 8
  }

  datatype CharName = Depth | PropertyFormat | ImageLeftPad | Resource

  /** The caches indexed by the low byte of the last value: XidCache and ActionCache. */
  datatype SlottedName = GCs | Drawables | Windows | Actions(kind: Kind)

  /** The width of the values of a slotted cache: an X identifier, or an action and a position. */
  function SlottedWidth(name: SlottedName): nat {
    if name.Actions? then ACTION_BITS else XID_BITS
  }

  /** 256 caches of differences, the slot in use and the last value seen. */
  datatype SlottedState = SlottedState(base: seq<Ints>, slot: nat, last: Word) {
    predicate Valid() {
      |base| == 256 && slot < 256
    }
  }

  type SlottedCache = s: SlottedState | s.Valid() witness SlottedState(seq(256, _ => IntState(3, [], 0, 0, 0)), 0, 0)

  /** 256 caches of opcodes, one for each opcode just seen. */
  datatype OpcodeState = OpcodeState(base: seq<Chars>, slot: Byte)

  type Opcodes = s: OpcodeState | |s.base| == 256 witness OpcodeState(seq(256, _ => []), 0)

  datatype LastName = ImageLastX | ImageLastY

  datatype Caches = Caches(
    ints: map<IntName, Ints>,
    chars: map<CharName, Chars>,
    slotted: map<SlottedName, SlottedCache>,
    lasts: map<LastName, Word>,
    lastId: Word,
    opcodes: Opcodes)
  {
    /** A cache that was never used is as its constructor left it. */
    function Int(name: IntName): Ints {
      if name in ints then ints[name] else Fresh(IntSize(name))
    }

    function Char(name: CharName): Chars {
      if name in chars then chars[name] else []
    }

    function Slot(name: SlottedName): SlottedCache {
      if name in slotted then slotted[name] else SlottedState(seq(256, _ => Fresh(8)), 0, 0)
    }

    function Last(name: LastName): Word {
      if name in lasts then lasts[name] else 0
    }
  }

  function FreshCaches(): Caches {
    Caches(map[], map[], map[], map[], 0, OpcodeState(seq(256, _ => []), 0))
  }

  /** The encoding side remembers whole words, the decoding side only the bits it was sent. */
  ghost predicate SlottedInStep(a: SlottedCache, b: SlottedCache, bits: nat) {
    a.base == b.base && a.slot == b.slot && b.last == Low(a.last, bits)
  }

  /** The caches of the encoding side a and of the decoding side b are in step. */
  ghost predicate InStep(a: Caches, b: Caches) {
    && a.ints == b.ints && a.chars == b.chars && a.opcodes == b.opcodes
    && (forall name :: SlottedInStep(a.Slot(name), b.Slot(name), SlottedWidth(name)))
    && (forall name :: b.Last(name) == Low(a.Last(name), COORDINATE_BITS))
    && b.lastId == Low(a.lastId, XID_BITS)
  }

  lemma FreshInStep()
    ensures InStep(FreshCaches(), FreshCaches())
  {
    LowIdentity(0, 29);
    LowIdentity(0, 15);
    LowIdentity(0, 16);
  }
}
