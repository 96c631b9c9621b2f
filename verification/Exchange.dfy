/**
 One request through one message store: handleEncode and handleDecode of nxcomp/src/Channel.cpp
 with handleEncodeCached, handleDecodeCached, handleCompress, handleDecompress and the saving
 of requests, as functions of the store's slots.  Which messages the encoding side removes and
 which slot it picks for a new one is left open here: MessageStore.dfy has that.
 */
module Exchange {
  import opened Words
  import opened Buffers
  import opened ClientCache
  import opened Tokens
  import opened Streams
  import opened Messages
  import opened Fingerprints
  import opened Rebuilding

  // ----- Stores -----

  /** A cached message.  The encoding side keeps the checksum and no data, the decoding side the
      data and no checksum; `compressedSize` is 0 unless the data is held compressed. */
  datatype Content = Content(
    identity: seq<Word>,
    size: nat,
    compressedSize: nat,
    checksum: Option<Bytes>,
    data: Bytes,
    locks: nat)

  type Slots = seq<Option<Content>>

  /** The requests that are coded in the loop over all opcodes, and those that go through
      handleEncode, with the three switches of the store. */
  datatype Coding = Direct | General(data: bool, split: bool, compress: bool)

  /** The compression library: `compress` may decline.  What it produces has two bytes at least, the
      header of a stream. */
  datatype Compressor = Compressor(compress: Bytes -> Option<Bytes>, decompress: (Bytes, nat) -> Option<Bytes>) {
    ghost predicate Faithful() {
      forall d :: compress(d).Some? ==> 2 <= |compress(d).value| && decompress(compress(d).value, |d|) == Some(d)
    }

    /** A result that is not smaller is not used. */
    function Smaller(d: Bytes): (z: Option<Bytes>)
      ensures z.Some? ==> |z.value| < |d| && z == compress(d)
    {
      match compress(d)
      case None => None
      case Some(z) => if |z| < |d| then Some(z) else None
    }
  }

  /** What does not change about a message store: its class, how its requests are coded, the
      compressor and the byte order of the client. */
  datatype StoreTraits = StoreTraits(c: MessageClass, coding: Coding, compressor: Compressor, bigEndian: bool) {
    /** The data part is sent as raw bytes, in whole words. */
    ghost predicate Raw(t: Tail) {
      var n := |t.codecs|;
      t.width == 1 && n % 4 == 0 && t.align == (n > 0) && forall j :: 0 <= j < n ==> t.codecs[j] == RawByte
    }

    ghost predicate Consistent() {
      && c.Sound()
      && compressor.Faithful()
      && (coding.General? ==> forall identity :: c.accepts(identity) ==>
            Raw(c.tail(identity)) && (!coding.data ==> c.tail(identity).codecs == []))
    }

    ghost predicate Sound() {
      forall n: nat :: Opening(n) ==> Consistent()
    }

    predicate Splits() {
      coding.General? && coding.split
    }

    predicate SplitsData() {
      coding.General? && coding.split && coding.data
    }

    predicate Compresses() {
      coding.General? && coding.data && coding.compress
    }
  }

  /** Marks the places where the definitions of a store are looked into: the quantifiers that
      mention it have no other instances, so that elsewhere they are not unfolded. */
  ghost predicate Opening(n: nat) {
    n >= 0
  }

  type Store = s: StoreTraits | s.Sound() ghost witness SomeStore()

  ghost function SomeStore(): StoreTraits {
    StoreTraits(MessageClass(CopyArea, 0, 12, [], [], [], [], [], _ => true, _ => TailShape(false, [], 1)),
                Direct, Compressor(_ => None, (_, _) => None), false)
  }

  lemma StoreFacts(s: Store)
    ensures s.Consistent()
  {
    assert Opening(0);
  }

  /** A request that the store handles. */
  ghost predicate Good(s: Store, m: Bytes) {
    |m| >= s.c.identitySize && forall n: nat :: Opening(n) ==> WellFormed(s.c, s.bigEndian, m)
  }

  lemma GoodFacts(s: Store, m: Bytes)
    requires Good(s, m)
    ensures s.Consistent() && WellFormed(s.c, s.bigEndian, m)
  {
    assert Opening(0);
  }

  lemma GoodRequest(s: Store, m: Bytes)
    requires Good(s, m)
    ensures WellFormed(s.c, s.bigEndian, m)
  {
    assert Opening(0);
  }

  // ----- The class of a store -----

  function Arity(s: Store): nat {
    |s.c.codecs|
  }

  function KindOf(s: Store): Kind {
    s.c.kind
  }

  /** parseIdentity. */
  function ParsedIdentity(s: Store, m: Bytes): (vs: seq<Word>)
    requires |m| >= s.c.identitySize
    ensures |vs| == Arity(s)
  {
    StoreFacts(s);
    Parsed(s.c, s.bigEndian, m)
  }

  function ArrivedIdentity(s: Store, m: Bytes): (vs: seq<Word>)
    requires Good(s, m)
    ensures |vs| == Arity(s)
  {
    StoreFacts(s);
    DeliveredIdentity(s.c, s.bigEndian, m)
  }

  function ChecksumOf(s: Store, m: Bytes): Bytes
    requires Good(s, m)
  {
    GoodFacts(s, m);
    Checksum(s.c, s.bigEndian, m)
  }

  /** The data part after parseIdentity. */
  function DataOf(s: Store, m: Bytes): (d: Bytes)
    requires Good(s, m)
    ensures |d| == |m| - s.c.identitySize && |d| < 0x1_0000_0000
  {
    GoodFacts(s, m);
    LengthTold(s.c, s.bigEndian, m);
    Data(s.c, s.bigEndian, m)
  }

  function TailFor(s: Store, m: Bytes): Tail
    requires Good(s, m)
  {
    GoodFacts(s, m);
    TailOf(s.c, s.bigEndian, m)
  }

  /** The identity fields as they stand in the bytes of a request. */
  function FieldsOf(s: Store, m: Bytes): (vs: seq<Word>)
    requires |m| >= s.c.identitySize
    ensures |vs| == Arity(s)
  {
    StoreFacts(s);
    Fields(s.c, s.bigEndian, m)
  }

  function UpdateReads(s: Store): seq<ValidCodec> {
    UpdateCodecs(s.c.updates)
  }

  /** The tokens of a hit, and the cached identity that it leaves at the encoding side. */
  function Updating(s: Store, cached: seq<Word>, identity: seq<Word>): seq<Token>
    requires |cached| == |identity| == Arity(s)
  {
    StoreFacts(s);
    UpdateTokens(s.c.updates, cached, identity)
  }

  function Refreshing(s: Store, cached: seq<Word>, identity: seq<Word>): (vs: seq<Word>)
    requires |cached| == |identity| == Arity(s)
    ensures |vs| == Arity(s)
  {
    StoreFacts(s);
    Refreshed(s.c.updates, cached, identity)
  }

  /** The identity that a hit leaves at the decoding side. */
  function Restoring(s: Store, held: seq<Word>, values: seq<Word>): (vs: seq<Word>)
    requires |held| == Arity(s) && |values| == |UpdateReads(s)|
    ensures |vs| == Arity(s)
  {
    StoreFacts(s);
    Applied(s.c.updates, held, values)
  }

  /** A request in the write buffer, where `scratch` was. */
  function Writing(s: Store, scratch: Bytes, identity: seq<Word>, data: Bytes): (out: Bytes)
    requires |identity| == Arity(s)
    ensures |out| == s.c.identitySize + |data| && out[s.c.identitySize..] == data
  {
    StoreFacts(s);
    Request(s.c, s.bigEndian, Blank(scratch, 0, s.c.identitySize), identity, data)
  }

  /** What is found in the memory that a request is written to. */
  function Blank(scratch: Bytes, from: nat, n: nat): (b: Bytes)
    ensures |b| == n
  {
    seq(n, i requires 0 <= i < n => if from + i < |scratch| then scratch[from + i] else 0)
  }

  /** What the encoding side decides for a request. */
  datatype Decision = Discard | Add(position: nat) | Hit(position: nat)

  // ----- Tokens -----

  const IS_HIT: nat := 0
  const IS_ADDED: nat := 1
  const IS_DISCARDED: nat := 2
  const IS_REMOVED: nat := 3

  /** Positions have thirteen bits. */
  const MAX_SLOTS: nat := 0x2000

  function ActionWord(action: nat, position: nat): Word
    requires action < 4 && position < MAX_SLOTS
  {
    action * MAX_SLOTS + position
  }

  function ActionToken(k: Kind, action: nat, position: nat): Token
    requires action < 4 && position < MAX_SLOTS
  {
    Token(Slotted(Actions(k)), ActionWord(action, position))
  }

  function DecisionToken(k: Kind, d: Decision): Token
    requires d.Discard? || d.position < MAX_SLOTS
  {
    match d
    case Discard => ActionToken(k, IS_DISCARDED, 0)
    case Add(p) => ActionToken(k, IS_ADDED, p)
    case Hit(p) => ActionToken(k, IS_HIT, p)
  }

  function Removals(k: Kind, ps: seq<nat>): (ts: seq<Token>)
    requires forall i :: 0 <= i < |ps| ==> ps[i] < MAX_SLOTS
  {
    if ps == [] then [] else [ActionToken(k, IS_REMOVED, ps[0])] + Removals(k, ps[1..])
  }

  function Flag(b: bool): Token {
    Token(Plain(1, 0), if b then 1 else 0)
  }

  function Zip(cs: seq<ValidCodec>, vs: seq<Word>): (ts: seq<Token>)
    requires |cs| == |vs|
    ensures |ts| == |cs| && forall i :: 0 <= i < |ts| ==> ts[i] == Token(cs[i], vs[i])
  {
    seq(|cs|, i requires 0 <= i < |cs| => Token(cs[i], vs[i]))
  }

  function IdentityTokens(s: Store, m: Bytes): seq<Token>
    requires Good(s, m)
  {
    GoodFacts(s, m);
    Zip(s.c.codecs, Fields(s.c, s.bigEndian, m))
  }

  function BodyTokens(s: Store, m: Bytes): seq<Token>
    requires Good(s, m)
  {
    GoodFacts(s, m);
    AlignedTokens(TailOf(s.c, s.bigEndian, m), TailValues(s.c, s.bigEndian, m))
  }

  function AlignedTokens(t: Tail, vs: seq<Word>): seq<Token>
    requires |vs| == |t.codecs|
  {
    (if t.align then [Token(Align, 0)] else []) + Zip(t.codecs, vs)
  }

  function RawCodecs(n: nat): (cs: seq<ValidCodec>)
    ensures |cs| == n && forall j :: 0 <= j < n ==> cs[j] == RawByte
  {
    seq(n, _ => RawByte)
  }

  /** encodeMemory: the stream is aligned first. */
  function BytesTokens(d: Bytes): seq<Token> {
    [Token(Align, 0)] + Zip(RawCodecs(|d|), d)
  }

  const SIZE_CODE: ValidCodec := Plain(32, 14)

  /** compressBuffer at the encoding side. */
  function CompressTokens(k: Compressor, d: Bytes): seq<Token>
    requires |d| < 0x1_0000_0000
  {
    if d == [] then []
    else match k.Smaller(d)
      case None => [Flag(false)] + BytesTokens(d)
      case Some(z) => [Flag(true), Token(SIZE_CODE, |z|), Token(SIZE_CODE, |d|)] + BytesTokens(z)
  }

  /** The data part, when it follows the identity at once. */
  function DataTokens(s: Store, m: Bytes): seq<Token>
    requires Good(s, m)
  {
    if s.Compresses() then CompressTokens(s.compressor, DataOf(s, m))
    else if s.coding.General? && !s.coding.data then []
    else BodyTokens(s, m)
  }

  /** A request taken by a split sends no data: a flag tells that there is no checksum to look
      it up by. */
  function RestTokens(s: Store, m: Bytes, take: bool): seq<Token>
    requires Good(s, m)
  {
    if TakenByMiss(s, take) then [Flag(false)] else DataTokens(s, m)
  }

  function TakeTokens(asked: bool, take: bool): seq<Token> {
    if asked then [Flag(take)] else []
  }

  /** A request that was not found in the cache. */
  function MissTokens(s: Store, m: Bytes, take: bool): seq<Token>
    requires Good(s, m)
  {
    IdentityTokens(s, m) + (TakeTokens(s.SplitsData(), take) + RestTokens(s, m, take))
  }

  function HitTokens(s: Store, cached: Content, m: Bytes, take: bool): seq<Token>
    requires Good(s, m) && |cached.identity| == Arity(s)
  {
    Updating(s, cached.identity, ParsedIdentity(s, m)) + TakeTokens(s.Splits(), take)
  }

  /** A message of the split store is locked until it is recomposed. */
  function TakenByMiss(s: Store, take: bool): bool {
    s.SplitsData() && take
  }

  // ----- The encoding side -----

  ghost predicate Unlocked(slots: Slots, p: nat) {
    p < |slots| && slots[p].Some? && slots[p].value.locks == 0
  }

  ghost predicate CanRemove(slots: Slots, ps: seq<nat>)
    decreases |ps|
  {
    ps == [] || (Unlocked(slots, ps[0]) && CanRemove(slots[ps[0] := None], ps[1..]))
  }

  function Removed(slots: Slots, ps: seq<nat>): (r: Slots)
    requires forall i :: 0 <= i < |ps| ==> ps[i] < |slots|
    ensures |r| == |slots|
    decreases |ps|
  {
    if ps == [] then slots else Removed(slots[ps[0] := None], ps[1..])
  }

  /** The decisions open to the encoding side: a hit names an unlocked message with the checksum
      of the request, an addition a slot that is free or holds an unlocked message. */
  ghost predicate CanDecide(s: Store, slots: Slots, m: Bytes, d: Decision)
    requires Good(s, m)
  {
    match d
    case Discard => true
    case Add(p) => p < |slots| && (slots[p].None? || Unlocked(slots, p))
    case Hit(p) => Unlocked(slots, p) && slots[p].value.checksum == Some(ChecksumOf(s, m)) &&
                   |slots[p].value.identity| == Arity(s)
  }

  /** The compressed size recorded for an added message. */
  function AddedSize(s: Store, m: Bytes): nat
    requires Good(s, m)
  {
    var d := DataOf(s, m);
    if !s.Compresses() || d == [] then 0
    else match s.compressor.Smaller(d)
      case None => 0
      case Some(z) => |z| + s.c.identitySize
  }

  /** What the encoding side keeps of a request. */
  function KeptContent(s: Store, m: Bytes, take: bool): Content
    requires Good(s, m)
  {
    Content(ParsedIdentity(s, m), |m|, if TakenByMiss(s, take) then 0 else AddedSize(s, m), Some(ChecksumOf(s, m)), [],
            if TakenByMiss(s, take) then 1 else 0)
  }

  /** The slots of the encoding side after its decision. */
  function Encoded(s: Store, slots: Slots, m: Bytes, d: Decision, take: bool): (r: Slots)
    requires Good(s, m) && CanDecide(s, slots, m, d)
    ensures |r| == |slots|
  {
    match d
    case Discard => slots
    case Add(p) => slots[p := Some(KeptContent(s, m, take))]
    case Hit(p) =>
      var e := slots[p].value;
      slots[p := Some(e.(identity := Refreshing(s, e.identity, ParsedIdentity(s, m))))]
  }

  /** Everything sent for a request behind its opcode. */
  function RequestTokens(s: Store, slots: Slots, m: Bytes, ps: seq<nat>, d: Decision, take: bool): seq<Token>
    requires Good(s, m) && |slots| <= MAX_SLOTS
    requires forall i :: 0 <= i < |ps| ==> ps[i] < |slots|
    requires CanDecide(s, Removed(slots, ps), m, d)
  {
    var head := Removals(KindOf(s), ps) + [DecisionToken(KindOf(s), d)];
    head +
    match d
    case Hit(p) => HitTokens(s, Removed(slots, ps)[p].value, m, take)
    case _ => MissTokens(s, m, take)
  }

  // ----- The decoding side -----

  datatype ActionReading = NoAction | ActionRead(decision: Decision, slots: Slots, next: Receiver)

  /** The loop over removals and the action that ends it. */
  function ReadActions(k: Kind, slots: Slots, r: Receiver): (g: ActionReading)
    ensures g.ActionRead? ==> |g.slots| == |slots| && g.next.stream == r.stream
    decreases |r.stream| - r.pos
  {
    match Receive(Slotted(Actions(k)), r)
    case Unread(_) => NoAction
    case Received(v, r') =>
      var action, position := v / MAX_SLOTS, v % MAX_SLOTS;
      if action == IS_REMOVED then
        if position < |slots| && slots[position].Some? then ReadActions(k, slots[position := None], r') else NoAction
      else if action == IS_HIT then ActionRead(Hit(position), slots, r')
      else if action == IS_ADDED then ActionRead(Add(position), slots, r')
      else ActionRead(Discard, slots, r')
  }

  datatype FlagReading = NoFlag | FlagRead(flag: bool, next: Receiver)

  function ReadFlag(r: Receiver): FlagReading {
    match Receive(Plain(1, 0), r)
    case Unread(_) => NoFlag
    case Received(v, r') => FlagRead(v == 1, r')
  }

  datatype BytesReading = NoBytes | BytesRead(bytes: Bytes, next: Receiver)

  function Truncated(vs: seq<Word>): (d: Bytes)
    ensures |d| == |vs|
  {
    seq(|vs|, i requires 0 <= i < |vs| => vs[i] % 0x100)
  }

  function ReadValues(t: Tail, bigEndian: bool, r: Receiver): BytesReading {
    match ReceiveAll(t.codecs, r)
    case UnreadAll => NoBytes
    case ReceivedAll(vs, r') => BytesRead(Stored(bigEndian, vs, t.width), r')
  }

  function ReadBody(t: Tail, bigEndian: bool, r: Receiver): BytesReading {
    if !t.align then ReadValues(t, bigEndian, r)
    else match Receive(Align, r)
      case Unread(_) => NoBytes
      case Received(_, r') => ReadValues(t, bigEndian, r')
  }

  /** decodeMemory. */
  function ReadBytes(n: nat, r: Receiver): BytesReading {
    match Receive(Align, r)
    case Unread(_) => NoBytes
    case Received(_, r') =>
      match ReceiveAll(RawCodecs(n), r')
      case UnreadAll => NoBytes
      case ReceivedAll(vs, r'') => BytesRead(Truncated(vs), r'')
  }

  /** The data part as it is written out and as it is kept. */
  datatype DataReading = NoData | DataRead(data: Bytes, kept: Bytes, compressed: bool, next: Receiver)

  /** decompressBuffer at the decoding side. */
  function ReadCompressed(k: Compressor, n: nat, r: Receiver): DataReading {
    if n == 0 then DataRead([], [], false, r)
    else match ReadFlag(r)
      case NoFlag => NoData
      case FlagRead(compressed, r') =>
        if !compressed then
          match ReadBytes(n, r')
          case NoBytes => NoData
          case BytesRead(d, r'') => DataRead(d, d, false, r'')
        else ReadCompressedSizes(k, n, r')
  }

  function ReadCompressedSizes(k: Compressor, n: nat, r: Receiver): DataReading {
    match ReceiveAll([SIZE_CODE, SIZE_CODE], r)
    case UnreadAll => NoData
    case ReceivedAll(sizes, r') =>
      match ReadBytes(sizes[0], r')
      case NoBytes => NoData
      case BytesRead(z, r'') =>
        match k.decompress(z, n)
        case None => NoData
        case Some(d) => if sizes[1] == n == |d| then DataRead(d, z, true, r'') else NoData
  }

  /** The data part with its padding, which parseIdentity clears in a request that is saved; `from`
      is where the data part starts in the request. */
  function Padded(body: Bytes, size: nat, saved: bool, scratch: Bytes, from: nat): (d: Bytes)
    requires |body| <= size
    ensures |d| == size && d[..|body|] == body
  {
    body + if saved then Zeros(size - |body|) else Blank(scratch, from + |body|, size - |body|)
  }

  function ReadData(s: Store, t: Tail, saved: bool, scratch: Bytes, r: Receiver): DataReading {
    var size := RoundUp4(t.Size());
    if s.Compresses() then ReadCompressed(s.compressor, size, r)
    else if s.coding.General? && !s.coding.data then
      var d := Blank(scratch, s.c.identitySize, size);
      DataRead(d, d, false, r)
    else ReadPlain(s, t, saved, scratch, r)
  }

  function ReadPlain(s: Store, t: Tail, saved: bool, scratch: Bytes, r: Receiver): DataReading {
    match ReadBody(t, s.bigEndian, r)
    case NoBytes => NoData
    case BytesRead(body, r') =>
      var size := RoundUp4(t.Size());
      if |body| > size then NoData
      else
        var d := Padded(body, size, saved, scratch, s.c.identitySize);
        DataRead(d, d, false, r')
  }

  /** One decoded request: the request as written out, whether it was taken by a split, and the
      slots afterwards. */
  datatype Decoding = Failed | Decoded(out: Bytes, decision: Decision, taken: bool, slots: Slots, next: Receiver)

  /** The data part of a cached message, decompressed if needed. */
  function Unparsed(s: Store, held: Content): Option<Bytes> {
    var n := if held.size < s.c.identitySize then 0 else held.size - s.c.identitySize;
    if held.compressedSize == 0 then if |held.data| == n then Some(held.data) else None
    else match s.compressor.decompress(held.data, n)
      case None => None
      case Some(d) => if |d| == n then Some(d) else None
  }

  /** Reads whether a request goes to the split store, if the store splits requests at all. */
  function ReadTaken(asked: bool, r: Receiver): FlagReading {
    if asked then ReadFlag(r) else FlagRead(false, r)
  }

  function DecodeHit(s: Store, slots: Slots, p: nat, scratch: Bytes, r: Receiver): Decoding {
    if p >= |slots| || slots[p].None? || |slots[p].value.identity| != Arity(s) then Failed
    else match ReceiveAll(UpdateReads(s), r)
      case UnreadAll => Failed
      case ReceivedAll(vs, r') =>
        var identity := Restoring(s, slots[p].value.identity, vs);
        match Unparsed(s, slots[p].value)
        case None => Failed
        case Some(d) =>
          match ReadTaken(s.Splits(), r')
          case NoFlag => Failed
          case FlagRead(taken, r'') =>
            Decoded(Writing(s, scratch, identity, d), Hit(p), taken,
                    slots[p := Some(slots[p].value.(identity := identity))], r'')
  }

  /** handleSaveAdded: a request that is added is parsed and stored. */
  function Saved(s: Store, slots: Slots, d: Decision, out: Bytes, content: Content): (r: Option<Slots>)
    requires |out| >= s.c.identitySize
  {
    match d
    case Add(p) =>
      if p < |slots| then Some(slots[p := Some(content.(identity := ParsedIdentity(s, out), size := |out|))]) else None
    case _ => Some(slots)
  }

  function Decodes(saved: Option<Slots>, out: Bytes, d: Decision, taken: bool, next: Receiver): Decoding {
    match saved
    case None => Failed
    case Some(slots) => Decoded(out, d, taken, slots, next)
  }

  /** A request taken by a split: saved, if at all, without its data. */
  function DecodeTaken(s: Store, slots: Slots, d: Decision, identity: seq<Word>, scratch: Bytes, r: Receiver): Decoding
    requires |identity| == Arity(s)
  {
    match ReadFlag(r)
    case NoFlag => Failed
    case FlagRead(checksum, r') =>
      if checksum then Failed
      else
        var n := RoundUp4(s.c.tail(identity).Size());
        var out := Writing(s, scratch, identity, Blank(scratch, s.c.identitySize, n));
        Decodes(Saved(s, slots, d, out, Content([], 0, 0, None, Zeros(n), 1)), out, d, true, r')
  }

  function DecodeWhole(s: Store, slots: Slots, d: Decision, identity: seq<Word>, scratch: Bytes, r: Receiver): Decoding
    requires |identity| == Arity(s)
  {
    WriteWhole(s, slots, d, identity, scratch, ReadData(s, s.c.tail(identity), d.Add?, scratch, r))
  }

  /** A request whose data part was read is written out, and saved if it was added. */
  function WriteWhole(s: Store, slots: Slots, d: Decision, identity: seq<Word>, scratch: Bytes, g: DataReading): Decoding
    requires |identity| == Arity(s)
  {
    match g
    case NoData => Failed
    case DataRead(data, kept, compressed, next) =>
      var out := Writing(s, scratch, identity, data);
      var compressedSize := if compressed then |kept| + s.c.identitySize else 0;
      Decodes(Saved(s, slots, d, out, Content([], 0, compressedSize, None, kept, 0)), out, d, false, next)
  }

  function DecodeRest(s: Store, slots: Slots, d: Decision, identity: seq<Word>, scratch: Bytes, r: Receiver): Decoding
    requires |identity| == Arity(s)
  {
    match ReadTaken(s.SplitsData(), r)
    case NoFlag => Failed
    case FlagRead(taken, r') =>
      if taken then DecodeTaken(s, slots, d, identity, scratch, r')
      else DecodeWhole(s, slots, d, identity, scratch, r')
  }

  function DecodeMiss(s: Store, slots: Slots, d: Decision, scratch: Bytes, r: Receiver): Decoding {
    match ReceiveAll(s.c.codecs, r)
    case UnreadAll => Failed
    case ReceivedAll(identity, r') =>
      DecodeRest(s, slots, d, identity, scratch, r')
  }

  function DecodeRequest(s: Store, slots: Slots, scratch: Bytes, r: Receiver): Decoding {
    match ReadActions(KindOf(s), slots, r)
    case NoAction => Failed
    case ActionRead(d, slots', r') => DecodeDecided(s, slots', d, scratch, r')
  }

  /** A request behind its decision. */
  function DecodeDecided(s: Store, slots: Slots, d: Decision, scratch: Bytes, r: Receiver): Decoding {
    match d
    case Hit(p) => DecodeHit(s, slots, p, scratch, r)
    case _ => DecodeMiss(s, slots, d, scratch, r)
  }

  // ----- Positions that are refused -----

  /** An action to remove names an occupied slot, which is emptied, or the request fails. */
  lemma RemovalChecked(k: Kind, slots: Slots, r: Receiver, p: nat, next: Receiver)
    requires p < 0x2000 && Receive(Slotted(Actions(k)), r) == Received(0x6000 + p, next)
    ensures ReadActions(k, slots, r) ==
            if p < |slots| && slots[p].Some? then ReadActions(k, slots[p := None], next) else NoAction
  {
  }

  /** Any other action is the decision, and the slots stay as they are. */
  lemma DecisionChecked(k: Kind, slots: Slots, r: Receiver, action: nat, p: nat, next: Receiver)
    requires action < 3 && p < 0x2000 && Receive(Slotted(Actions(k)), r) == Received(action * 0x2000 + p, next)
    ensures ReadActions(k, slots, r) ==
            ActionRead(if action == 0 then Hit(p) else if action == 1 then Add(p) else Discard, slots, next)
  {
  }

  /** A hit of an empty slot fails, and so does any position beyond the slots. */
  lemma PositionChecked(s: Store, slots: Slots, d: Decision, scratch: Bytes, r: Receiver)
    requires !d.Discard? && (d.position >= |slots| || (d.Hit? && slots[d.position].None?))
    ensures DecodeDecided(s, slots, d, scratch, r) == Failed
  {
  }
}
