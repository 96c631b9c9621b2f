/**
 The requests of one channel: ClientChannel::handleRead writes them, with the packets and commits
 of splits in between, and ServerChannel::handleWrite reads them.
 */
module Channel {
  import opened Words
  import opened Buffers
  import opened SelfOrganising
  import opened ClientCache
  import opened Tokens
  import opened Streams
  import opened Exchange
  import opened Splits

  // ----- Opcodes -----

  /** The opcode of a request (Appendix B of the X Window System Protocol, Version 11). */
  function OpcodeOf(k: Kind): Byte {
    match k
    case CreateGC => 55
    case ChangeGC => 56
    case ConfigureWindow => 12
    case CopyArea => 62
    case ChangeProperty => 18
    case CreatePixmap => 53
    case PutImage => 72
  }

  function KindWith(opcode: Byte): (k: Option<Kind>)
    ensures k.Some? ==> OpcodeOf(k.value) == opcode
  {
    if opcode == 55 then Some(CreateGC)
    else if opcode == 56 then Some(ChangeGC)
    else if opcode == 12 then Some(ConfigureWindow)
    else if opcode == 62 then Some(CopyArea)
    else if opcode == 18 then Some(ChangeProperty)
    else if opcode == 53 then Some(CreatePixmap)
    else if opcode == 72 then Some(PutImage)
    else None
  }

  lemma KindFound(k: Kind)
    ensures KindWith(OpcodeOf(k)) == Some(k) && OpcodeOf(k) < START_SPLIT
  {
  }

  const START_SPLIT: Byte := 234
  const END_SPLIT: Byte := 235
  const SPLIT_DATA: Byte := 236
  const COMMIT_SPLIT: Byte := 237

  // ----- The stores -----

  /** A message store for each class. */
  datatype CatalogTraits = CatalogTraits(store: Kind -> Store) {
    ghost predicate Proper() {
      forall k :: KindOf(store(k)) == k && store(k).c.opcode == OpcodeOf(k)
    }
  }

  type Stores = m: map<Kind, Slots> | forall k: Kind :: k in m
    witness map k: Kind :: []

  function Replaced(stores: Stores, kind: Kind, slots: Slots): Stores {
    stores[kind := slots]
  }

  // ----- The encoding side -----

  datatype Sender = Sender(
    caches: Caches, stores: Stores, pending: seq<Outgoing>, commits: seq<Outgoing>,
    resource: Option<Byte>, commit: Word)

  /** What the encoding side handles: a request, with the choices it makes; the agent's requests
      that start and end a sequence of splits; a packet of the first split of a resource; the
      agent's request that commits the first completed split, or drops it. */
  datatype Item =
    | RequestItem(kind: Kind, m: Bytes, removals: seq<nat>, decision: Decision, take: bool)
    | StartItem(resource: Byte)
    | EndItem
    | DataItem(resource: Byte, limit: int)
    | CommitItem(commit: bool)

  function Resources(os: seq<Outgoing>): (rs: seq<Byte>)
    ensures |rs| == |os| && forall i :: 0 <= i < |os| ==> rs[i] == os[i].resource
  {
    seq(|os|, i requires 0 <= i < |os| => os[i].resource)
  }

  /** The split at the head of the store of a resource, or the number of splits. */
  function FirstOf(os: seq<Outgoing>, resource: Byte): (i: nat)
    ensures i <= |os| && (i < |os| ==> os[i].resource == resource)
  {
    Find(Resources(os), resource)
  }

  /** The request goes to the split store. */
  function Taken(s: Store, d: Decision, take: bool): bool {
    if d.Hit? then s.Splits() && take else TakenByMiss(s, take)
  }

  ghost predicate Sendable(o: Outgoing) {
    o.next <= |o.data| < 0x1_0000_0000 && (!o.started ==> o.next == 0)
  }

  /** What the encoding side may handle next.  A request can be split only in a sequence of
      splits. */
  ghost predicate Allowed(cat: CatalogTraits, a: Sender, item: Item) {
    match item
    case RequestItem(kind, m, ps, d, take) =>
      var s, slots := cat.store(kind), a.stores[kind];
      && Good(s, m) && |slots| <= MAX_SLOTS && (forall i :: 0 <= i < |ps| ==> ps[i] < |slots|)
      && CanRemove(slots, ps) && CanDecide(s, Removed(slots, ps), m, d)
      && (Taken(s, d, take) ==> a.resource.Some?)
    case StartItem(_) => a.resource.None?
    case EndItem => a.resource.Some?
    case DataItem(resource, _) => var i := FirstOf(a.pending, resource); i < |a.pending| && Sendable(a.pending[i])
    case CommitItem(_) => a.commits != []
  }

  function ItemTokens(cat: CatalogTraits, a: Sender, item: Item): seq<Token>
    requires Allowed(cat, a, item)
  {
    match item
    case RequestItem(kind, m, ps, d, take) =>
      [Token(Opcode, OpcodeOf(kind))] + RequestTokens(cat.store(kind), a.stores[kind], m, ps, d, take)
    case StartItem(resource) => [Token(Opcode, START_SPLIT)] + [Token(CachedChar(Resource), resource)]
    case EndItem => [Token(Opcode, END_SPLIT)] + [Token(CachedChar(Resource), a.resource.value)]
    case DataItem(resource, limit) =>
      var o := a.pending[FirstOf(a.pending, resource)];
      [Token(Opcode, SPLIT_DATA)] + ([Token(CachedChar(Resource), resource)] + SplitTokens(cat.store(o.kind), o, limit))
    case CommitItem(commit) =>
      var o := a.commits[0];
      [Token(Opcode, COMMIT_SPLIT)] + CommitTokens(o, Minus(PositionOf(o.decision), a.commit), commit)
  }

  const COMMIT_CODE: ValidCodec := Plain(32, 5)

  const COMMIT_CODES: seq<ValidCodec> := [Opcode, COMMIT_CODE, CachedChar(Resource), Plain(1, 0)]

  function CommitTokens(o: Outgoing, diff: Word, commit: bool): seq<Token> {
    Zip(COMMIT_CODES, [OpcodeOf(o.kind), diff, o.resource, if commit then 1 else 0])
  }

  /** CommitStore::update: a message that was added gets its final size and is unlocked. */
  function UnlockedOutgoing(s: Store, e: Content, o: Outgoing): Content {
    e.(compressedSize := if o.compressedSize != 0 then o.compressedSize + s.c.identitySize else e.compressedSize,
       locks := if e.locks > 0 then e.locks - 1 else 0)
  }

  function Unlocking(s: Store, slots: Slots, o: Outgoing): Slots {
    match o.decision
    case Add(p) =>
      if p < |slots| && slots[p].Some? then slots[p := Some(UnlockedOutgoing(s, slots[p].value, o))] else slots
    case _ => slots
  }

  function WithoutAt<T>(xs: seq<T>, i: nat): seq<T>
    requires i < |xs|
  {
    xs[..i] + xs[i + 1..]
  }

  /** Split i has become o: once it is complete it moves to the commit store. */
  function Advanced(a: Sender, i: nat, o: Outgoing): Sender
    requires i < |a.pending|
  {
    if Complete(o) then a.(pending := WithoutAt(a.pending, i), commits := a.commits + [o])
    else a.(pending := a.pending[i := o])
  }

  function After(cat: CatalogTraits, a: Sender, item: Item): Sender
    requires Allowed(cat, a, item)
  {
    Stepped(cat, a, AfterAll(ItemTokens(cat, a, item), a.caches), item)
  }

  /** The encoding side after an item, with the given caches. */
  function Stepped(cat: CatalogTraits, a: Sender, caches: Caches, item: Item): Sender
    requires Allowed(cat, a, item)
  {
    var b := a.(caches := caches);
    match item
    case RequestItem(kind, m, ps, d, take) =>
      var s, slots := cat.store(kind), a.stores[kind];
      b.(stores := Replaced(a.stores, kind, Encoded(s, Removed(slots, ps), m, d, take)),
         pending := if Taken(s, d, take) then a.pending + [NewOutgoing(s, a.resource.value, d, m)] else a.pending)
    case StartItem(resource) => b.(resource := Some(resource))
    case EndItem => b.(resource := None)
    case DataItem(resource, limit) =>
      var i := FirstOf(a.pending, resource);
      var o := NextOutgoing(cat.store(a.pending[i].kind), a.pending[i], limit);
      Advanced(b, i, o)
    case CommitItem(_) =>
      var o := a.commits[0];
      b.(stores := Replaced(a.stores, o.kind, Unlocking(cat.store(o.kind), a.stores[o.kind], o)),
         commits := a.commits[1..], commit := PositionOf(o.decision))
  }

  // ----- The decoding side -----

  datatype Receiving = Receiving(
    r: Receiver, stores: Stores, pending: seq<Incoming>, commits: seq<Incoming>,
    resource: Option<Byte>, commit: Word)

  /** What is written to the X server: a request, a NoOperation in the place of one, or nothing
      for a packet, which is no request of the client. */
  datatype Output = Request(out: Bytes) | NullRequest | Nothing

  /** The connection is aborted, or memory is written past its end, or all is well. */
  datatype Handling = Broken | Overran | Handled(output: Output, next: Receiving)

  function IncomingResources(incoming: seq<Incoming>): (rs: seq<Byte>)
    ensures |rs| == |incoming| && forall i :: 0 <= i < |incoming| ==> rs[i] == incoming[i].resource
  {
    seq(|incoming|, i requires 0 <= i < |incoming| => incoming[i].resource)
  }

  function HandleRequest(cat: CatalogTraits, g: Receiving, kind: Kind, scratch: Bytes, r: Receiver): Handling {
    Conclude(cat, g, kind, DecodeRequest(cat.store(kind), g.stores[kind], scratch, r))
  }

  /** A decoded request is written out, or goes to the split store. */
  function Conclude(cat: CatalogTraits, g: Receiving, kind: Kind, x: Decoding): Handling {
    var s := cat.store(kind);
    match x
    case Failed => Broken
    case Decoded(out, d, taken, slots, r') =>
      var g' := g.(r := r', stores := Replaced(g.stores, kind, slots));
      if !taken then Handled(Request(out), g')
      else if g.resource.None? || |out| < s.c.identitySize then Broken
      else Handled(NullRequest, g'.(pending := g.pending + [NewIncoming(s, g.resource.value, d, out)]))
  }

  function HandleResource(g: Receiving, start: bool, r: Receiver): Handling {
    Selected(g, start, Receive(CachedChar(Resource), r))
  }

  function Selected(g: Receiving, start: bool, x: Reception): Handling {
    match x
    case Unread(_) => Broken
    case Received(v, r') => Handled(NullRequest, g.(r := r', resource := if start then Some(LowByte(v)) else None))
  }

  function HandleData(cat: CatalogTraits, g: Receiving, r: Receiver): Handling {
    HandleSplit(cat, g, Receive(CachedChar(Resource), r))
  }

  /** The packet is for the split at the head of the store of the resource. */
  function HandleSplit(cat: CatalogTraits, g: Receiving, x: Reception): Handling {
    match x
    case Unread(_) => Broken
    case Received(v, r') =>
      var i := Find(IncomingResources(g.pending), LowByte(v));
      if i == |g.pending| then Broken
      else HandlePacket(cat, g, i, r')
  }

  function HandlePacket(cat: CatalogTraits, g: Receiving, i: nat, r: Receiver): Handling
    requires i < |g.pending|
  {
    Filed(g, i, NextIncoming(cat.store(g.pending[i].kind), g.pending[i], r))
  }

  /** A split that is complete moves to the commit store. */
  function Filed(g: Receiving, i: nat, x: SplitReading): Handling
    requires i < |g.pending|
  {
    match x
    case NoSplit => Broken
    case SplitOverrun => Overran
    case SplitRead(split, r') =>
      if AllReceived(split) then
        Handled(Nothing, g.(r := r', pending := WithoutAt(g.pending, i), commits := g.commits + [split]))
      else Handled(Nothing, g.(r := r', pending := g.pending[i := split]))
  }

  /** CommitStore::expand. */
  function Expanded(s: Store, i: Incoming): Option<Bytes> {
    if i.compressedSize == 0 then if |i.data| == i.plainSize then Some(i.head + i.data) else None
    else match s.compressor.decompress(i.data, i.plainSize)
      case None => None
      case Some(d) => if |d| == i.plainSize then Some(i.head + d) else None
  }

  /** CommitStore::update: a message that was added gets its data and is unlocked. */
  function UnlockedIncoming(s: Store, h: Content, i: Incoming): Content {
    h.(data := i.data,
       compressedSize := if i.compressedSize != 0 then i.compressedSize + s.c.identitySize else h.compressedSize,
       locks := if h.locks > 0 then h.locks - 1 else 0)
  }

  function Recomposed(s: Store, slots: Slots, i: Incoming): Slots {
    match i.decision
    case Add(p) =>
      if p < |slots| && slots[p].Some? then slots[p := Some(UnlockedIncoming(s, slots[p].value, i))] else slots
    case _ => slots
  }

  function HandleCommit(cat: CatalogTraits, g: Receiving, r: Receiver): Handling {
    Checked(cat, g, ReceiveAll(COMMIT_CODES, r))
  }

  /** The commit must be for the first split of the commit store. */
  function Checked(cat: CatalogTraits, g: Receiving, x: Receptions): Handling
    requires x.ReceivedAll? ==> |x.values| == |COMMIT_CODES|
  {
    match x
    case UnreadAll => Broken
    case ReceivedAll(vs, r') =>
      var position := Plus(g.commit, vs[1]);
      if g.commits == [] then Broken
      else
        var i := g.commits[0];
        if vs[0] != OpcodeOf(i.kind) || vs[2] != i.resource || position != PositionOf(i.decision) then Broken
        else Committed(cat, g, position, vs[3], r')
  }

  /** The first split of the commit store is written out, unless the agent drops it. */
  function Committed(cat: CatalogTraits, g: Receiving, position: Word, flag: Word, r: Receiver): Handling
    requires g.commits != []
  {
    var i := g.commits[0];
    var s := cat.store(i.kind);
    var out := Expanded(s, i);
    Handled(if flag == 1 && out.Some? then Request(out.value) else NullRequest,
            g.(r := r, stores := Replaced(g.stores, i.kind, Recomposed(s, g.stores[i.kind], i)),
               commits := g.commits[1..], commit := position))
  }

  function Dispatch(cat: CatalogTraits, g: Receiving, opcode: Byte, scratch: Bytes, r: Receiver): Handling {
    if opcode == START_SPLIT then HandleResource(g, true, r)
    else if opcode == END_SPLIT then HandleResource(g, false, r)
    else if opcode == SPLIT_DATA then HandleData(cat, g, r)
    else if opcode == COMMIT_SPLIT then HandleCommit(cat, g, r)
    else match KindWith(opcode)
      case None => Broken
      case Some(kind) => HandleRequest(cat, g, kind, scratch, r)
  }

  function Handle(cat: CatalogTraits, g: Receiving, scratch: Bytes): Handling {
    match Receive(Opcode, g.r)
    case Unread(_) => Broken
    case Received(v, r') => Dispatch(cat, g, LowByte(v), scratch, r')
  }
}
