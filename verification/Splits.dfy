/**
 Requests whose data part follows later, in packets: nxcomp/src/Split.cpp.  A split waits in the
 split store of its resource while its packets are sent, then in the commit store until the
 agent commits it.
 */
module Splits {
  import opened Words
  import opened Buffers
  import opened ClientCache
  import opened Tokens
  import opened Streams
  import opened Exchange
  import opened Arrivals

  /** A split at the encoding side.  The request that it was made for is recorded only so that
      it can be said what is committed in the end. */
  datatype Outgoing = Outgoing(
    kind: Kind, resource: Byte, decision: Placed, request: Bytes,
    data: Bytes, next: nat, loaded: bool, started: bool, compressedSize: nat)

  /** A split at the decoding side: `head` is the identity part of the request. */
  datatype Incoming = Incoming(
    kind: Kind, resource: Byte, decision: Decision, head: Bytes,
    data: Bytes, next: nat, loaded: bool, started: bool, compressedSize: nat,
    plainSize: nat, received: nat)

  function PositionOf(d: Decision): nat {
    if d.Discard? then 0 else d.position
  }

  /** A decision with a position that a store can have. */
  type Placed = d: Decision | PositionOf(d) < MAX_SLOTS witness Discard

  // ----- Adding a split -----

  /** SplitStore::add at the encoding side.  A message that is cached already needs no data.  When a
      split is pending for a resource, mustSplitMessage takes every request, so also one that has
      no data. */
  function NewOutgoing(s: Store, resource: Byte, d: Placed, m: Bytes): Outgoing
    requires Good(s, m)
  {
    Outgoing(KindOf(s), resource, d, m, if d.Hit? then [] else DataOf(s, m), 0, d.Hit?, false, 0)
  }

  const SPLIT_PATTERN: Byte := 0x88

  /** Data that is still to come starts with a pattern. */
  function Dummy(n: nat): (d: Bytes)
    ensures |d| == n
  {
    seq(n, i => if i < 2 then SPLIT_PATTERN else 0)
  }

  /** SplitStore::add at the decoding side, for the request written to the buffer. */
  function NewIncoming(s: Store, resource: Byte, d: Decision, out: Bytes): Incoming
    requires |out| >= s.c.identitySize
  {
    var n := s.c.identitySize;
    Incoming(KindOf(s), resource, d, out[..n], if d.Hit? then out[n..] else Dummy(2), 0, d.Hit?, false, 0, |out| - n, 0)
  }

  // ----- Sending packets -----

  function CompressesSplits(s: Store): bool {
    s.coding.General? && s.coding.compress
  }

  /** The data that a started split sends. */
  function StartedOutgoing(s: Store, o: Outgoing): Outgoing {
    if o.started then o
    else if !CompressesSplits(s) || o.loaded then o.(started := true)
    else match s.compressor.Smaller(o.data)
      case None => o.(started := true)
      case Some(z) => o.(started := true, data := z, compressedSize := |z|)
  }

  function StartTokens(s: Store, o: Outgoing): seq<Token>
    requires |o.data| < 0x1_0000_0000
  {
    if o.started || !CompressesSplits(s) then []
    else if o.loaded then [Flag(false)]
    else match s.compressor.Smaller(o.data)
      case None => [Flag(false)]
      case Some(z) => [Flag(true), Token(SIZE_CODE, |z|)]
  }

  /** The size of the next packet; a limit of 0 or less asks for everything. */
  function PacketSize(o: Outgoing, limit: int): (n: nat)
    requires o.next <= |o.data|
    ensures o.next + n <= |o.data|
  {
    if limit <= 0 || o.next + limit > |o.data| then |o.data| - o.next else limit
  }

  const COUNT_CODE: ValidCodec := Plain(32, 10)

  function PacketTokens(o: Outgoing, limit: int): seq<Token>
    requires o.next <= |o.data| < 0x1_0000_0000
  {
    if o.loaded then [Flag(true)]
    else
      var n := PacketSize(o, limit);
      [Flag(false)] + ([Token(COUNT_CODE, n)] + BytesTokens(o.data[o.next..o.next + n]))
  }

  /** The split after a packet, or after it was aborted because the data is at hand. */
  function SentOutgoing(o: Outgoing, limit: int): Outgoing
    requires o.next <= |o.data|
  {
    o.(next := if o.loaded then |o.data| else o.next + PacketSize(o, limit))
  }

  /** The split after k packets with the same limit. */
  function SentTimes(o: Outgoing, limit: int, k: nat): (r: Outgoing)
    requires o.next <= |o.data|
    ensures r.data == o.data && r.next <= |r.data|
    decreases k
  {
    if k == 0 then o else SentTimes(SentOutgoing(o, limit), limit, k - 1)
  }

  /** Each packet but the last carries as many bytes as its limit allows: after k of them k times that
      many have been sent, or everything. */
  lemma {:induction false} SentAfter(o: Outgoing, limit: nat, k: nat)
    requires o.next <= |o.data| && !o.loaded && limit > 0
    ensures SentTimes(o, limit, k).next == if o.next + k * limit < |o.data| then o.next + k * limit else |o.data|
    decreases k
  {
    if k > 0 {
      var next := SentOutgoing(o, limit);
      SentAfter(next, limit, k - 1);
      assert k * limit == (k - 1) * limit + limit;
      MulMonotone(limit, 0, k - 1);
    } else {
      assert 0 * limit == 0;
    }
  }

  // ----- Receiving packets -----

  /** A packet aborts, or lets the pattern be written past the end of the data, or is read. */
  datatype SplitReading = NoSplit | SplitOverrun | SplitRead(split: Incoming, next: Receiver)

  /** SplitStore::start at the decoding side makes room for the data and writes the two bytes of the
      pattern into it, whether there is room for them or not. */
  function Prepared(i: Incoming, size: nat, compressedSize: nat, r: Receiver): SplitReading {
    var room := if compressedSize > 0 then compressedSize else i.plainSize;
    if i.loaded then SplitRead(i.(started := true, received := size), r)
    else if room < 2 then SplitOverrun
    else SplitRead(i.(started := true, received := size, data := Dummy(room), compressedSize := compressedSize), r)
  }

  function StartIncoming(s: Store, i: Incoming, r: Receiver): SplitReading {
    if i.started then SplitRead(i, r)
    else if !CompressesSplits(s) then Prepared(i, i.plainSize, 0, r)
    else match ReadFlag(r)
      case NoFlag => NoSplit
      case FlagRead(compressed, r') =>
        if !compressed then Prepared(i, i.plainSize, 0, r')
        else match Receive(SIZE_CODE, r')
          case Unread(_) => NoSplit
          case Received(size, r'') => if size < i.plainSize then Prepared(i, size, size, r'') else NoSplit
  }

  /** The data after a packet has been copied to its place. */
  function Patched(d: Bytes, at: nat, p: Bytes): Bytes {
    if at + |p| <= |d| then d[..at] + p + d[at + |p|..] else d
  }

  function ReceivePacket(i: Incoming, r: Receiver): SplitReading {
    match ReadFlag(r)
    case NoFlag => NoSplit
    case FlagRead(abort, r') =>
      if abort then SplitRead(i.(next := i.received), r')
      else match Receive(COUNT_CODE, r')
        case Unread(_) => NoSplit
        case Received(n, r'') => ReceiveBytes(i, n, r'')
  }

  function ReceiveBytes(i: Incoming, n: nat, r: Receiver): SplitReading {
    if i.next + n > i.received then NoSplit
    else match ReadBytes(n, r)
      case NoBytes => NoSplit
      case BytesRead(p, r') =>
        SplitRead(i.(next := i.next + n, data := if i.loaded then i.data else Patched(i.data, i.next, p)), r')
  }

  // ----- Partners -----

  /** The identity part of a request written out for m. */
  ghost predicate HeadFor(s: Store, m: Bytes, head: Bytes, scratch: Bytes)
    requires Good(s, m)
  {
    |head| == s.c.identitySize && head == Writing(s, scratch, ArrivedIdentity(s, m), DataOf(s, m))[..s.c.identitySize]
  }

  ghost predicate Headed(s: Store, m: Bytes, head: Bytes)
    requires Good(s, m)
  {
    exists scratch :: HeadFor(s, m, head, scratch)
  }

  /** What a split that is being sent holds of the data part d. */
  ghost predicate SendsData(s: Store, o: Outgoing, d: Bytes) {
    if o.compressedSize == 0 then o.data == d
    else |o.data| == o.compressedSize < |d| && s.compressor.decompress(o.data, |d|) == Some(d)
  }

  /** The two sides of one split. */
  ghost predicate Partners(s: Store, o: Outgoing, i: Incoming) {
    && Good(s, o.request)
    && o.kind == i.kind == KindOf(s) && o.resource == i.resource && o.decision == i.decision
    && o.loaded == i.loaded == o.decision.Hit? && o.started == i.started
    && o.next <= |o.data| < 0x1_0000_0000 && (!o.started ==> o.next == 0) && o.compressedSize == i.compressedSize
    && i.plainSize == |DataOf(s, o.request)|
    && Headed(s, o.request, i.head)
    && if o.loaded then o.data == [] && o.compressedSize == 0 && i.data == DataOf(s, o.request) && (o.started ==> i.next == i.received)
       else
         && o.next == i.next
         && (o.started ==> DataOf(s, o.request) != []) && SendsData(s, o, DataOf(s, o.request))
         && (!o.started ==> o.compressedSize == 0)
         && (o.started ==> i.received == |i.data| == |o.data| && i.data[..i.next] == o.data[..o.next])
  }

  /** The next packet of a split makes the decoding side write past the end of its data: the split
      has no data and was not started yet. */
  predicate Overruns(o: Outgoing) {
    !o.started && !o.loaded && o.data == []
  }

  /** A request that is taken by a split overruns exactly if it is no hit and has nothing behind its
      identity. */
  lemma OverrunsExactly(s: Store, resource: Byte, d: Placed, m: Bytes)
    requires Good(s, m)
    ensures Overruns(NewOutgoing(s, resource, d, m)) <==> !d.Hit? && |m| == s.c.identitySize
  {
  }

  /** The data part of a split has arrived. */
  predicate Complete(o: Outgoing) {
    o.started && o.next == |o.data|
  }

  predicate AllReceived(i: Incoming) {
    i.started && i.next == i.received
  }

  lemma CompressorFacts(s: Store, d: Bytes)
    ensures s.compressor.Smaller(d).Some? ==>
              var z := s.compressor.Smaller(d).value; 2 <= |z| < |d| && s.compressor.decompress(z, |d|) == Some(d)
  {
    StoreFacts(s);
  }

  lemma CodeArrives(r: Receiver, c: ValidCodec, v: Word, k: Caches)
    requires c.Plain? && c.bits == 32 && Before(r, [Token(c, v)], k)
    ensures var g := Receive(c, r);
            g.Received? && g.value == v && Behind(g.next, r, [Token(c, v)], k)
  {
    OneArrives(r, Token(c, v), k);
    Pow2Constants();
  }

  // ----- Packets arrive -----

  lemma StartArrives(r: Receiver, s: Store, o: Outgoing, i: Incoming, k: Caches)
    requires Partners(s, o, i) && !o.started && Before(r, StartTokens(s, o), k)
    ensures var g := StartIncoming(s, i, r);
            if Overruns(o) then g.SplitOverrun?
            else g.SplitRead? && StartedPair(s, o, i, g.split) && Behind(g.next, r, StartTokens(s, o), k)
  {
    CompressorFacts(s, o.data);
    DataInWords(s, o.request);
    if !CompressesSplits(s) {
      NothingRead(r, k);
    } else if o.loaded || s.compressor.Smaller(o.data).None? {
      FlagArrives(r, false, k);
    } else {
      SmallerArrives(r, s, o, s.compressor.Smaller(o.data).value, k);
    }
  }

  /** The flag and the size of a split that is compressed. */
  lemma SmallerArrives(r: Receiver, s: Store, o: Outgoing, z: Bytes, k: Caches)
    requires !o.started && !o.loaded && CompressesSplits(s) && s.compressor.Smaller(o.data) == Some(z)
    requires |o.data| < 0x1_0000_0000 && Before(r, StartTokens(s, o), k)
    ensures var f := ReadFlag(r);
            f.FlagRead? && f.flag && var g := Receive(SIZE_CODE, f.next);
            g.Received? && g.value == |z| && Behind(g.next, r, StartTokens(s, o), k)
  {
    var first, rest := [Flag(true)], [Token(SIZE_CODE, |z|)];
    assert StartTokens(s, o) == first + rest;
    BeforeSplit(r, first, rest, k);
    FlagArrives(r, true, k);
    var r' := ReadFlag(r).next;
    CodeArrives(r', SIZE_CODE, |z|, AfterAll(first, k));
    BehindBoth(Receive(SIZE_CODE, r').next, r', r, first, rest, k);
  }

  /** A data part is made of whole words. */
  lemma DataInWords(s: Store, m: Bytes)
    requires Good(s, m)
    ensures |DataOf(s, m)| % 4 == 0
  {
    GoodFacts(s, m);
  }

  /** Both sides prepare for as many bytes. */
  ghost predicate StartedPair(s: Store, o: Outgoing, i: Incoming, i': Incoming) {
    var o' := StartedOutgoing(s, o);
    if o.loaded then i' == i.(started := true, received := i.plainSize)
    else i' == i.(started := true, received := |o'.data|, data := Dummy(|o'.data|), compressedSize := o'.compressedSize)
  }

  lemma AbortArrives(r: Receiver, o: Outgoing, i: Incoming, limit: int, k: Caches)
    requires o.loaded && o.next <= |o.data| < 0x1_0000_0000 && Before(r, PacketTokens(o, limit), k)
    ensures var g := ReceivePacket(i, r);
            g.SplitRead? && g.split == i.(next := i.received) && Behind(g.next, r, PacketTokens(o, limit), k)
  {
    FlagArrives(r, true, k);
  }

  lemma CountedArrives(r: Receiver, i: Incoming, p: Bytes, k: Caches)
    requires |p| < 0x1_0000_0000 && i.next + |p| <= i.received && !i.loaded
    requires Before(r, [Token(COUNT_CODE, |p|)] + BytesTokens(p), k)
    ensures var n := Receive(COUNT_CODE, r);
            n.Received? && n.value == |p| && var g := ReceiveBytes(i, |p|, n.next);
            g.SplitRead? && g.split == i.(next := i.next + |p|, data := Patched(i.data, i.next, p)) &&
            Behind(g.next, r, [Token(COUNT_CODE, |p|)] + BytesTokens(p), k)
  {
    var first := [Token(COUNT_CODE, |p|)];
    BeforeSplit(r, first, BytesTokens(p), k);
    CodeArrives(r, COUNT_CODE, |p|, k);
    var r' := Receive(COUNT_CODE, r).next;
    BytesArrive(r', p, AfterAll(first, k));
    BehindBoth(ReceiveBytes(i, |p|, r').next, r', r, first, BytesTokens(p), k);
  }

  lemma PacketArrives(r: Receiver, o: Outgoing, i: Incoming, limit: int, k: Caches)
    requires !o.loaded && !i.loaded && o.next == i.next <= |o.data| == i.received < 0x1_0000_0000
    requires Before(r, PacketTokens(o, limit), k)
    ensures var g := ReceivePacket(i, r);
            var p := o.data[o.next..o.next + PacketSize(o, limit)];
            g.SplitRead? && g.split == i.(next := i.next + |p|, data := Patched(i.data, i.next, p)) &&
            Behind(g.next, r, PacketTokens(o, limit), k)
  {
    var p := o.data[o.next..o.next + PacketSize(o, limit)];
    var first, rest := [Flag(false)], [Token(COUNT_CODE, |p|)] + BytesTokens(p);
    BeforeSplit(r, first, rest, k);
    FlagArrives(r, false, k);
    var r' := ReadFlag(r).next;
    CountedArrives(r', i, p, AfterAll(first, k));
    BehindBoth(ReceivePacket(i, r).next, r', r, first, rest, k);
  }

  /** Packets of any size put the data together in order. */
  lemma PatchedInOrder(d: Bytes, whole: Bytes, at: nat, n: nat)
    requires |d| == |whole| && at + n <= |whole| && d[..at] == whole[..at]
    ensures Patched(d, at, whole[at..at + n])[..at + n] == whole[..at + n]
    ensures |Patched(d, at, whole[at..at + n])| == |d|
  {
  }

  lemma SentPartners(s: Store, o: Outgoing, i: Incoming, limit: int)
    requires Partners(s, o, i) && o.started && !o.loaded
    ensures var p := o.data[o.next..o.next + PacketSize(o, limit)];
            var i' := i.(next := i.next + |p|, data := Patched(i.data, i.next, p));
            Partners(s, SentOutgoing(o, limit), i') &&
            (Complete(SentOutgoing(o, limit)) <==> AllReceived(i'))
  {
    PatchedInOrder(i.data, o.data, o.next, PacketSize(o, limit));
  }

  // ----- One packet -----

  function SplitTokens(s: Store, o: Outgoing, limit: int): seq<Token>
    requires o.next <= |o.data| < 0x1_0000_0000 && (!o.started ==> o.next == 0)
  {
    StartTokens(s, o) + PacketTokens(StartedOutgoing(s, o), limit)
  }

  function NextOutgoing(s: Store, o: Outgoing, limit: int): Outgoing
    requires o.next <= |o.data| && (!o.started ==> o.next == 0)
  {
    SentOutgoing(StartedOutgoing(s, o), limit)
  }

  function NextIncoming(s: Store, i: Incoming, r: Receiver): SplitReading {
    Continued(StartIncoming(s, i, r))
  }

  function Continued(x: SplitReading): SplitReading {
    match x
    case NoSplit => NoSplit
    case SplitOverrun => SplitOverrun
    case SplitRead(i, r) => ReceivePacket(i, r)
  }

  lemma StartedArrives(r: Receiver, s: Store, o: Outgoing, i: Incoming, k: Caches)
    requires Partners(s, o, i) && !Overruns(o) && Before(r, StartTokens(s, o), k)
    ensures var g := StartIncoming(s, i, r);
            g.SplitRead? && Partners(s, StartedOutgoing(s, o), g.split.(next := if o.loaded then g.split.received else g.split.next)) &&
            (!o.loaded ==> g.split.received == |StartedOutgoing(s, o).data|) &&
            StartedOutgoing(s, o).started && StartedOutgoing(s, o).loaded == o.loaded &&
            g.split.loaded == o.loaded && g.split.started && Behind(g.next, r, StartTokens(s, o), k)
  {
    if o.started {
      NothingRead(r, k);
    } else {
      StartArrives(r, s, o, i, k);
      CompressorFacts(s, o.data);
    }
  }

  /** Whatever the limits on packets, the two sides of a split stay partners, and they find the
      data complete at the same packet; unless the split has no data. */
  lemma SplitArrives(r: Receiver, s: Store, o: Outgoing, i: Incoming, limit: int, k: Caches)
    requires Partners(s, o, i) && Before(r, SplitTokens(s, o, limit), k)
    ensures var g := NextIncoming(s, i, r);
            if Overruns(o) then g.SplitOverrun?
            else
              g.SplitRead? && Partners(s, NextOutgoing(s, o, limit), g.split) &&
              (Complete(NextOutgoing(s, o, limit)) <==> AllReceived(g.split)) &&
              Behind(g.next, r, SplitTokens(s, o, limit), k)
  {
    var first, rest := StartTokens(s, o), PacketTokens(StartedOutgoing(s, o), limit);
    BeforeSplit(r, first, rest, k);
    if Overruns(o) {
      StartArrives(r, s, o, i, k);
    } else {
      PacketFollows(r, s, o, i, limit, k);
    }
  }

  lemma PacketFollows(r: Receiver, s: Store, o: Outgoing, i: Incoming, limit: int, k: Caches)
    requires Partners(s, o, i) && !Overruns(o) && Before(r, SplitTokens(s, o, limit), k)
    ensures var g := NextIncoming(s, i, r);
            g.SplitRead? && Partners(s, NextOutgoing(s, o, limit), g.split) &&
            (Complete(NextOutgoing(s, o, limit)) <==> AllReceived(g.split)) &&
            Behind(g.next, r, SplitTokens(s, o, limit), k)
  {
    var o' := StartedOutgoing(s, o);
    var first, rest := StartTokens(s, o), PacketTokens(o', limit);
    BeforeSplit(r, first, rest, k);
    StartedArrives(r, s, o, i, k);
    StartFollows(r, s, o', StartIncoming(s, i, r), limit, first, k);
  }

  lemma StartFollows(r: Receiver, s: Store, o: Outgoing, x: SplitReading, limit: int, first: seq<Token>, k: Caches)
    requires x.SplitRead? && x.split.started && x.split.loaded == o.loaded && o.started
    requires !o.loaded ==> x.split.received == |o.data|
    requires Partners(s, o, x.split.(next := if o.loaded then x.split.received else x.split.next))
    requires Behind(x.next, r, first, k) && Before(x.next, PacketTokens(o, limit), AfterAll(first, k))
    ensures var g := Continued(x);
            g.SplitRead? && Partners(s, SentOutgoing(o, limit), g.split) &&
            (Complete(SentOutgoing(o, limit)) <==> AllReceived(g.split)) &&
            Behind(g.next, r, first + PacketTokens(o, limit), k)
  {
    StartedPacket(x.next, s, o, x.split, limit, AfterAll(first, k));
    BehindBoth(ReceivePacket(x.split, x.next).next, x.next, r, first, PacketTokens(o, limit), k);
  }

  lemma StartedPacket(r: Receiver, s: Store, o: Outgoing, i: Incoming, limit: int, k: Caches)
    requires i.started && i.loaded == o.loaded && (!o.loaded ==> i.received == |o.data|)
    requires Partners(s, o, i.(next := if o.loaded then i.received else i.next)) && o.started
    requires Before(r, PacketTokens(o, limit), k)
    ensures var g := ReceivePacket(i, r);
            g.SplitRead? && Partners(s, SentOutgoing(o, limit), g.split) &&
            (Complete(SentOutgoing(o, limit)) <==> AllReceived(g.split)) &&
            Behind(g.next, r, PacketTokens(o, limit), k)
  {
    if o.loaded {
      AbortArrives(r, o, i, limit, k);
    } else {
      PacketArrives(r, o, i, limit, k);
      SentPartners(s, o, i, limit);
    }
  }
}
