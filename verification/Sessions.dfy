/**
 Frames and sessions: a frame is what the encoding side writes for a run of items of one channel,
 filled up with zeros; a session of two proxies is a run of frames of any number of channels, which
 are opened and closed as it goes on.
 */
module Sessions {
  import opened Words
  import opened Buffers
  import opened ClientCache
  import opened BitCodec
  import opened Tokens
  import opened Streams
  import opened Exchange
  import opened Coherence
  import opened Splits
  import opened Channel
  import opened Runs

  // ----- One item -----

  lemma SteppedCaches(cat: CatalogTraits, a: Sender, item: Item, h: Receiving, k: Caches)
    requires Allowed(cat, a, item) && Linked(cat, Stepped(cat, a, a.caches, item), h)
    ensures Linked(cat, Stepped(cat, a, k, item), h)
  {
    var b := Stepped(cat, a, a.caches, item);
    assert Stepped(cat, a, k, item) == b.(caches := k);
    LinkedCaches(cat, b, h, k);
  }

  lemma LinkedCaches(cat: CatalogTraits, b: Sender, h: Receiving, k: Caches)
    requires Linked(cat, b, h)
    ensures Linked(cat, b.(caches := k), h)
  {
  }

  function OpcodeFor(a: Sender, item: Item): Byte {
    match item
    case RequestItem(kind, _, _, _, _) => OpcodeOf(kind)
    case StartItem(_) => START_SPLIT
    case EndItem => END_SPLIT
    case DataItem(_, _) => SPLIT_DATA
    case CommitItem(_) => COMMIT_SPLIT
  }

  /** What follows the opcode of an item. */
  function RestOf(cat: CatalogTraits, a: Sender, item: Item): seq<Token>
    requires Allowed(cat, a, item)
  {
    match item
    case RequestItem(_, _, _, _, _) => TokensOf(cat, a, item)
    case StartItem(resource) => [Token(CachedChar(Resource), resource)]
    case EndItem => [Token(CachedChar(Resource), a.resource.value)]
    case DataItem(resource, _) => [Token(CachedChar(Resource), resource)] + PacketTokensOf(cat, a, item)
    case CommitItem(_) => CommitTokensOf(cat, a, item)
  }

  lemma ItemSplit(cat: CatalogTraits, a: Sender, item: Item)
    requires Allowed(cat, a, item)
    ensures ItemTokens(cat, a, item) == [Token(Opcode, OpcodeFor(a, item))] + RestOf(cat, a, item)
  {
  }

  lemma OpcodeArrives(r: Receiver, opcode: Byte, k: Caches)
    requires Before(r, [Token(Opcode, opcode)], k)
    ensures var x := Receive(Opcode, r);
            x.Received? && x.value == opcode && Behind(x.next, r, [Token(Opcode, opcode)], k)
    ensures CountZeros(r.stream, r.pos).Zeros?
  {
    OneArrives(r, Token(Opcode, opcode), k);
  }

  /** An item is handled, behind its opcode, or is a packet of a split without data. */
  ghost predicate Dispatched(h: Handling, cat: CatalogTraits, a: Sender, item: Item, r: Receiver, k: Caches)
    requires Allowed(cat, a, item)
  {
    if ItemOverruns(cat, a, item) then h.Overran?
    else Succeeds(cat, a, item, h) && Behind(h.next.r, r, RestOf(cat, a, item), k)
  }

  lemma RequestDispatched(cat: CatalogTraits, a: Sender, g: Receiving, item: Item, scratch: Bytes, r: Receiver, k: Caches)
    requires cat.Proper() && Linked(cat, a, g) && RequestAllowed(cat, a, item) && Before(r, RestOf(cat, a, item), k)
    ensures Dispatched(Dispatch(cat, g, OpcodeFor(a, item), scratch, r), cat, a, item, r, k)
  {
    KindFound(item.kind);
    DispatchIsRequest(cat, g, OpcodeOf(item.kind), item.kind, scratch, r);
    RequestHandled(cat, a, g, item, scratch, r, k);
  }

  lemma DispatchIsRequest(cat: CatalogTraits, g: Receiving, opcode: Byte, kind: Kind, scratch: Bytes, r: Receiver)
    requires opcode < START_SPLIT && KindWith(opcode) == Some(kind)
    ensures Dispatch(cat, g, opcode, scratch, r) == HandleRequest(cat, g, kind, scratch, r)
  {
  }

  lemma DispatchIsCommit(cat: CatalogTraits, g: Receiving, opcode: Byte, scratch: Bytes, r: Receiver)
    requires opcode == COMMIT_SPLIT
    ensures Dispatch(cat, g, opcode, scratch, r) == HandleCommit(cat, g, r)
  {
  }

  lemma ResourceDispatched(cat: CatalogTraits, a: Sender, g: Receiving, item: Item, scratch: Bytes, r: Receiver, k: Caches)
    requires Linked(cat, a, g) && Allowed(cat, a, item) && (item.StartItem? || item.EndItem?)
    requires Before(r, RestOf(cat, a, item), k)
    ensures Dispatched(Dispatch(cat, g, OpcodeFor(a, item), scratch, r), cat, a, item, r, k)
  {
    ResourceHandled(cat, a, g, item, if item.StartItem? then item.resource else a.resource.value, r, k);
  }

  lemma DataDispatched(cat: CatalogTraits, a: Sender, g: Receiving, item: Item, scratch: Bytes, r: Receiver, k: Caches)
    requires Linked(cat, a, g) && Allowed(cat, a, item) && item.DataItem? && Before(r, RestOf(cat, a, item), k)
    ensures Dispatched(Dispatch(cat, g, OpcodeFor(a, item), scratch, r), cat, a, item, r, k)
  {
    DispatchIsData(cat, g, SPLIT_DATA, scratch, r);
    DataHandled(cat, a, g, item, r, k);
  }

  lemma DispatchIsData(cat: CatalogTraits, g: Receiving, opcode: Byte, scratch: Bytes, r: Receiver)
    requires opcode == SPLIT_DATA
    ensures Dispatch(cat, g, opcode, scratch, r) == HandleData(cat, g, r)
  {
  }

  lemma CommitDispatched(cat: CatalogTraits, a: Sender, g: Receiving, item: Item, scratch: Bytes, r: Receiver, k: Caches)
    requires Linked(cat, a, g) && Allowed(cat, a, item) && item.CommitItem? && Before(r, RestOf(cat, a, item), k)
    ensures Dispatched(Dispatch(cat, g, OpcodeFor(a, item), scratch, r), cat, a, item, r, k)
  {
    DispatchIsCommit(cat, g, COMMIT_SPLIT, scratch, r);
    CommitHandled(cat, a, g, item, r, k);
  }

  lemma DispatchArrives(cat: CatalogTraits, a: Sender, g: Receiving, item: Item, scratch: Bytes, r: Receiver, k: Caches)
    requires cat.Proper() && Linked(cat, a, g) && Allowed(cat, a, item) && Before(r, RestOf(cat, a, item), k)
    ensures Dispatched(Dispatch(cat, g, OpcodeFor(a, item), scratch, r), cat, a, item, r, k)
  {
    if item.RequestItem? {
      RequestDispatched(cat, a, g, item, scratch, r, k);
    } else if item.DataItem? {
      DataDispatched(cat, a, g, item, scratch, r, k);
    } else if item.CommitItem? {
      CommitDispatched(cat, a, g, item, scratch, r, k);
    } else {
      ResourceDispatched(cat, a, g, item, scratch, r, k);
    }
  }

  ghost predicate ItemHandled(h: Handling, cat: CatalogTraits, a: Sender, item: Item, r: Receiver)
    requires Allowed(cat, a, item)
  {
    if ItemOverruns(cat, a, item) then h.Overran?
    else
      h.Handled? && Expected(cat, a, item, h.output) && Linked(cat, After(cat, a, item), h.next) &&
      Behind(h.next.r, r, ItemTokens(cat, a, item), a.caches)
  }

  lemma ItemFollowed(cat: CatalogTraits, a: Sender, h: Handling, item: Item, r': Receiver, r: Receiver)
    requires Allowed(cat, a, item)
    requires var first := [Token(Opcode, OpcodeFor(a, item))];
             Behind(r', r, first, a.caches) && Dispatched(h, cat, a, item, r', AfterAll(first, a.caches))
    ensures ItemHandled(h, cat, a, item, r)
  {
    if !ItemOverruns(cat, a, item) {
      ItemSplit(cat, a, item);
      SteppedCaches(cat, a, item, h.next, AfterAll(ItemTokens(cat, a, item), a.caches));
      BehindBoth(h.next.r, r', r, [Token(Opcode, OpcodeFor(a, item))], RestOf(cat, a, item), a.caches);
    }
  }

  lemma HandleIsDispatch(cat: CatalogTraits, g: Receiving, scratch: Bytes, x: Reception, opcode: Byte)
    requires x == Receive(Opcode, g.r) && x.Received? && x.value == opcode
    ensures Handle(cat, g, scratch) == Dispatch(cat, g, opcode, scratch, x.next)
  {
  }

  /** Whatever has happened before, the next item is read as it was written, leads to what is
      expected of it, and leaves the two sides linked; unless it is a packet of a split without data,
      which makes the decoding side write past the end of its memory. */
  lemma ItemArrives(cat: CatalogTraits, a: Sender, g: Receiving, item: Item, scratch: Bytes)
    requires cat.Proper() && Linked(cat, a, g) && Allowed(cat, a, item) && Before(g.r, ItemTokens(cat, a, item), a.caches)
    ensures ItemHandled(Handle(cat, g, scratch), cat, a, item, g.r)
    ensures CountZeros(g.r.stream, g.r.pos).Zeros?
  {
    var opcode := OpcodeFor(a, item);
    ItemSplit(cat, a, item);
    BeforeSplit(g.r, [Token(Opcode, opcode)], RestOf(cat, a, item), a.caches);
    OpcodeArrives(g.r, opcode, a.caches);
    var x := Receive(Opcode, g.r);
    HandleIsDispatch(cat, g, scratch, x, opcode);
    DispatchArrives(cat, a, g, item, scratch, x.next, AfterAll([Token(Opcode, opcode)], a.caches));
    ItemFollowed(cat, a, Dispatch(cat, g, opcode, scratch, x.next), item, x.next, g.r);
  }

  // ----- Runs of items -----

  ghost predicate AllAllowed(cat: CatalogTraits, a: Sender, items: seq<Item>)
    decreases |items|
  {
    items == [] || (Allowed(cat, a, items[0]) && AllAllowed(cat, After(cat, a, items[0]), items[1..]))
  }

  function RunTokens(cat: CatalogTraits, a: Sender, items: seq<Item>): seq<Token>
    requires AllAllowed(cat, a, items)
    decreases |items|
  {
    if items == [] then [] else ItemTokens(cat, a, items[0]) + RunTokens(cat, After(cat, a, items[0]), items[1..])
  }

  function AfterRun(cat: CatalogTraits, a: Sender, items: seq<Item>): Sender
    requires AllAllowed(cat, a, items)
    decreases |items|
  {
    if items == [] then a else AfterRun(cat, After(cat, a, items[0]), items[1..])
  }

  /** Some item of the run is a packet of a split without data. */
  ghost predicate RunOverruns(cat: CatalogTraits, a: Sender, items: seq<Item>)
    requires AllAllowed(cat, a, items)
    decreases |items|
  {
    items != [] && (ItemOverruns(cat, a, items[0]) || RunOverruns(cat, After(cat, a, items[0]), items[1..]))
  }

  /** The outputs are what is expected of the items, one for each. */
  ghost predicate AllExpected(cat: CatalogTraits, a: Sender, items: seq<Item>, outputs: seq<Output>)
    requires AllAllowed(cat, a, items)
    decreases |items|
  {
    |outputs| == |items| &&
    (items == [] ||
     (Expected(cat, a, items[0], outputs[0]) && AllExpected(cat, After(cat, a, items[0]), items[1..], outputs[1..])))
  }

  // ----- Frames -----

  datatype FrameReading = FrameBroken | FrameOverrun | FrameRead(outputs: seq<Output>, next: Receiving)

  /** The loop of handleWrite: it ends where no further opcode is found.  `memory` gives what the
      write buffer holds when a request that starts at a position is written. */
  function HandleFrame(cat: CatalogTraits, g: Receiving, memory: nat -> Bytes): FrameReading
    decreases |g.r.stream| - g.r.pos
  {
    if CountZeros(g.r.stream, g.r.pos).NoOne? then FrameRead([], g)
    else match Handle(cat, g, memory(g.r.pos))
      case Broken => FrameBroken
      case Overran => FrameOverrun
      case Handled(output, g') =>
        if g'.r.stream != g.r.stream || !(g.r.pos < g'.r.pos <= |g.r.stream|) then FrameBroken
        else BehindOutput(output, HandleFrame(cat, g', memory))
  }

  function BehindOutput(output: Output, f: FrameReading): FrameReading {
    if f.FrameRead? then FrameRead([output] + f.outputs, f.next) else f
  }

  /** Exactly the items of a run were found, each led to what is expected of it, and the sides are
      linked with their caches in step; or memory was written past its end, if one of the items is a
      packet of a split without data. */
  ghost predicate FrameFinds(cat: CatalogTraits, a: Sender, items: seq<Item>, f: FrameReading)
    requires AllAllowed(cat, a, items)
  {
    if RunOverruns(cat, a, items) then f.FrameOverrun?
    else
      f.FrameRead? && AllExpected(cat, a, items, f.outputs) && Linked(cat, AfterRun(cat, a, items), f.next) &&
      InStep(AfterRun(cat, a, items).caches, f.next.r.caches)
  }

  /** Nothing but zeros follows the tokens in the frame. */
  ghost predicate EndsFrame(r: Receiver, ts: seq<Token>, k: Caches) {
    var end := r.pos + |Codes(ts, k, r.pos)|;
    end <= |r.stream| && AllEqual(r.stream[end..], false)
  }

  lemma EndsMoved(r': Receiver, r: Receiver, ts: seq<Token>, us: seq<Token>, k: Caches)
    requires Behind(r', r, ts, k) && EndsFrame(r, ts + us, k)
    ensures EndsFrame(r', us, AfterAll(ts, k))
  {
    assert Looking(0);
    CodesLength(ts, us, k, r.pos);
  }

  lemma ItemProgress(r': Receiver, r: Receiver, opcode: Byte, rest: seq<Token>, k: Caches)
    requires Behind(r', r, [Token(Opcode, opcode)] + rest, k) && Before(r, [Token(Opcode, opcode)] + rest, k)
    ensures r'.stream == r.stream && r.pos < r'.pos <= |r.stream|
  {
    var first := [Token(Opcode, opcode)];
    BeforeSplit(r, first, rest, k);
    OpcodeArrives(r, opcode, k);
    OpcodeProgress(r', r, Receive(Opcode, r).next, opcode, rest, k);
  }

  lemma OpcodeProgress(r': Receiver, r: Receiver, after: Receiver, opcode: Byte, rest: seq<Token>, k: Caches)
    requires Behind(r', r, [Token(Opcode, opcode)] + rest, k)
    requires Behind(after, r, [Token(Opcode, opcode)], k) && r.pos < after.pos
    ensures r'.stream == r.stream && r.pos < r'.pos <= |r.stream|
  {
    assert Looking(0);
    CodesLength([Token(Opcode, opcode)], rest, k, r.pos);
  }

  /** The receiver stands at a frame, or at the rest of one. */
  ghost predicate AtFrame(cat: CatalogTraits, a: Sender, g: Receiving, items: seq<Item>)
    requires AllAllowed(cat, a, items)
  {
    Before(g.r, RunTokens(cat, a, items), a.caches) && EndsFrame(g.r, RunTokens(cat, a, items), a.caches)
  }

  /** Behind its first item, the rest of a frame. */
  lemma RestOfFrame(cat: CatalogTraits, a: Sender, g: Receiving, items: seq<Item>, h: Receiving)
    requires items != [] && AllAllowed(cat, a, items) && AtFrame(cat, a, g, items)
    requires Behind(h.r, g.r, ItemTokens(cat, a, items[0]), a.caches)
    ensures AtFrame(cat, After(cat, a, items[0]), h, items[1..])
  {
    var first, others := ItemTokens(cat, a, items[0]), RunTokens(cat, After(cat, a, items[0]), items[1..]);
    BeforeSplit(g.r, first, others, a.caches);
    EndsMoved(h.r, g.r, first, others, a.caches);
  }

  lemma FirstProgress(cat: CatalogTraits, a: Sender, g: Receiving, items: seq<Item>, r: Receiver)
    requires items != [] && AllAllowed(cat, a, items) && AtFrame(cat, a, g, items)
    requires Behind(r, g.r, ItemTokens(cat, a, items[0]), a.caches)
    ensures Before(g.r, ItemTokens(cat, a, items[0]), a.caches)
    ensures r.stream == g.r.stream && g.r.pos < r.pos <= |g.r.stream|
  {
    var first, others := ItemTokens(cat, a, items[0]), RunTokens(cat, After(cat, a, items[0]), items[1..]);
    BeforeSplit(g.r, first, others, a.caches);
    ItemSplit(cat, a, items[0]);
    ItemProgress(r, g.r, OpcodeFor(a, items[0]), RestOf(cat, a, items[0]), a.caches);
  }

  lemma FirstBefore(cat: CatalogTraits, a: Sender, g: Receiving, items: seq<Item>)
    requires items != [] && AllAllowed(cat, a, items) && AtFrame(cat, a, g, items)
    ensures Before(g.r, ItemTokens(cat, a, items[0]), a.caches)
  {
    BeforeSplit(g.r, ItemTokens(cat, a, items[0]), RunTokens(cat, After(cat, a, items[0]), items[1..]), a.caches);
  }

  /** The first item of a frame is handled, and the rest of the frame follows. */
  ghost predicate FirstFinds(cat: CatalogTraits, a: Sender, g: Receiving, items: seq<Item>, h: Handling)
    requires items != [] && AllAllowed(cat, a, items)
  {
    if ItemOverruns(cat, a, items[0]) then h.Overran?
    else
      h.Handled? && Expected(cat, a, items[0], h.output) && Linked(cat, After(cat, a, items[0]), h.next) &&
      AtFrame(cat, After(cat, a, items[0]), h.next, items[1..]) &&
      h.next.r.stream == g.r.stream && g.r.pos < h.next.r.pos <= |g.r.stream|
  }

  lemma FirstArrives(cat: CatalogTraits, a: Sender, g: Receiving, items: seq<Item>, scratch: Bytes)
    requires cat.Proper() && Linked(cat, a, g) && items != [] && AllAllowed(cat, a, items) && AtFrame(cat, a, g, items)
    ensures CountZeros(g.r.stream, g.r.pos).Zeros?
    ensures FirstFinds(cat, a, g, items, Handle(cat, g, scratch))
  {
    FirstBefore(cat, a, g, items);
    ItemArrives(cat, a, g, items[0], scratch);
    if !ItemOverruns(cat, a, items[0]) {
      var h := Handle(cat, g, scratch).next;
      RestOfFrame(cat, a, g, items, h);
      FirstProgress(cat, a, g, items, h.r);
    }
  }

  /** A frame, for every state of linked sides and every run of items: the decoding side finds
      exactly these items, each leads to what is expected of it, and the sides are linked again;
      unless, and only if, one is a packet of a split without data. */
  lemma {:induction false} FrameArrives(cat: CatalogTraits, a: Sender, g: Receiving, items: seq<Item>, memory: nat -> Bytes)
    requires cat.Proper() && Linked(cat, a, g) && AllAllowed(cat, a, items) && AtFrame(cat, a, g, items)
    ensures FrameFinds(cat, a, items, HandleFrame(cat, g, memory))
    decreases |items|, 1
  {
    if items == [] {
      FrameEnds(cat, a, g, memory);
    } else {
      FirstArrives(cat, a, g, items, memory(g.r.pos));
      FrameContinues(cat, a, g, items, memory, Handle(cat, g, memory(g.r.pos)));
    }
  }

  lemma {:induction false} FrameContinues(
      cat: CatalogTraits, a: Sender, g: Receiving, items: seq<Item>, memory: nat -> Bytes, h: Handling)
    requires cat.Proper() && items != [] && AllAllowed(cat, a, items) && FirstFinds(cat, a, g, items, h)
    requires CountZeros(g.r.stream, g.r.pos).Zeros? && h == Handle(cat, g, memory(g.r.pos))
    ensures FrameFinds(cat, a, items, HandleFrame(cat, g, memory))
    decreases |items|, 0
  {
    if ItemOverruns(cat, a, items[0]) {
      FrameStops(cat, g, memory, h);
    } else {
      FrameArrives(cat, After(cat, a, items[0]), h.next, items[1..], memory);
      FrameStep(cat, g, memory, h);
      FrameJoined(cat, a, items, h.output, HandleFrame(cat, h.next, memory));
    }
  }

  lemma FrameStops(cat: CatalogTraits, g: Receiving, memory: nat -> Bytes, h: Handling)
    requires CountZeros(g.r.stream, g.r.pos).Zeros? && h == Handle(cat, g, memory(g.r.pos)) && h.Overran?
    ensures HandleFrame(cat, g, memory) == FrameOverrun
  {
  }

  lemma FrameStep(cat: CatalogTraits, g: Receiving, memory: nat -> Bytes, h: Handling)
    requires CountZeros(g.r.stream, g.r.pos).Zeros? && h == Handle(cat, g, memory(g.r.pos)) && h.Handled?
    requires h.next.r.stream == g.r.stream && g.r.pos < h.next.r.pos <= |g.r.stream|
    ensures HandleFrame(cat, g, memory) == BehindOutput(h.output, HandleFrame(cat, h.next, memory))
  {
  }

  lemma FrameJoined(cat: CatalogTraits, a: Sender, items: seq<Item>, output: Output, f: FrameReading)
    requires items != [] && AllAllowed(cat, a, items) && !ItemOverruns(cat, a, items[0])
    requires Expected(cat, a, items[0], output) && FrameFinds(cat, After(cat, a, items[0]), items[1..], f)
    ensures FrameFinds(cat, a, items, BehindOutput(output, f))
  {
    if !RunOverruns(cat, a, items) {
      ExpectedStep(cat, a, items, output, f.outputs);
    }
  }

  lemma ExpectedStep(cat: CatalogTraits, a: Sender, items: seq<Item>, output: Output, outputs: seq<Output>)
    requires items != [] && AllAllowed(cat, a, items) && Expected(cat, a, items[0], output)
    requires AllExpected(cat, After(cat, a, items[0]), items[1..], outputs)
    ensures AllExpected(cat, a, items, [output] + outputs)
  {
    assert ([output] + outputs)[1..] == outputs;
  }

  lemma FrameEnds(cat: CatalogTraits, a: Sender, g: Receiving, memory: nat -> Bytes)
    requires Before(g.r, [], a.caches) && EndsFrame(g.r, [], a.caches)
    ensures HandleFrame(cat, g, memory) == FrameRead([], g) && InStep(a.caches, g.r.caches)
  {
    assert Looking(0);
    CountZerosPadding(g.r.stream, g.r.pos);
  }

  // ----- Proxies -----

  /** The frame that is sent for a run of items: the code of the items and the zeros that fill the
      last byte or bytes. */
  ghost predicate FrameOf(cat: CatalogTraits, a: Sender, items: seq<Item>, frame: seq<bool>)
    requires AllAllowed(cat, a, items)
  {
    exists n: nat :: frame == Codes(RunTokens(cat, a, items), a.caches, 0) + Repeat(false, n)
  }

  lemma FrameStarts(cat: CatalogTraits, a: Sender, g: Receiving, items: seq<Item>, frame: seq<bool>)
    requires AllAllowed(cat, a, items) && FrameOf(cat, a, items, frame) && InStep(a.caches, g.r.caches)
    requires g.r.stream == frame && g.r.pos == 0
    ensures AtFrame(cat, a, g, items)
  {
    assert Looking(0);
    var n: nat :| frame == Codes(RunTokens(cat, a, items), a.caches, 0) + Repeat(false, n);
    var code := Codes(RunTokens(cat, a, items), a.caches, 0);
    assert frame[0..|code|] == code && frame[|code|..] == Repeat(false, n);
    AtSlice(frame, 0, code);
  }

  /** What belongs to a channel: the resource of its sequence of splits and the last position that it
      committed.  Stores, caches, splits and commits belong to the proxy. */
  datatype SplitState = SplitState(resource: Option<Byte>, commit: Word)

  const FRESH_STATE := SplitState(None, 0)

  /** A proxy with its open channels; `shared` has the state of the channel served last. */
  datatype EncodingProxy = EncodingProxy(shared: Sender, channels: map<nat, SplitState>)

  datatype DecodingProxy = DecodingProxy(shared: Receiving, channels: map<nat, SplitState>)

  function Serving(a: Sender, state: SplitState): Sender {
    a.(resource := state.resource, commit := state.commit)
  }

  function Served(channels: map<nat, SplitState>, channel: nat, a: Sender): EncodingProxy {
    EncodingProxy(a, channels[channel := SplitState(a.resource, a.commit)])
  }

  /** The decoding side at the start of a frame. */
  function Reading(g: Receiving, state: SplitState, bits: seq<bool>): Receiving {
    g.(r := Receiver(bits, 0, g.r.caches), resource := state.resource, commit := state.commit)
  }

  function ReadFor(channels: map<nat, SplitState>, channel: nat, g: Receiving): DecodingProxy {
    DecodingProxy(g, channels[channel := SplitState(g.resource, g.commit)])
  }

  /** The two proxies agree. */
  ghost predicate ProxiesLinked(cat: CatalogTraits, p: EncodingProxy, q: DecodingProxy) {
    Linked(cat, p.shared, q.shared) && InStep(p.shared.caches, q.shared.r.caches) && p.channels == q.channels
  }

  lemma LinkedServing(cat: CatalogTraits, a: Sender, g: Receiving, state: SplitState, bits: seq<bool>)
    requires Linked(cat, a, g)
    ensures Linked(cat, Serving(a, state), Reading(g, state, bits))
  {
  }

  // ----- Sessions -----

  /** What the encoding proxy does: opens or closes a channel, or sends the frame for a run of items
      of one. */
  datatype Event = Opened(channel: nat) | Closed(channel: nat) | Sent(channel: nat, items: seq<Item>, frame: seq<bool>)

  /** What arrives at the decoding proxy, in the same order, and what the write buffer holds when a
      request of a frame is written: `memory` gives it for each position of the frame. */
  datatype Arrival = Opens(channel: nat) | Closes(channel: nat) | Frame(channel: nat, bits: seq<bool>, memory: nat -> Bytes)

  /** The link delivers an event; whatever the write buffer holds. */
  ghost predicate Delivers(e: Event, x: Arrival) {
    match e
    case Opened(c) => x == Opens(c)
    case Closed(c) => x == Closes(c)
    case Sent(c, _, frame) => x.Frame? && x.channel == c && x.bits == frame
  }

  ghost predicate AllDelivered(es: seq<Event>, xs: seq<Arrival>) {
    |es| == |xs| && forall i :: 0 <= i < |es| ==> Delivers(es[i], xs[i])
  }

  ghost predicate EventAllowed(cat: CatalogTraits, p: EncodingProxy, e: Event) {
    match e
    case Opened(c) => c !in p.channels
    case Closed(c) => c in p.channels
    case Sent(c, items, frame) =>
      c in p.channels && var a := Serving(p.shared, p.channels[c]);
      AllAllowed(cat, a, items) && FrameOf(cat, a, items, frame)
  }

  function AfterEvent(cat: CatalogTraits, p: EncodingProxy, e: Event): EncodingProxy
    requires EventAllowed(cat, p, e)
  {
    match e
    case Opened(c) => p.(channels := p.channels[c := FRESH_STATE])
    case Closed(c) => p.(channels := p.channels - {c})
    case Sent(c, items, _) => Served(p.channels, c, AfterRun(cat, Serving(p.shared, p.channels[c]), items))
  }

  ghost predicate EventOverruns(cat: CatalogTraits, p: EncodingProxy, e: Event)
    requires EventAllowed(cat, p, e)
  {
    e.Sent? && RunOverruns(cat, Serving(p.shared, p.channels[e.channel]), e.items)
  }

  /** What is written to the X server for an event. */
  ghost predicate EventExpected(cat: CatalogTraits, p: EncodingProxy, e: Event, outputs: seq<Output>)
    requires EventAllowed(cat, p, e)
  {
    if e.Sent? then AllExpected(cat, Serving(p.shared, p.channels[e.channel]), e.items, outputs) else outputs == []
  }

  datatype ArrivalReading = ArrivalBroken | ArrivalOverrun | ArrivalRead(outputs: seq<Output>, next: DecodingProxy)

  /** A frame for a channel that is not open is passed over. */
  function HandleArrival(cat: CatalogTraits, q: DecodingProxy, x: Arrival): ArrivalReading {
    match x
    case Opens(c) => ArrivalRead([], q.(channels := q.channels[c := FRESH_STATE]))
    case Closes(c) => ArrivalRead([], q.(channels := q.channels - {c}))
    case Frame(c, bits, memory) =>
      if c !in q.channels then ArrivalRead([], q)
      else FrameDone(q.channels, c, HandleFrame(cat, Reading(q.shared, q.channels[c], bits), memory))
  }

  function FrameDone(channels: map<nat, SplitState>, channel: nat, f: FrameReading): ArrivalReading {
    match f
    case FrameBroken => ArrivalBroken
    case FrameOverrun => ArrivalOverrun
    case FrameRead(outputs, g) => ArrivalRead(outputs, ReadFor(channels, channel, g))
  }

  ghost predicate EventFinds(cat: CatalogTraits, p: EncodingProxy, e: Event, h: ArrivalReading)
    requires EventAllowed(cat, p, e)
  {
    if EventOverruns(cat, p, e) then h.ArrivalOverrun?
    else h.ArrivalRead? && EventExpected(cat, p, e, h.outputs) && ProxiesLinked(cat, AfterEvent(cat, p, e), h.next)
  }

  /** One event, whatever has happened before on any channel. */
  lemma EventArrives(cat: CatalogTraits, p: EncodingProxy, q: DecodingProxy, e: Event, x: Arrival)
    requires cat.Proper() && ProxiesLinked(cat, p, q) && EventAllowed(cat, p, e) && Delivers(e, x)
    ensures EventFinds(cat, p, e, HandleArrival(cat, q, x))
  {
    if e.Sent? {
      var a, g := Serving(p.shared, p.channels[e.channel]), Reading(q.shared, q.channels[e.channel], x.bits);
      LinkedServing(cat, p.shared, q.shared, p.channels[e.channel], x.bits);
      FrameStarts(cat, a, g, e.items, e.frame);
      FrameArrives(cat, a, g, e.items, x.memory);
      FrameServed(cat, p, e, HandleFrame(cat, g, x.memory));
    } else {
      ChannelsLinked(cat, p, q, AfterEvent(cat, p, e).channels);
    }
  }

  /** What a frame leaves behind in the proxies. */
  lemma FrameServed(cat: CatalogTraits, p: EncodingProxy, e: Event, f: FrameReading)
    requires EventAllowed(cat, p, e) && e.Sent?
    requires FrameFinds(cat, Serving(p.shared, p.channels[e.channel]), e.items, f)
    ensures EventFinds(cat, p, e, FrameDone(p.channels, e.channel, f))
  {
    if !EventOverruns(cat, p, e) {
      LinkedServed(cat, p.channels, e.channel, AfterRun(cat, Serving(p.shared, p.channels[e.channel]), e.items), f.next);
    }
  }

  lemma LinkedServed(cat: CatalogTraits, channels: map<nat, SplitState>, c: nat, a: Sender, g: Receiving)
    requires Linked(cat, a, g) && InStep(a.caches, g.r.caches)
    ensures ProxiesLinked(cat, Served(channels, c, a), ReadFor(channels, c, g))
  {
  }

  lemma ChannelsLinked(cat: CatalogTraits, p: EncodingProxy, q: DecodingProxy, channels: map<nat, SplitState>)
    requires ProxiesLinked(cat, p, q)
    ensures ProxiesLinked(cat, p.(channels := channels), q.(channels := channels))
  {
  }

  ghost predicate SessionOf(cat: CatalogTraits, p: EncodingProxy, es: seq<Event>)
    decreases |es|
  {
    es == [] || (EventAllowed(cat, p, es[0]) && SessionOf(cat, AfterEvent(cat, p, es[0]), es[1..]))
  }

  function AfterSession(cat: CatalogTraits, p: EncodingProxy, es: seq<Event>): EncodingProxy
    requires SessionOf(cat, p, es)
    decreases |es|
  {
    if es == [] then p else AfterSession(cat, AfterEvent(cat, p, es[0]), es[1..])
  }

  ghost predicate SessionOverruns(cat: CatalogTraits, p: EncodingProxy, es: seq<Event>)
    requires SessionOf(cat, p, es)
    decreases |es|
  {
    es != [] && (EventOverruns(cat, p, es[0]) || SessionOverruns(cat, AfterEvent(cat, p, es[0]), es[1..]))
  }

  ghost predicate SessionExpected(cat: CatalogTraits, p: EncodingProxy, es: seq<Event>, outputs: seq<seq<Output>>)
    requires SessionOf(cat, p, es)
    decreases |es|
  {
    |outputs| == |es| &&
    (es == [] ||
     (EventExpected(cat, p, es[0], outputs[0]) && SessionExpected(cat, AfterEvent(cat, p, es[0]), es[1..], outputs[1..])))
  }

  datatype SessionReading = SessionBroken | SessionOverrun | SessionRead(outputs: seq<seq<Output>>, next: DecodingProxy)

  /** The decoding proxy, arrival by arrival. */
  function HandleSession(cat: CatalogTraits, q: DecodingProxy, xs: seq<Arrival>): SessionReading
    decreases |xs|
  {
    if xs == [] then SessionRead([], q)
    else match HandleArrival(cat, q, xs[0])
      case ArrivalBroken => SessionBroken
      case ArrivalOverrun => SessionOverrun
      case ArrivalRead(outputs, q') => BehindOutputs(outputs, HandleSession(cat, q', xs[1..]))
  }

  function BehindOutputs(outputs: seq<Output>, x: SessionReading): SessionReading {
    if x.SessionRead? then SessionRead([outputs] + x.outputs, x.next) else x
  }

  /** Exactly the items of a session were found, each led to what is expected of it, and the proxies
      are linked; or memory was written past its end, if a packet of a split without data was sent. */
  ghost predicate SessionFinds(cat: CatalogTraits, p: EncodingProxy, es: seq<Event>, x: SessionReading)
    requires SessionOf(cat, p, es)
  {
    if SessionOverruns(cat, p, es) then x.SessionOverrun?
    else
      x.SessionRead? && SessionExpected(cat, p, es, x.outputs) && ProxiesLinked(cat, AfterSession(cat, p, es), x.next)
  }

  /** Every session of any number of channels: the decoding proxy finds every item of every frame,
      writes out what is expected of each, and both proxies end up linked with their caches in step;
      unless, and only if, a packet of a split without data is sent. */
  lemma {:induction false} SessionArrives(
      cat: CatalogTraits, p: EncodingProxy, q: DecodingProxy, es: seq<Event>, xs: seq<Arrival>)
    requires cat.Proper() && ProxiesLinked(cat, p, q) && SessionOf(cat, p, es) && AllDelivered(es, xs)
    ensures SessionFinds(cat, p, es, HandleSession(cat, q, xs))
    decreases |es|
  {
    if es != [] {
      assert Delivers(es[0], xs[0]);
      EventArrives(cat, p, q, es[0], xs[0]);
      var h := HandleArrival(cat, q, xs[0]);
      SessionStep(cat, q, xs, h);
      if !EventOverruns(cat, p, es[0]) {
        SessionArrives(cat, AfterEvent(cat, p, es[0]), h.next, es[1..], xs[1..]);
        SessionJoined(cat, p, es, h.outputs, HandleSession(cat, h.next, xs[1..]));
      }
    }
  }

  lemma SessionStep(cat: CatalogTraits, q: DecodingProxy, xs: seq<Arrival>, h: ArrivalReading)
    requires xs != [] && h == HandleArrival(cat, q, xs[0])
    ensures h.ArrivalOverrun? ==> HandleSession(cat, q, xs) == SessionOverrun
    ensures h.ArrivalRead? ==> HandleSession(cat, q, xs) == BehindOutputs(h.outputs, HandleSession(cat, h.next, xs[1..]))
  {
  }

  lemma SessionJoined(cat: CatalogTraits, p: EncodingProxy, es: seq<Event>, outputs: seq<Output>, x: SessionReading)
    requires es != [] && SessionOf(cat, p, es) && !EventOverruns(cat, p, es[0])
    requires EventExpected(cat, p, es[0], outputs) && SessionFinds(cat, AfterEvent(cat, p, es[0]), es[1..], x)
    ensures SessionFinds(cat, p, es, BehindOutputs(outputs, x))
  {
    if !SessionOverruns(cat, p, es) {
      SessionExpectedStep(cat, p, es, outputs, x.outputs);
    }
  }

  lemma SessionExpectedStep(cat: CatalogTraits, p: EncodingProxy, es: seq<Event>, outputs: seq<Output>, rest: seq<seq<Output>>)
    requires es != [] && SessionOf(cat, p, es) && EventExpected(cat, p, es[0], outputs)
    requires SessionExpected(cat, AfterEvent(cat, p, es[0]), es[1..], rest)
    ensures SessionExpected(cat, p, es, [outputs] + rest)
  {
    assert ([outputs] + rest)[1..] == rest;
  }

  // ----- Without data in splits -----

  /** No store splits the data part of a request. */
  ghost predicate NoDataSplit(cat: CatalogTraits) {
    forall k :: !cat.store(k).SplitsData()
  }

  /** Every split has its data at hand, being a hit. */
  ghost predicate AllLoaded(os: seq<Outgoing>) {
    forall i :: 0 <= i < |os| ==> os[i].loaded
  }

  lemma LoadedAfter(cat: CatalogTraits, a: Sender, item: Item)
    requires NoDataSplit(cat) && AllLoaded(a.pending) && Allowed(cat, a, item)
    ensures !ItemOverruns(cat, a, item) && AllLoaded(After(cat, a, item).pending)
  {
    assert item.RequestItem? ==> !cat.store(item.kind).SplitsData();
  }

  lemma {:induction false} LoadedRun(cat: CatalogTraits, a: Sender, items: seq<Item>)
    requires NoDataSplit(cat) && AllLoaded(a.pending) && AllAllowed(cat, a, items)
    ensures !RunOverruns(cat, a, items) && AllLoaded(AfterRun(cat, a, items).pending)
    decreases |items|
  {
    if items != [] {
      LoadedAfter(cat, a, items[0]);
      LoadedRun(cat, After(cat, a, items[0]), items[1..]);
    }
  }

  lemma LoadedEvent(cat: CatalogTraits, p: EncodingProxy, e: Event)
    requires NoDataSplit(cat) && AllLoaded(p.shared.pending) && EventAllowed(cat, p, e)
    ensures !EventOverruns(cat, p, e) && AllLoaded(AfterEvent(cat, p, e).shared.pending)
  {
    if e.Sent? {
      LoadedRun(cat, Serving(p.shared, p.channels[e.channel]), e.items);
    }
  }

  /** If no store splits the data part of a request, no session overruns. */
  lemma {:induction false} LoadedSession(cat: CatalogTraits, p: EncodingProxy, es: seq<Event>)
    requires NoDataSplit(cat) && AllLoaded(p.shared.pending) && SessionOf(cat, p, es)
    ensures !SessionOverruns(cat, p, es)
    decreases |es|
  {
    if es != [] {
      LoadedEvent(cat, p, es[0]);
      LoadedSession(cat, AfterEvent(cat, p, es[0]), es[1..]);
    }
  }

  // ----- The beginning -----

  function Empty(n: nat): (slots: Slots)
    ensures |slots| == n && forall p :: 0 <= p < n ==> slots[p] == None
  {
    seq(n, _ => None)
  }

  function EmptyStores(slots: Kind -> nat): Stores {
    map k: Kind :: Empty(slots(k))
  }

  function FreshEncoding(slots: Kind -> nat): EncodingProxy {
    EncodingProxy(Sender(FreshCaches(), EmptyStores(slots), [], [], None, 0), map[])
  }

  function FreshDecoding(slots: Kind -> nat): DecodingProxy {
    DecodingProxy(Receiving(Receiver([], 0, FreshCaches()), EmptyStores(slots), [], [], None, 0), map[])
  }

  /** A new pair of proxies, without any channel, agrees. */
  lemma FreshLinked(cat: CatalogTraits, slots: Kind -> nat)
    requires forall k: Kind :: slots(k) <= MAX_SLOTS
    ensures ProxiesLinked(cat, FreshEncoding(slots), FreshDecoding(slots))
  {
    FreshInStep();
    forall k: Kind ensures Coherent(cat.store(k), EmptyStores(slots)[k], EmptyStores(slots)[k]) {
    }
  }

  /** Whenever the encoding side may issue a hit, the decoding side has the message, unlocked and
      with its data part: no hit is served from a message whose split is still under way. */
  lemma HitsAreServed(cat: CatalogTraits, a: Sender, g: Receiving, item: Item)
    requires Linked(cat, a, g) && item.RequestItem? && item.decision.Hit? && Allowed(cat, a, item)
    ensures var s, p := cat.store(item.kind), item.decision.position;
            var held := Removed(a.stores[item.kind], item.removals);
            p < |g.stores[item.kind]| && held[p].Some? && g.stores[item.kind][p].Some? &&
            g.stores[item.kind][p].value.locks == 0 &&
            Unparsed(s, g.stores[item.kind][p].value) == Some(DataOf(s, item.m))
  {
    var s, p := cat.store(item.kind), item.decision.position;
    var x, y := a.stores[item.kind], g.stores[item.kind];
    assert Coherent(s, x, y);
    RemovedCoherent(s, x, y, item.removals);
    HitCoherent(s, Removed(x, item.removals), Removed(y, item.removals), p, item.m, item.take);
    RemovedOnly(y, item.removals, p);
  }

  /** A slot that is occupied after removals is as it was. */
  lemma {:induction false} RemovedOnly(slots: Slots, ps: seq<nat>, p: nat)
    requires (forall i :: 0 <= i < |ps| ==> ps[i] < |slots|) && p < |slots| && Removed(slots, ps)[p].Some?
    ensures Removed(slots, ps)[p] == slots[p]
    decreases |ps|
  {
    if ps != [] {
      RemovedOnly(slots[ps[0] := None], ps[1..], p);
    }
  }
}
