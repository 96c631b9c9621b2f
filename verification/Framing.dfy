/**
 Finding the requests in what a client sends: nxcomp/src/ClientReadBuffer.cpp, with the loop
 over getMessage of nxcomp/src/ReadBuffer.cpp.
 */
module Framing {
  import opened Words
  import opened Buffers
  import opened Messages

  /** The fields of the read buffer that decide where a message ends. */
  datatype Mode = Mode(first: bool, bigEndian: bool)

  datatype Location = Missing(bytes: nat) | Located(length: nat)

  const BIG_ENDIAN_MARK: Byte := 0x42
  const LONGEST_SETUP: nat := 4096

  /** The connection setup starts with twelve bytes, a request with four
      (sections 8 and 1 of the X Window System Protocol, Version 11). */
  function HeaderSize(f: Mode): nat {
    if f.first then 12 else 4
  }

  /** The length that a header tells. */
  function Declared(f: Mode, d: Bytes): (n: nat)
    requires |d| >= HeaderSize(f)
    ensures n >= HeaderSize(f)
  {
    if f.first then
      var bigEndian := d[0] == BIG_ENDIAN_MARK;
      12 + RoundUp4(Get(bigEndian, d, Field(6, 2))) + RoundUp4(Get(bigEndian, d, Field(8, 2)))
    else
      var n := 4 * Get(f.bigEndian, d, LENGTH_FIELD);
      if n < 4 then 4 else n
  }

  /** What follows locateMessage: a setup that tells an unlikely length is passed on as it is. */
  function Locate(f: Mode, d: Bytes): (l: Location)
    ensures l.Located? ==> 4 <= l.length <= |d|
    ensures l.Missing? ==> l.bytes > 0
  {
    if |d| < HeaderSize(f) then Missing(HeaderSize(f) - |d|)
    else
      var n := Declared(f, d);
      if f.first && n > LONGEST_SETUP then Located(|d|)
      else if |d| < n then Missing(n - |d|)
      else Located(n)
  }

  function After(f: Mode, d: Bytes): Mode
    requires |d| > 0
  {
    Mode(false, if f.first then d[0] == BIG_ENDIAN_MARK else f.bigEndian)
  }

  /** The messages found in the bytes d, and what is left behind them. */
  datatype Frames = Frames(messages: seq<Bytes>, mode: Mode, rest: Bytes)

  function Split(f: Mode, d: Bytes): Frames
    decreases |d|
  {
    match Locate(f, d)
    case Missing(_) => Frames([], f, d)
    case Located(n) =>
      Behind([d[..n]], Split(After(f, d), d[n..]))
  }

  /** The setup, if there is one, does not tell an unlikely length. */
  ghost predicate Calm(f: Mode, d: Bytes) {
    f.first && |d| >= 12 ==> Declared(f, d) <= LONGEST_SETUP
  }

  lemma DeclaredSame(f: Mode, a: Bytes, b: Bytes)
    requires |a| >= HeaderSize(f)
    ensures Declared(f, a + b) == Declared(f, a) && (a + b)[0] == a[0]
  {
    var m := a + b;
    assert m[..|a|] == a[..|a|];
    if f.first {
      GetInFront(a[0] == BIG_ENDIAN_MARK, a, m, |a|, Field(6, 2));
      GetInFront(a[0] == BIG_ENDIAN_MARK, a, m, |a|, Field(8, 2));
    } else {
      GetInFront(f.bigEndian, a, m, |a|, LENGTH_FIELD);
    }
  }

  /** A message that was found stays where it is when more bytes come in. */
  lemma LocatedStays(f: Mode, a: Bytes, b: Bytes)
    requires Calm(f, a + b) && Locate(f, a).Located?
    ensures Locate(f, a + b) == Locate(f, a) && After(f, a + b) == After(f, a)
  {
    DeclaredSame(f, a, b);
  }

  /** What is found behind messages found before. */
  function Behind(ms: seq<Bytes>, x: Frames): Frames {
    x.(messages := ms + x.messages)
  }

  lemma BehindFirst(ms: seq<Bytes>, ns: seq<Bytes>, x: Frames)
    ensures Behind(ms, Behind(ns, x)) == Behind(ms + ns, x)
  {
    assert ms + (ns + x.messages) == (ms + ns) + x.messages;
  }

  lemma BehindNothing(x: Frames)
    ensures Behind([], x) == x
  {
    assert [] + x.messages == x.messages;
  }

  /** Reading in two parts finds what reading at once finds. */
  lemma {:induction false} SplitInParts(f: Mode, a: Bytes, b: Bytes)
    requires Calm(f, a + b)
    ensures var x := Split(f, a);
            Split(f, a + b) == Behind(x.messages, Split(x.mode, x.rest + b))
    decreases |a|
  {
    match Locate(f, a)
    case Missing(_) => BehindNothing(Split(f, a + b));
    case Located(n) =>
      LocatedStays(f, a, b);
      SliceOfBoth(a, b, n);
      CalmBehind(f, a, b, n);
      SplitInParts(After(f, a), a[n..], b);
      var x := Split(After(f, a), a[n..]);
      BehindFirst([a[..n]], x.messages, Split(x.mode, x.rest + b));
  }

  lemma SliceOfBoth(a: Bytes, b: Bytes, n: nat)
    requires n <= |a|
    ensures (a + b)[n..] == a[n..] + b && (a + b)[..n] == a[..n]
  {
  }

  lemma CalmBehind(f: Mode, a: Bytes, b: Bytes, n: nat)
    requires 0 < n <= |a|
    ensures Calm(After(f, a), a[n..] + b)
  {
  }

  function Joined(chunks: seq<Bytes>): Bytes {
    if chunks == [] then [] else chunks[0] + Joined(chunks[1..])
  }

  /** Reading chunk by chunk: after each the messages are taken out. */
  function Fed(f: Mode, pending: Bytes, chunks: seq<Bytes>): Frames
    decreases |chunks|
  {
    if chunks == [] then Frames([], f, pending)
    else
      var x := Split(f, pending + chunks[0]);
      var y := Fed(x.mode, x.rest, chunks[1..]);
      Behind(x.messages, y)
  }

  /** Nothing is found in what a read has left. */
  lemma {:induction false} RestIsPartial(f: Mode, d: Bytes)
    ensures var x := Split(f, d); Locate(x.mode, x.rest).Missing?
    decreases |d|
  {
    match Locate(f, d)
    case Missing(_) =>
    case Located(n) => RestIsPartial(After(f, d), d[n..]);
  }

  lemma {:induction false} RestIsCalm(f: Mode, d: Bytes, e: Bytes)
    requires Calm(f, d + e)
    ensures var x := Split(f, d); Calm(x.mode, x.rest + e)
    decreases |d|
  {
    match Locate(f, d)
    case Missing(_) =>
    case Located(n) =>
      if n < |d| {
        RestIsCalm(After(f, d), d[n..], e);
      }
  }

  /** A stream that is calm, or ends with its header. */
  ghost predicate Steady(f: Mode, d: Bytes) {
    Calm(f, d) || |d| <= 12
  }

  /** Reading in two parts what is no more than a header. */
  lemma SplitShort(f: Mode, a: Bytes, b: Bytes)
    requires f.first && |a + b| <= 12
    ensures var x := Split(f, a);
            Split(f, a + b) == Behind(x.messages, Split(x.mode, x.rest + b)) && Steady(x.mode, x.rest + b)
  {
    if |a| < 12 {
      BehindNothing(Split(f, a + b));
    } else {
      assert a + b == a;
      var x := Split(f, a);
      assert x.rest + b == x.rest;
      RestIsPartial(f, a);
      assert x.messages + [] == x.messages;
    }
  }

  lemma SplitSteady(f: Mode, a: Bytes, b: Bytes)
    requires Steady(f, a + b)
    ensures var x := Split(f, a);
            Split(f, a + b) == Behind(x.messages, Split(x.mode, x.rest + b)) && Steady(x.mode, x.rest + b)
  {
    if Calm(f, a + b) {
      SplitInParts(f, a, b);
      RestIsCalm(f, a, b);
    } else {
      SplitShort(f, a, b);
    }
  }

  /** However a steady stream is cut into reads, the same messages are found and the same bytes are
      left. */
  lemma {:induction false} ChunksDoNotMatter(f: Mode, pending: Bytes, chunks: seq<Bytes>)
    requires Locate(f, pending).Missing? && Steady(f, pending + Joined(chunks))
    ensures Fed(f, pending, chunks) == Split(f, pending + Joined(chunks))
    decreases |chunks|
  {
    if chunks == [] {
      assert pending + [] == pending;
    } else {
      var first, more := pending + chunks[0], Joined(chunks[1..]);
      assert pending + Joined(chunks) == first + more;
      SplitSteady(f, first, more);
      var x := Split(f, first);
      RestIsPartial(f, first);
      ChunksDoNotMatter(x.mode, x.rest, chunks[1..]);
    }
  }

  /** A setup that is not steady is found at a place that depends on the reads. */
  lemma ChunksMatter(bigEndian: bool, d: Bytes)
    requires !Steady(Mode(true, bigEndian), d)
    ensures var f := Mode(true, bigEndian);
            Fed(f, [], [d]) != Fed(f, [], [d[..12], d[12..]])
  {
    var f := Mode(true, bigEndian);
    assert d[..12] + d[12..] == d;
    DeclaredSame(f, d[..12], d[12..]);
    FedWhole(f, d);
    FedParts(f, d[..12], d[12..]);
    assert Split(f, d).messages[0] == d[..|d|] == d;
    assert Split(f, d[..12]).messages[0] == d[..12];
  }

  /** The messages of a client depend on nothing but what it sends exactly if that is steady. */
  lemma ChunkingExactly(bigEndian: bool, d: Bytes)
    ensures var f := Mode(true, bigEndian);
            Steady(f, d) <==> forall chunks :: Joined(chunks) == d ==> Fed(f, [], chunks) == Split(f, d)
  {
    var f := Mode(true, bigEndian);
    if Steady(f, d) {
      forall chunks | Joined(chunks) == d ensures Fed(f, [], chunks) == Split(f, d) {
        assert [] + d == d;
        ChunksDoNotMatter(f, [], chunks);
      }
    } else {
      ChunksMatter(bigEndian, d);
      JoinedWhole(d);
      JoinedHalves(d[..12], d[12..]);
      assert d[..12] + d[12..] == d;
    }
  }

  lemma JoinedWhole(d: Bytes)
    ensures Joined([d]) == d
  {
    assert [d][1..] == [] && d + [] == d;
  }

  lemma JoinedHalves(a: Bytes, b: Bytes)
    ensures Joined([a, b]) == a + b
  {
    assert [a, b][1..] == [b];
    JoinedWhole(b);
  }

  lemma FedWhole(f: Mode, d: Bytes)
    ensures Fed(f, [], [d]).messages == Split(f, d).messages
  {
    assert [] + d == d && [d][1..] == [];
    var x := Split(f, d);
    assert Fed(x.mode, x.rest, []) == Frames([], x.mode, x.rest);
    assert x.messages + [] == x.messages;
  }

  lemma FedParts(f: Mode, a: Bytes, b: Bytes)
    requires Split(f, a).messages != []
    ensures Fed(f, [], [a, b]).messages != [] && Fed(f, [], [a, b]).messages[0] == Split(f, a).messages[0]
  {
    assert [] + a == a && [a, b][1..] == [b];
  }

  function Whole(x: Frames): Bytes {
    Joined(x.messages) + x.rest
  }

  lemma WholeBehind(m: Bytes, x: Frames)
    ensures Whole(Behind([m], x)) == m + Whole(x)
  {
    JoinedFirst(m, x.messages);
    BytesJoined(m, Joined(x.messages), x.rest);
  }

  /** The messages and the rest are the stream. */
  lemma {:induction false} NothingLost(f: Mode, d: Bytes)
    ensures Whole(Split(f, d)) == d
    decreases |d|
  {
    match Locate(f, d)
    case Missing(_) =>
    case Located(n) =>
      NothingLost(After(f, d), d[n..]);
      WholeBehind(d[..n], Split(After(f, d), d[n..]));
  }

  /** Every message has four bytes at least, so the loop over messages ends. */
  lemma {:induction false} MessagesLong(f: Mode, d: Bytes)
    ensures forall m :: m in Split(f, d).messages ==> |m| >= 4
    decreases |d|
  {
    match Locate(f, d)
    case Missing(_) =>
    case Located(n) => MessagesLong(After(f, d), d[n..]);
  }

  lemma JoinedFirst(a: Bytes, chunks: seq<Bytes>)
    ensures Joined([a] + chunks) == a + Joined(chunks)
  {
    assert ([a] + chunks)[1..] == chunks;
  }

  lemma BytesJoined(a: Bytes, b: Bytes, c: Bytes)
    ensures (a + b) + c == a + (b + c)
  {
  }

  /** No shorter read can complete a message than the one that is asked for, and once the header
      is there that one does. */
  lemma RemainingExact(f: Mode, d: Bytes, e: Bytes)
    requires Locate(f, d).Missing?
    ensures |e| < Locate(f, d).bytes ==> Locate(f, d + e).Missing?
    ensures |d| >= HeaderSize(f) ==> (Locate(f, d + e).Located? <==> |e| >= Locate(f, d).bytes)
  {
    if |d| >= HeaderSize(f) {
      DeclaredSame(f, d, e);
    }
  }

  // ----- What is framed, in numbers -----

  /** A request whose bytes 2 and 3 tell its size in words of four bytes. */
  predicate Sized(bigEndian: bool, m: Bytes) {
    |m| >= 4 && |m| == 4 * TwoBytes(bigEndian, m, 2)
  }

  /** A request that is not complete. */
  predicate Partial(bigEndian: bool, d: Bytes) {
    |d| < 4 || |d| < 4 * TwoBytes(bigEndian, d, 2)
  }

  /** Every request that a store can handle is one. */
  lemma WellFormedSized(c: MessageClass, bigEndian: bool, m: Bytes)
    requires WellFormed(c, bigEndian, m)
    ensures Sized(bigEndian, m)
  {
    GetIs(bigEndian, m, 2);
  }

  lemma LocateSized(bigEndian: bool, m: Bytes, rest: Bytes)
    requires Sized(bigEndian, m)
    ensures Locate(Mode(false, bigEndian), m + rest) == Located(|m|)
  {
    GetIs(bigEndian, m + rest, 2);
  }

  lemma LocatePartial(bigEndian: bool, d: Bytes)
    requires Partial(bigEndian, d)
    ensures Split(Mode(false, bigEndian), d) == Frames([], Mode(false, bigEndian), d)
  {
    if |d| >= 4 {
      GetIs(bigEndian, d, 2);
    }
  }

  /** One more message in front. */
  lemma SplitFirst(f: Mode, m: Bytes, rest: Bytes, x: Frames)
    requires m != [] && Locate(f, m + rest) == Located(|m|) && Split(After(f, m + rest), rest) == x
    ensures Split(f, m + rest) == Behind([m], x)
  {
    SliceOfBoth(m, rest, |m|);
    assert m[|m|..] + rest == rest && m[..|m|] == m;
  }

  /** Requests sent one behind the other, each as long as its length field tells in words of four
      bytes, are found as they were sent; a request that is not complete yet stays. */
  lemma {:induction false} RequestsFound(bigEndian: bool, ms: seq<Bytes>, rest: Bytes)
    requires (forall m :: m in ms ==> Sized(bigEndian, m)) && Partial(bigEndian, rest)
    ensures Split(Mode(false, bigEndian), Joined(ms) + rest) == Frames(ms, Mode(false, bigEndian), rest)
    decreases |ms|
  {
    if ms == [] {
      LocatePartial(bigEndian, rest);
      assert Joined(ms) + rest == rest;
    } else {
      var m, more := ms[0], Joined(ms[1..]) + rest;
      RequestsFound(bigEndian, ms[1..], rest);
      LocateSized(bigEndian, m, more);
      SplitFirst(Mode(false, bigEndian), m, more, Frames(ms[1..], Mode(false, bigEndian), rest));
      BytesJoined(m, Joined(ms[1..]), rest);
      assert [m] + ms[1..] == ms;
    }
  }

  /** A connection setup: twelve bytes, the first of which tells the byte order, then a name and data
      of the lengths told by bytes 6 and 7 and by bytes 8 and 9, each filled up to whole words
      (section 8 of the X Window System Protocol, Version 11). */
  ghost predicate IsSetup(bigEndian: bool, setup: Bytes) {
    && |setup| >= 12
    && (bigEndian <==> setup[0] == 0x42)
    && exists name, data :: Holds(setup, name, data, TwoBytes(bigEndian, setup, 6), TwoBytes(bigEndian, setup, 8))
  }

  /** Behind twelve bytes a setup holds a name of n bytes and data of k bytes, each followed by its
      padding. */
  ghost predicate Holds(setup: Bytes, name: Bytes, data: Bytes, n: nat, k: nat)
    requires |setup| >= 12
  {
    setup[12..] == name + data && Fills(name, n) && Fills(data, k)
  }

  /** The whole words that n bytes take. */
  predicate Fills(d: Bytes, n: nat) {
    n <= |d| < n + 4 && |d| % 4 == 0
  }

  /** The length of a setup, with its name and data filled up to whole words. */
  function SetupLength(d: Bytes): nat
    requires |d| >= 12
  {
    12 + (TwoBytes(d[0] == 0x42, d, 6) + 3) / 4 * 4 + (TwoBytes(d[0] == 0x42, d, 8) + 3) / 4 * 4
  }

  lemma DeclaredIs(f: Mode, d: Bytes)
    requires |d| >= HeaderSize(f)
    ensures f.first ==> |d| >= 12 && Declared(f, d) == SetupLength(d)
    ensures !f.first ==>
      |d| >= 4 &&
      Declared(f, d) == if TwoBytes(f.bigEndian, d, 2) == 0 then 4 else 4 * TwoBytes(f.bigEndian, d, 2)
  {
    if f.first {
      GetIs(d[0] == 0x42, d, 6);
      GetIs(d[0] == 0x42, d, 8);
    } else {
      GetIs(f.bigEndian, d, 2);
    }
  }

  lemma FilledUp(d: Bytes, n: nat)
    requires Fills(d, n)
    ensures (n + 3) / 4 * 4 == |d|
  {
  }

  lemma SetupHolds(setup: Bytes, name: Bytes, data: Bytes, n: nat, k: nat)
    requires |setup| >= 12 && Holds(setup, name, data, n, k)
    ensures 12 + (n + 3) / 4 * 4 + (k + 3) / 4 * 4 == |setup|
  {
    FilledUp(name, n);
    FilledUp(data, k);
    assert |setup| - 12 == |name + data|;
  }

  lemma SetupTold(bigEndian: bool, setup: Bytes)
    requires IsSetup(bigEndian, setup)
    ensures SetupLength(setup) == |setup|
  {
    var n, k := TwoBytes(bigEndian, setup, 6), TwoBytes(bigEndian, setup, 8);
    var name, data :| Holds(setup, name, data, n, k);
    SetupHolds(setup, name, data, n, k);
  }

  lemma DeclaredSetup(was: bool, bigEndian: bool, setup: Bytes, rest: Bytes)
    requires IsSetup(bigEndian, setup)
    ensures Declared(Mode(true, was), setup + rest) == |setup| && (setup + rest)[0] == setup[0]
  {
    SetupTold(bigEndian, setup);
    DeclaredIs(Mode(true, was), setup + rest);
  }

  /** A client that opens its connection with a setup of no more than 4096 bytes and then sends
      requests: however its bytes are cut into reads, the setup and the requests are found as they
      were sent. */
  lemma ClientFramed(was: bool, bigEndian: bool, setup: Bytes, ms: seq<Bytes>, rest: Bytes, chunks: seq<Bytes>)
    requires IsSetup(bigEndian, setup) && |setup| <= 4096
    requires (forall m :: m in ms ==> Sized(bigEndian, m)) && Partial(bigEndian, rest)
    requires Joined(chunks) == setup + (Joined(ms) + rest)
    ensures Fed(Mode(true, was), [], chunks) == Frames([setup] + ms, Mode(false, bigEndian), rest)
  {
    var more := Joined(ms) + rest;
    DeclaredSetup(was, bigEndian, setup, more);
    RequestsFound(bigEndian, ms, rest);
    SplitFirst(Mode(true, was), setup, more, Frames(ms, Mode(false, bigEndian), rest));
    assert [] + Joined(chunks) == setup + more;
    ChunksDoNotMatter(Mode(true, was), [], chunks);
  }

  /** A first message that tells more than 4096 bytes is passed on with whatever was read of it. */
  lemma UnlikelyPassed(was: bool, d: Bytes)
    requires |d| >= 12 && SetupLength(d) > 4096
    ensures Split(Mode(true, was), d) == Frames([d], Mode(false, d[0] == 0x42), [])
  {
    DeclaredIs(Mode(true, was), d);
    assert d + [] == d;
    LocatePartial(d[0] == 0x42, []);
    SplitFirst(Mode(true, was), d, [], Frames([], Mode(false, d[0] == 0x42), []));
  }

  class ClientReadBuffer {
    var buffer: Bytes
    var firstMessage: bool
    var bigEndian: bool
    var remaining: nat

    ghost function Current(): Mode
      reads this
    {
      Mode(firstMessage, bigEndian)
    }

    constructor ()
      ensures buffer == [] && firstMessage && remaining == 0
    {
      buffer, firstMessage, bigEndian, remaining := [], true, false, 0;
    }

    method SuggestedLength(pendingLength: nat) returns (readLength: nat)
      ensures readLength == if pendingLength < remaining then remaining else pendingLength
    {
      readLength := pendingLength;
      if pendingLength < remaining {
        readLength := remaining;
      }
    }

    /** locateMessage.  The byte order is noted as soon as the setup tells it. */
    method LocateMessage() returns (located: bool, dataLength: nat)
      modifies this`firstMessage, this`bigEndian, this`remaining
      ensures located <==> Locate(old(Current()), buffer).Located?
      ensures located ==>
        dataLength == Locate(old(Current()), buffer).length && Current() == After(old(Current()), buffer) && remaining == 0
      ensures !located ==>
        firstMessage == old(firstMessage) && (!firstMessage ==> bigEndian == old(bigEndian)) &&
        remaining == Locate(old(Current()), buffer).bytes
      ensures old(firstMessage) && |buffer| >= 12 ==>
        bigEndian == (buffer[0] == 0x42) &&
        (located <==> SetupLength(buffer) <= |buffer| || SetupLength(buffer) > 4096) &&
        (located ==> dataLength == if SetupLength(buffer) > 4096 then |buffer| else SetupLength(buffer))
      ensures !old(firstMessage) && |buffer| >= 4 ==>
        var words := TwoBytes(old(bigEndian), buffer, 2);
        (located <==> 4 * words <= |buffer|) && (located ==> dataLength == if words == 0 then 4 else 4 * words)
    {
      if |buffer| >= HeaderSize(Current()) {
        DeclaredIs(Current(), buffer);
      }
      dataLength := 0;
      if firstMessage {
        if |buffer| < 12 {
          remaining := 12 - |buffer|;
          return false, 0;
        }
        bigEndian := buffer[0] == BIG_ENDIAN_MARK;
        dataLength := 12 + RoundUp4(Get(bigEndian, buffer, Field(6, 2))) + RoundUp4(Get(bigEndian, buffer, Field(8, 2)));
        if dataLength > LONGEST_SETUP {
          dataLength := |buffer|;
        }
      } else {
        if |buffer| < 4 {
          remaining := 4 - |buffer|;
          return false, 0;
        }
        dataLength := 4 * Get(bigEndian, buffer, LENGTH_FIELD);
        if dataLength < 4 {
          dataLength := 4;
        }
      }
      if |buffer| < dataLength {
        remaining := dataLength - |buffer|;
        return false, 0;
      }
      firstMessage := false;
      remaining := 0;
      return true, dataLength;
    }

    /** A read, and the loop that takes all complete messages out of the buffer. */
    method ReadMessages(chunk: Bytes) returns (messages: seq<Bytes>)
      modifies this
      ensures var x := Split(old(Current()), old(buffer) + chunk);
              messages == x.messages && buffer == x.rest && firstMessage == x.mode.first &&
              (!firstMessage ==> bigEndian == x.mode.bigEndian)
      ensures buffer != [] ==> var l := Locate(Current(), buffer); l.Missing? && remaining == l.bytes
    {
      buffer := buffer + chunk;
      messages := [];
      ghost var whole := Split(Current(), buffer);
      ghost var mode := Current();
      var located, dataLength := true, 0;
      assert whole == Behind([], whole);
      while located && buffer != []
        invariant located ==> mode == Current()
        invariant mode.first == firstMessage && (!firstMessage ==> mode.bigEndian == bigEndian)
        invariant whole == Behind(messages, Split(mode, buffer))
        invariant !located ==> var l := Locate(mode, buffer); l.Missing? && remaining == l.bytes
        decreases |buffer|, located
      {
        located, dataLength := LocateMessage();
        if located {
          BehindFirst(messages, [buffer[..dataLength]], Split(Current(), buffer[dataLength..]));
          messages := messages + [buffer[..dataLength]];
          buffer := buffer[dataLength..];
          mode := Current();
        }
      }
      assert Split(mode, buffer) == Frames([], mode, buffer);
    }
  }
}
