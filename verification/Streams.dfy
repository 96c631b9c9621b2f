/**
 Runs of tokens: what the sender writes for them, when a stream carries them, and that the
 receiver reads the same values back with its caches in step.
 */
module Streams {
  import opened Words
  import opened ClientCache
  import opened BitCodec
  import opened Tokens
  import opened LockStep

  // ----- The sending side -----

  /** The sender's caches after all the tokens. */
  function AfterAll(ts: seq<Token>, k: Caches): Caches {
    if ts == [] then k else AfterAll(ts[1..], AfterSend(ts[0].codec, ts[0].value, k))
  }

  /** The bits written for the tokens from position pos on. */
  function Codes(ts: seq<Token>, k: Caches, pos: nat): seq<bool>
    decreases |ts|
  {
    if ts == [] then [] else CodesAfter(ts, Code(ts[0].codec, ts[0].value, k, pos), k, pos)
  }

  /** The code of the first token, followed by those of the others. */
  function CodesAfter(ts: seq<Token>, first: seq<bool>, k: Caches, pos: nat): seq<bool>
    requires ts != []
    decreases |ts|, 0
  {
    first + Codes(ts[1..], AfterSend(ts[0].codec, ts[0].value, k), pos + |first|)
  }

  lemma {:induction false} AfterAllAppend(ts: seq<Token>, us: seq<Token>, k: Caches)
    ensures AfterAll(ts + us, k) == AfterAll(us, AfterAll(ts, k))
    decreases |ts|
  {
    if ts == [] {
      assert ts + us == us;
    } else {
      assert (ts + us)[1..] == ts[1..] + us;
      AfterAllAppend(ts[1..], us, AfterSend(ts[0].codec, ts[0].value, k));
    }
  }

  lemma {:induction false} CodesAppend(ts: seq<Token>, us: seq<Token>, k: Caches, pos: nat)
    ensures Codes(ts + us, k, pos) ==
            Codes(ts, k, pos) + Codes(us, AfterAll(ts, k), pos + |Codes(ts, k, pos)|)
    decreases |ts|, 1
  {
    if ts == [] {
      assert ts + us == us;
    } else {
      CodesAppendAfter(ts, us, Code(ts[0].codec, ts[0].value, k, pos), k, pos);
    }
  }

  lemma {:induction false} CodesAppendAfter(ts: seq<Token>, us: seq<Token>, first: seq<bool>, k: Caches, pos: nat)
    requires ts != []
    ensures CodesAfter(ts + us, first, k, pos) ==
            CodesAfter(ts, first, k, pos) + Codes(us, AfterAll(ts, k), pos + |CodesAfter(ts, first, k, pos)|)
    decreases |ts|, 0
  {
    var k' := AfterSend(ts[0].codec, ts[0].value, k);
    assert (ts + us)[1..] == ts[1..] + us;
    CodesAppend(ts[1..], us, k', pos + |first|);
    var more := Codes(ts[1..], k', pos + |first|);
    assert pos + |first| + |more| == pos + |first + more|;
  }

  // ----- The receiving side -----

  datatype Receptions = UnreadAll | ReceivedAll(values: seq<Word>, next: Receiver)

  /** One read for each code. */
  function ReceiveAll(cs: seq<ValidCodec>, r: Receiver): (g: Receptions)
    ensures g.ReceivedAll? ==> |g.values| == |cs| && g.next.stream == r.stream && r.pos <= g.next.pos
    decreases |cs|
  {
    if cs == [] then ReceivedAll([], r)
    else match Receive(cs[0], r)
      case Unread(_) => UnreadAll
      case Received(v, r') =>
        match ReceiveAll(cs[1..], r')
        case UnreadAll => UnreadAll
        case ReceivedAll(vs, end) => ReceivedAll([v] + vs, end)
  }

  function CodecsOf(ts: seq<Token>): (cs: seq<ValidCodec>)
    ensures |cs| == |ts| && forall i :: 0 <= i < |ts| ==> cs[i] == ts[i].codec
  {
    seq(|ts|, i requires 0 <= i < |ts| => ts[i].codec)
  }

  function DeliveredOf(ts: seq<Token>): (vs: seq<Word>)
    ensures |vs| == |ts| && forall i :: 0 <= i < |ts| ==> vs[i] == Delivered(ts[i].codec, ts[i].value)
  {
    seq(|ts|, i requires 0 <= i < |ts| => Delivered(ts[i].codec, ts[i].value))
  }

  // ----- The two sides -----

  /** Marks the places where Before and Behind are looked into: the quantifiers below have no
      other instances, so that elsewhere the two are not unfolded. */
  ghost predicate Looking(n: nat) {
    n >= 0
  }

  /** Receiver r stands where tokens were written by a sender whose caches were k. */
  ghost predicate Before(r: Receiver, ts: seq<Token>, k: Caches) {
    forall n: nat :: Looking(n) ==> Written(r, ts, k)
  }

  ghost predicate Written(r: Receiver, ts: seq<Token>, k: Caches) {
    && InStep(k, r.caches)
    && r.pos <= |r.stream|
    && At(r.stream, r.pos, Codes(ts, k, r.pos))
  }

  /** Receiver r' has read, from r on, the code of the tokens and nothing else. */
  ghost predicate Behind(r': Receiver, r: Receiver, ts: seq<Token>, k: Caches) {
    forall n: nat :: Looking(n) ==> Passed(r', r, ts, k)
  }

  ghost predicate Passed(r': Receiver, r: Receiver, ts: seq<Token>, k: Caches) {
    && r'.stream == r.stream
    && r'.pos == r.pos + |Codes(ts, k, r.pos)| <= |r.stream|
    && InStep(AfterAll(ts, k), r'.caches)
  }

  lemma BeforeSplit(r: Receiver, ts: seq<Token>, us: seq<Token>, k: Caches)
    requires Before(r, ts + us, k)
    ensures Before(r, ts, k)
    ensures forall r' :: Behind(r', r, ts, k) ==> Before(r', us, AfterAll(ts, k))
  {
    assert Looking(0);
    CodesAppend(ts, us, k, r.pos);
    AtSplit(r.stream, r.pos, Codes(ts, k, r.pos), Codes(us, AfterAll(ts, k), r.pos + |Codes(ts, k, r.pos)|));
  }

  lemma BehindBoth(r'': Receiver, r': Receiver, r: Receiver, ts: seq<Token>, us: seq<Token>, k: Caches)
    requires Behind(r', r, ts, k) && Behind(r'', r', us, AfterAll(ts, k))
    ensures Behind(r'', r, ts + us, k)
  {
    assert Looking(0);
    EndOfTwo(ts, us, k, r.pos, r'.pos, r''.pos);
    AfterAllAppend(ts, us, k);
  }

  lemma EndOfTwo(ts: seq<Token>, us: seq<Token>, k: Caches, pos: nat, pos': nat, pos'': nat)
    requires pos' == pos + |Codes(ts, k, pos)| && pos'' == pos' + |Codes(us, AfterAll(ts, k), pos')|
    ensures pos'' == pos + |Codes(ts + us, k, pos)|
  {
    CodesLength(ts, us, k, pos);
  }

  lemma CodesLength(ts: seq<Token>, us: seq<Token>, k: Caches, pos: nat)
    ensures |Codes(ts + us, k, pos)| ==
            |Codes(ts, k, pos)| + |Codes(us, AfterAll(ts, k), pos + |Codes(ts, k, pos)|)|
  {
    CodesAppend(ts, us, k, pos);
  }

  lemma CodesOne(t: Token, k: Caches, pos: nat)
    ensures Codes([t], k, pos) == Code(t.codec, t.value, k, pos)
  {
    assert [t][1..] == [];
    CodesAfterLast([t], Code(t.codec, t.value, k, pos), k, pos);
  }

  lemma CodesAfterLast(ts: seq<Token>, first: seq<bool>, k: Caches, pos: nat)
    requires |ts| == 1
    ensures CodesAfter(ts, first, k, pos) == first
  {
    var none := ts[1..];
    assert none == [];
    assert Codes(none, AfterSend(ts[0].codec, ts[0].value, k), pos + |first|) == [];
  }

  /** A single token. */
  lemma OneArrives(r: Receiver, t: Token, k: Caches)
    requires Before(r, [t], k)
    ensures var g := Receive(t.codec, r);
            g.Received? && g.value == Delivered(t.codec, t.value) && Behind(g.next, r, [t], k)
  {
    assert Looking(0);
    var code := Code(t.codec, t.value, k, r.pos);
    CodesOne(t, k, r.pos);
    TokenArrives(t.codec, t.value, k, r.caches, r.stream, r.pos);
    AtSlice(r.stream, r.pos, code);
    assert AfterAll([t], k) == AfterSend(t.codec, t.value, k);
  }

  /** Every run of tokens that the sender writes is read back: each value arrives, reduced to
      the bits that its code has room for, nothing is left over and nothing too much is read,
      and the caches are in step again. */
  lemma {:induction false} AllArrive(r: Receiver, ts: seq<Token>, k: Caches)
    requires Before(r, ts, k)
    ensures var g := ReceiveAll(CodecsOf(ts), r);
            g.ReceivedAll? && g.values == DeliveredOf(ts) && Behind(g.next, r, ts, k)
    decreases |ts|
  {
    if ts == [] {
      NothingRead(r, k);
    } else {
      var first, rest := [ts[0]], ts[1..];
      assert ts == first + rest;
      BeforeSplit(r, first, rest, k);
      OneArrives(r, ts[0], k);
      var r' := Receive(ts[0].codec, r).next;
      AllArrive(r', rest, AfterAll(first, k));
      BehindBoth(ReceiveAll(CodecsOf(rest), r').next, r', r, first, rest, k);
      ReceiveAllStep(ts, r);
    }
  }

  lemma NothingRead(r: Receiver, k: Caches)
    requires Before(r, [], k)
    ensures Behind(r, r, [], k)
  {
    assert Looking(0);
  }

  lemma ReceiveAllStep(ts: seq<Token>, r: Receiver)
    requires ts != [] && Receive(ts[0].codec, r).Received?
    requires Receive(ts[0].codec, r).value == Delivered(ts[0].codec, ts[0].value)
    requires var g := ReceiveAll(CodecsOf(ts[1..]), Receive(ts[0].codec, r).next);
             g.ReceivedAll? && g.values == DeliveredOf(ts[1..])
    ensures ReceiveAll(CodecsOf(ts), r) ==
            ReceivedAll(DeliveredOf(ts), ReceiveAll(CodecsOf(ts[1..]), Receive(ts[0].codec, r).next).next)
  {
    assert CodecsOf(ts)[1..] == CodecsOf(ts[1..]);
    assert DeliveredOf(ts) == [Delivered(ts[0].codec, ts[0].value)] + DeliveredOf(ts[1..]);
  }
}
