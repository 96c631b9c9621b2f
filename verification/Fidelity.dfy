/**
 Which requests cross the link unharmed: exactly when the request that is written out is, byte for
 byte, the one that the client sent.
 */
module Fidelity {
  import opened Words
  import opened Buffers
  import opened Messages
  import opened Rebuilding
  import opened Exchange
  import opened Arrivals
  import opened Coherence
  import opened Splits
  import opened Channel
  import opened Runs

  /** What the memory that a request is written to holds at byte i. */
  function Found(scratch: Bytes, i: nat): Byte {
    if i < |scratch| then scratch[i] else 0
  }

  /** The values behind the identity. */
  function ValuesOf(s: Store, m: Bytes): (vs: seq<Word>)
    requires Good(s, m)
    ensures |vs| == |TailFor(s, m).codecs|
  {
    GoodFacts(s, m);
    TailValues(s.c, s.bigEndian, m)
  }

  /** Every value of a request has room in its code; its unused bytes happen to stand in the write
      buffer; its padding is clear, or happens to stand there too if it is not cleared. */
  ghost predicate Unharmed(s: Store, m: Bytes, saved: bool, scratch: Bytes)
    requires Good(s, m)
  {
    && HaveRoom(s.c.codecs, FieldsOf(s, m))
    && HaveRoom(TailFor(s, m).codecs, ValuesOf(s, m))
    && UnusedFound(s, m, scratch)
    && PaddingFound(s, m, saved, scratch)
  }

  ghost predicate UnusedFound(s: Store, m: Bytes, scratch: Bytes)
    requires Good(s, m)
  {
    forall i :: 0 <= i < s.c.identitySize && Unused(s.c.layout, i) ==> m[i] == Found(scratch, i)
  }

  ghost predicate PaddingFound(s: Store, m: Bytes, saved: bool, scratch: Bytes)
    requires Good(s, m)
  {
    forall i :: s.c.identitySize + TailFor(s, m).Size() <= i < |m| ==> m[i] == if saved then 0 else Found(scratch, i)
  }

  lemma SizeOfBody(s: Store, m: Bytes)
    requires Good(s, m)
    ensures |BodyOf(s, m)| == TailFor(s, m).Size() <= |m| - s.c.identitySize
  {
    GoodFacts(s, m);
  }

  lemma DataExactly(s: Store, m: Bytes, saved: bool, scratch: Bytes)
    requires Good(s, m)
    ensures WrittenData(s, m, saved, scratch) == m[s.c.identitySize..] <==>
            HaveRoom(TailFor(s, m).codecs, ValuesOf(s, m)) && PaddingFound(s, m, saved, scratch)
  {
    var n, size, d := s.c.identitySize, TailFor(s, m).Size(), WrittenData(s, m, saved, scratch);
    SizeOfBody(s, m);
    BodyOfExactly(s, m);
    InTwo(d, m[n..], size);
    SliceOfRest(m, n, size);
    assert d[..size] == BodyOf(s, m);
    PaddingExactly(s, m, saved, scratch);
  }

  lemma BodyOfExactly(s: Store, m: Bytes)
    requires Good(s, m)
    ensures var n, size := s.c.identitySize, TailFor(s, m).Size();
            n + size <= |m| && (BodyOf(s, m) == m[n..n + size] <==> HaveRoom(TailFor(s, m).codecs, ValuesOf(s, m)))
  {
    SizeOfBody(s, m);
    GoodRequest(s, m);
    BodyExactly(s.c, s.bigEndian, m);
  }

  lemma InTwo(a: Bytes, b: Bytes, n: nat)
    requires |a| == |b| && n <= |a|
    ensures a == b <==> a[..n] == b[..n] && a[n..] == b[n..]
  {
    if a[..n] == b[..n] && a[n..] == b[n..] {
      assert a == a[..n] + a[n..] && b == b[..n] + b[n..];
    }
  }

  lemma PaddingExactly(s: Store, m: Bytes, saved: bool, scratch: Bytes)
    requires Good(s, m)
    ensures var n, size := s.c.identitySize, TailFor(s, m).Size();
            size <= |m| - n &&
            (WrittenData(s, m, saved, scratch)[size..] == m[n..][size..] <==> PaddingFound(s, m, saved, scratch))
  {
    var n, size := s.c.identitySize, TailFor(s, m).Size();
    SizeOfBody(s, m);
    var a, b := WrittenData(s, m, saved, scratch)[size..], m[n..][size..];
    forall j | 0 <= j < |b|
      ensures a[j] == if saved then 0 else Found(scratch, n + size + j)
      ensures b[j] == m[n + size + j]
    {
    }
    if a == b {
      forall i | n + size <= i < |m| ensures m[i] == if saved then 0 else Found(scratch, i) {
        assert b[i - n - size] == a[i - n - size];
      }
    }
  }

  lemma IdentityExactly(s: Store, m: Bytes, scratch: Bytes)
    requires Good(s, m)
    ensures Writing(s, scratch, ArrivedIdentity(s, m), DataOf(s, m))[..s.c.identitySize] == m[..s.c.identitySize] <==>
            HaveRoom(s.c.codecs, FieldsOf(s, m)) && UnusedFound(s, m, scratch)
  {
    var n := s.c.identitySize;
    var blank := Blank(scratch, 0, n);
    GoodFacts(s, m);
    WholeExactly(s.c.codecs, FieldsOf(s, m));
    WrittenHead(s, m, scratch);
    assert HeadFrom(s.c, s.bigEndian, m, blank) == m[..n] <==>
           DeliverAll(s.c.codecs, FieldsOf(s, m)) == FieldsOf(s, m) && SameUnused(s.c, m, blank) by {
      HeadExactly(s.c, s.bigEndian, m, blank);
    }
    assert forall i :: 0 <= i < n ==> blank[i] == Found(scratch, i);
  }

  lemma WrittenHead(s: Store, m: Bytes, scratch: Bytes)
    requires Good(s, m)
    ensures s.c.SoundLayout()
    ensures Writing(s, scratch, ArrivedIdentity(s, m), DataOf(s, m))[..s.c.identitySize] ==
            HeadFrom(s.c, s.bigEndian, m, Blank(scratch, 0, s.c.identitySize))
  {
    StoreFacts(s);
    RequestHead(s.c, s.bigEndian, m, Blank(scratch, 0, s.c.identitySize), DataOf(s, m));
  }

  /** What is written out for a request is the request exactly if it is unharmed. */
  lemma WritingExactly(s: Store, m: Bytes, saved: bool, scratch: Bytes)
    requires Good(s, m)
    ensures Writing(s, scratch, ArrivedIdentity(s, m), WrittenData(s, m, saved, scratch)) == m <==>
            Unharmed(s, m, saved, scratch)
  {
    var n, d := s.c.identitySize, WrittenData(s, m, saved, scratch);
    var out := Writing(s, scratch, ArrivedIdentity(s, m), d);
    InTwo(out, m, n);
    IdentityExactly(s, m, scratch);
    WritingHead(s, scratch, ArrivedIdentity(s, m), d, DataOf(s, m));
    DataExactly(s, m, saved, scratch);
  }

  /** A request that was read without a split is the request of the client exactly if it is
      unharmed; its padding is cleared unless it was discarded. */
  lemma UnharmedExactly(g: Decoding, s: Store, a: Slots, m: Bytes, d: Decision, take: bool, scratch: Bytes)
    requires Good(s, m) && CanDecide(s, a, m, d) && Follows(g, s, a, m, d, take, scratch) && !g.taken
    ensures g.out == m <==> Unharmed(s, m, !d.Discard?, scratch)
  {
    WritingExactly(s, m, !d.Discard?, scratch);
  }

  /** A request that was put together from packets is the request of the client exactly if it is
      unharmed, where `scratch` is what the write buffer held when its identity was read. */
  lemma CommittedExactly(s: Store, o: Outgoing, i: Incoming, scratch: Bytes)
    requires Partners(s, o, i) && Complete(o) && AllReceived(i) && HeadFor(s, o.request, i.head, scratch)
    ensures Expanded(s, i) == Some(o.request) <==> Unharmed(s, o.request, true, scratch)
  {
    ExpandedIs(s, o, i, scratch);
    SavedData(s, o.request, scratch);
    WritingExactly(s, o.request, true, scratch);
  }
}
