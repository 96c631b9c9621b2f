/**
 What a checksum knows about a request and what a hit sends besides.  A checksum is represented
 by the bytes it is computed from, so two are equal exactly when those bytes are.
 */
module Fingerprints {
  import opened Words
  import opened Buffers
  import opened ClientCache
  import opened Tokens
  import opened LockStep
  import opened Streams
  import opened Messages

  // ----- Checksums -----

  /** The bytes of the given fields, one after the other. */
  function Appended(m: Bytes, fields: seq<Field>): (s: Bytes)
    requires forall i :: 0 <= i < |fields| ==> fields[i].End() <= |m|
    ensures |s| == Widths(fields)
  {
    if fields == [] then []
    else
      var f := fields[0];
      assert f.offset <= f.End() <= |m|;
      m[f.offset..f.End()] + Appended(m, fields[1..])
  }

  function Widths(fields: seq<Field>): nat {
    if fields == [] then 0 else fields[0].width + Widths(fields[1..])
  }

  /** identityChecksum and dataChecksum of the normalised request. */
  function Checksum(c: MessageClass, bigEndian: bool, m: Bytes): Bytes
    requires c.Covered() && WellFormed(c, bigEndian, m)
  {
    Appended(m, c.fingerprint) + Data(c, bigEndian, m)
  }

  lemma {:induction false} AppendedInjective(m: Bytes, n: Bytes, fields: seq<Field>, i: nat)
    requires forall i :: 0 <= i < |fields| ==> fields[i].End() <= |m| && fields[i].End() <= |n|
    requires Appended(m, fields) == Appended(n, fields) && i < |fields|
    ensures m[fields[i].offset..fields[i].End()] == n[fields[i].offset..fields[i].End()]
  {
    var f := fields[0];
    var s, t := Appended(m, fields), Appended(n, fields);
    assert m[f.offset..f.End()] == s[..f.width] && n[f.offset..f.End()] == t[..f.width];
    assert Appended(m, fields[1..]) == s[f.width..] && Appended(n, fields[1..]) == t[f.width..];
    if i > 0 {
      AppendedInjective(m, n, fields[1..], i - 1);
    }
  }

  /** Equal checksums mean equal data parts and equal bytes in every field of the fingerprint. */
  lemma ChecksumDetermines(c: MessageClass, bigEndian: bool, m: Bytes, n: Bytes)
    requires c.Covered() && WellFormed(c, bigEndian, m) && WellFormed(c, bigEndian, n)
    requires Checksum(c, bigEndian, m) == Checksum(c, bigEndian, n)
    ensures |m| == |n| && Data(c, bigEndian, m) == Data(c, bigEndian, n)
    ensures forall i :: 0 <= i < |c.fingerprint| ==>
      var f := c.fingerprint[i];
      f.End() <= |m| && m[f.offset..f.End()] == n[f.offset..f.End()]
  {
    SameParts(Appended(m, c.fingerprint), Data(c, bigEndian, m), Appended(n, c.fingerprint), Data(c, bigEndian, n));
    forall i | 0 <= i < |c.fingerprint|
      ensures var f := c.fingerprint[i]; m[f.offset..f.End()] == n[f.offset..f.End()]
    {
      AppendedInjective(m, n, c.fingerprint, i);
    }
  }

  lemma InsideSlice(m: Bytes, n: Bytes, f: Field, g: Field)
    requires Inside(f, g) && g.End() <= |m| && g.End() <= |n|
    requires m[g.offset..g.End()] == n[g.offset..g.End()]
    ensures m[f.offset..f.End()] == n[f.offset..f.End()]
  {
    assert forall i :: f.offset <= i < f.End() ==>
      m[i] == m[g.offset..g.End()][i - g.offset] && n[i] == n[g.offset..g.End()][i - g.offset];
  }

  /** With equal checksums, the fields that a hit does not send again are equal. */
  lemma SameFields(c: MessageClass, bigEndian: bool, m: Bytes, n: Bytes, j: nat)
    requires c.Covered() && WellFormed(c, bigEndian, m) && WellFormed(c, bigEndian, n)
    requires Checksum(c, bigEndian, m) == Checksum(c, bigEndian, n)
    requires j < |c.layout| && !c.SentAgain(j)
    ensures Fields(c, bigEndian, m)[j] == Fields(c, bigEndian, n)[j]
  {
    ChecksumDetermines(c, bigEndian, m, n);
    if c.layout[j] != LENGTH_FIELD {
      var i :| 0 <= i < |c.fingerprint| && Inside(c.layout[j], c.fingerprint[i]);
      InsideSlice(m, n, c.layout[j], c.fingerprint[i]);
    }
  }

  // ----- Hits -----

  /** What is sent for one field, given the value in the cached request and the new one. */
  function UpdateToken(u: Update, cached: Word, value: Word): Token {
    Token(u.codec, if u.relative then LowWord(Minus(value, cached), COORDINATE_BITS) else value)
  }

  /** The tokens of updateIdentity at the encoding side. */
  function UpdateTokens(us: seq<Update>, cached: seq<Word>, identity: seq<Word>): (ts: seq<Token>)
    requires |cached| == |identity| && forall i :: 0 <= i < |us| ==> us[i].index < |cached|
    ensures |ts| == |us| && forall i :: 0 <= i < |us| ==> ts[i].codec == us[i].codec
  {
    if us == [] then []
    else
      var j := us[0].index;
      [UpdateToken(us[0], cached[j], identity[j])] + UpdateTokens(us[1..], cached[j := identity[j]], identity)
  }

  /** The cached identity that updateIdentity leaves at the encoding side. */
  function Refreshed(us: seq<Update>, cached: seq<Word>, identity: seq<Word>): (vs: seq<Word>)
    requires |cached| == |identity| && forall i :: 0 <= i < |us| ==> us[i].index < |cached|
    ensures |vs| == |cached|
    decreases |us|
  {
    if us == [] then cached
    else Refreshed(us[1..], cached[us[0].index := identity[us[0].index]], identity)
  }

  function UpdateCodecs(us: seq<Update>): (cs: seq<ValidCodec>)
    ensures |cs| == |us| && forall i :: 0 <= i < |us| ==> cs[i] == us[i].codec
  {
    seq(|us|, i requires 0 <= i < |us| => us[i].codec)
  }

  /** The field that the decoding side computes from what was received. */
  function Restored(u: Update, held: Word, value: Word): Word {
    if u.relative then LowWord(Plus(held, value), COORDINATE_BITS) else value
  }

  /** The identity that updateIdentity leaves at the decoding side. */
  function Applied(us: seq<Update>, held: seq<Word>, values: seq<Word>): (vs: seq<Word>)
    requires |values| == |us| && forall i :: 0 <= i < |us| ==> us[i].index < |held|
    ensures |vs| == |held|
    decreases |us|
  {
    if us == [] then held
    else Applied(us[1..], held[us[0].index := Restored(us[0], held[us[0].index], values[0])], values[1..])
  }

  /** One field: the decoding side restores what it would have been sent in full. */
  lemma RestoredField(u: Update, full: ValidCodec, cached: Word, value: Word)
    requires Fits(u, full)
    ensures var t := UpdateToken(u, cached, value);
            Restored(u, Delivered(full, cached), Delivered(t.codec, t.value)) == Delivered(full, value)
  {
    if u.relative {
      var held, t := Delivered(full, cached), LowWord(Minus(value, cached), COORDINATE_BITS);
      LowTwice(Minus(value, cached), COORDINATE_BITS);
      Recovered(value, cached, held, t, COORDINATE_BITS);
    }
  }

  /** The decoding side, which holds what it was sent of the cached identity, restores what it
      would have been sent of the new one. */
  lemma {:induction false} AppliedFollows(
      us: seq<Update>, codecs: seq<ValidCodec>, cached: seq<Word>, identity: seq<Word>)
    requires |codecs| == |cached| == |identity|
    requires forall i :: 0 <= i < |us| ==> us[i].index < |cached| && Fits(us[i], codecs[us[i].index])
    ensures Applied(us, DeliverAll(codecs, cached), DeliveredOf(UpdateTokens(us, cached, identity))) ==
            DeliverAll(codecs, Refreshed(us, cached, identity))
    decreases |us|
  {
    if us != [] {
      var u, j := us[0], us[0].index;
      var next := cached[j := identity[j]];
      var held, ts := DeliverAll(codecs, cached), UpdateTokens(us, cached, identity);
      RestoredField(u, codecs[j], cached[j], identity[j]);
      assert held[j := Restored(u, held[j], DeliveredOf(ts)[0])] == DeliverAll(codecs, next);
      assert DeliveredOf(ts)[1..] == DeliveredOf(UpdateTokens(us[1..], next, identity));
      AppliedFollows(us[1..], codecs, next, identity);
    }
  }

  lemma {:induction false} RefreshedAt(us: seq<Update>, cached: seq<Word>, identity: seq<Word>, j: nat)
    requires |cached| == |identity| && forall i :: 0 <= i < |us| ==> us[i].index < |cached|
    requires j < |cached|
    requires cached[j] == identity[j] || exists i :: 0 <= i < |us| && us[i].index == j
    ensures Refreshed(us, cached, identity)[j] == identity[j]
    decreases |us|
  {
    if us != [] {
      var next := cached[us[0].index := identity[us[0].index]];
      if next[j] != identity[j] {
        var i :| 0 <= i < |us| && us[i].index == j;
        assert us[1..][i - 1] == us[i];
      }
      RefreshedAt(us[1..], next, identity, j);
    }
  }

  /** A request found in the cache by its checksum: the encoding side is left with the identity
      of the new request, the decoding side with what it would have been sent of it in full,
      and the data part is the one that is cached. */
  lemma HitRestores(c: MessageClass, bigEndian: bool, cached: Bytes, m: Bytes)
    requires c.Covered() && c.SoundUpdates() && WellFormed(c, bigEndian, cached) && WellFormed(c, bigEndian, m)
    requires Checksum(c, bigEndian, cached) == Checksum(c, bigEndian, m)
    ensures Refreshed(c.updates, Parsed(c, bigEndian, cached), Parsed(c, bigEndian, m)) == Parsed(c, bigEndian, m)
    ensures var ts := UpdateTokens(c.updates, Parsed(c, bigEndian, cached), Parsed(c, bigEndian, m));
            Applied(c.updates, DeliveredIdentity(c, bigEndian, cached), DeliveredOf(ts)) ==
            DeliveredIdentity(c, bigEndian, m)
    ensures |cached| == |m| && Data(c, bigEndian, cached) == Data(c, bigEndian, m)
  {
    ChecksumDetermines(c, bigEndian, cached, m);
    RefreshedIsParsed(c, bigEndian, cached, m);
    ParsedDelivers(c, bigEndian, cached);
    ParsedDelivers(c, bigEndian, m);
    AppliedFollows(c.updates, c.codecs, Parsed(c, bigEndian, cached), Parsed(c, bigEndian, m));
  }

  lemma RefreshedIsParsed(c: MessageClass, bigEndian: bool, cached: Bytes, m: Bytes)
    requires c.Covered() && c.SoundUpdates() && WellFormed(c, bigEndian, cached) && WellFormed(c, bigEndian, m)
    requires |cached| == |m| && Checksum(c, bigEndian, cached) == Checksum(c, bigEndian, m)
    ensures Refreshed(c.updates, Parsed(c, bigEndian, cached), Parsed(c, bigEndian, m)) == Parsed(c, bigEndian, m)
  {
    var a, b := Parsed(c, bigEndian, cached), Parsed(c, bigEndian, m);
    forall j | 0 <= j < |c.layout| ensures Refreshed(c.updates, a, b)[j] == b[j] {
      if !c.SentAgain(j) {
        SameFields(c, bigEndian, cached, m, j);
      }
      RefreshedAt(c.updates, a, b, j);
    }
  }
}
