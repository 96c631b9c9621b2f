/**
 Unpacking images: UnpackBitmap of nxcomp/src/Bitmap.cpp puts three colour bytes into each
 pixel of four, UnpackAlpha of nxcomp/src/Alpha.cpp fills in the fourth.
 */
module Pixels {
  import opened Words
  import opened Buffers

  /** Where the colours of a pixel start, and where its fourth byte lies. */
  function ColourOffset(lsbFirst: bool): nat {
    if lsbFirst then 0 else 1
  }

  function AlphaOffset(bigEndian: bool): nat {
    if bigEndian then 0 else 3
  }

  /** The pixels of dst with the colours of src. */
  ghost predicate Coloured(src: Bytes, was: Bytes, dst: Bytes, lsbFirst: bool, pixels: nat)
    requires 3 * pixels <= |src| && 4 * pixels <= |dst| == |was|
  {
    var c, pad := if lsbFirst then 0 else 1, if lsbFirst then 3 else 0;
    forall p :: 0 <= p < pixels ==>
      dst[4 * p + c] == src[3 * p] && dst[4 * p + c + 1] == src[3 * p + 1] && dst[4 * p + c + 2] == src[3 * p + 2] &&
      dst[4 * p + pad] == was[4 * p + pad]
  }

  /** UnpackBitmap: false for a size mismatch.  The product of width and height is taken to fit
      an int, as the callers' images do. */
  method UnpackBitmap(lsbFirst: bool, src: Bytes, bpp: int, width: nat, height: nat, dst: array<Byte>) returns (ok: bool)
    modifies dst
    ensures ok <==> if bpp != 32 then |src| == dst.Length
                    else |src| == width * height * 3 && dst.Length == width * height * 4
    ensures !ok ==> dst[..] == old(dst[..])
    ensures ok && bpp != 32 ==> dst[..] == src
    ensures ok && bpp == 32 ==> Coloured(src, old(dst[..]), dst[..], lsbFirst, width * height)
  {
    if bpp != 32 {
      if |src| != dst.Length {
        return false;
      }
      var i := 0;
      while i < |src|
        invariant i <= |src| && dst[..i] == src[..i]
      {
        dst[i] := src[i];
        assert src[..i + 1] == src[..i] + [src[i]] && dst[..i + 1] == dst[..i] + [dst[i]];
        i := i + 1;
      }
      assert dst[..i] == dst[..] && src[..i] == src;
      return true;
    }
    var pixels := width * height;
    if |src| != pixels * 3 || dst.Length != pixels * 4 {
      return false;
    }
    Expand(lsbFirst, src, pixels, dst);
    return true;
  }

  /** The loops that copy three bytes and step over the fourth. */
  method Expand(lsbFirst: bool, src: Bytes, pixels: nat, dst: array<Byte>)
    requires |src| == pixels * 3 && dst.Length == pixels * 4
    modifies dst
    ensures Coloured(src, old(dst[..]), dst[..], lsbFirst, pixels)
  {
    var nextSrc, nextDst := 0, 0;
    ghost var p, was := 0, dst[..];
    while nextSrc < |src|
      invariant p <= pixels && nextSrc == 3 * p && nextDst == 4 * p
      invariant Coloured(src, was, dst[..], lsbFirst, p)
      invariant forall i :: 4 * p <= i < dst.Length ==> dst[i] == was[i]
    {
      if !lsbFirst {
        nextDst := nextDst + 1;
      }
      CopyColours(dst, nextDst, src, nextSrc);
      nextSrc, nextDst := nextSrc + 3, nextDst + 3;
      if lsbFirst {
        nextDst := nextDst + 1;
      }
      p := p + 1;
    }
  }

  method CopyColours(dst: array<Byte>, to: nat, src: Bytes, from: nat)
    requires to + 3 <= dst.Length && from + 3 <= |src|
    modifies dst
    ensures dst[to] == src[from] && dst[to + 1] == src[from + 1] && dst[to + 2] == src[from + 2]
    ensures forall i :: 0 <= i < dst.Length && !(to <= i < to + 3) ==> dst[i] == old(dst[i])
  {
    dst[to] := src[from];
    dst[to + 1] := src[from + 1];
    dst[to + 2] := src[from + 2];
  }

  /** UnpackAlpha: nothing is done unless there is a value for each pixel. */
  method UnpackAlpha(alpha: Bytes, dst: array<Byte>, bigEndian: bool) returns (applied: bool)
    modifies dst
    ensures applied <==> dst.Length / 4 == |alpha|
    ensures !applied ==> dst[..] == old(dst[..])
    ensures applied ==> WithAlpha(alpha, old(dst[..]), dst[..], bigEndian)
  {
    var count := dst.Length / 4;
    if count != |alpha| {
      return false;
    }
    var shift, i := AlphaOffset(bigEndian), 0;
    ghost var was := dst[..];
    while i < count
      invariant i <= count
      invariant forall p :: 0 <= p < i ==> dst[4 * p + shift] == alpha[p]
      invariant forall j :: 0 <= j < dst.Length && (j % 4 != shift || j >= 4 * i) ==> dst[j] == was[j]
    {
      dst[4 * i + shift] := alpha[i];
      i := i + 1;
    }
    return true;
  }

  /** The fourth bytes are those of alpha, all others are as they were. */
  ghost predicate WithAlpha(alpha: Bytes, was: Bytes, dst: Bytes, bigEndian: bool)
    requires |dst| / 4 == |alpha| && |was| == |dst|
  {
    var shift := if bigEndian then 0 else 3;
    && (forall p :: 0 <= p < |alpha| ==> dst[4 * p + shift] == alpha[p])
    && (forall j :: 0 <= j < |dst| && (j % 4 != shift || j >= 4 * |alpha|) ==> dst[j] == was[j])
  }

  /** The byte of the packed sources that belongs at index j of the image. */
  function PixelByte(src: Bytes, alpha: Bytes, lsbFirst: bool, j: nat): Byte
    requires j / 4 < |alpha| && 3 * |alpha| == |src|
  {
    var p, k := j / 4, j % 4;
    if k == AlphaOffset(!lsbFirst) then alpha[p] else src[3 * p + k - ColourOffset(lsbFirst)]
  }

  /** With the same byte order the two fill the image: every byte comes from where it should, and
      nothing is left of what the memory held before. */
  lemma ImageFilled(src: Bytes, alpha: Bytes, was: Bytes, coloured: Bytes, dst: Bytes, lsbFirst: bool)
    requires |src| == 3 * |alpha| && |dst| == |coloured| == |was| == 4 * |alpha|
    requires Coloured(src, was, coloured, lsbFirst, |alpha|)
    requires WithAlpha(alpha, coloured, dst, !lsbFirst)
    ensures forall j :: 0 <= j < |dst| ==> dst[j] == PixelByte(src, alpha, lsbFirst, j)
  {
    forall j | 0 <= j < |dst| ensures dst[j] == PixelByte(src, alpha, lsbFirst, j) {
      var p, k := j / 4, j % 4;
      assert j == 4 * p + k;
      if k == AlphaOffset(!lsbFirst) {
        assert dst[4 * p + AlphaOffset(!lsbFirst)] == alpha[p];
      } else {
        ColouredByte(src, was, coloured, lsbFirst, |alpha|, p, k - ColourOffset(lsbFirst));
      }
    }
  }

  lemma ColouredByte(src: Bytes, was: Bytes, dst: Bytes, lsbFirst: bool, pixels: nat, p: nat, k: nat)
    requires 3 * pixels <= |src| && 4 * pixels <= |dst| == |was| && Coloured(src, was, dst, lsbFirst, pixels)
    requires p < pixels && k < 3
    ensures dst[4 * p + ColourOffset(lsbFirst) + k] == src[3 * p + k]
  {
    assert dst[4 * p + ColourOffset(lsbFirst)] == src[3 * p];
  }

  /** With another byte order a colour is overwritten. */
  lemma OtherOrderLosesColour(src: Bytes, alpha: Bytes, was: Bytes, coloured: Bytes, dst: Bytes, lsbFirst: bool)
    requires |src| == 3 * |alpha| && |dst| == |coloured| == |was| == 4 * |alpha| && |alpha| > 0
    requires Coloured(src, was, coloured, lsbFirst, |alpha|)
    requires WithAlpha(alpha, coloured, dst, lsbFirst)
    ensures dst[if lsbFirst then 0 else 3] == alpha[0] && dst[AlphaOffset(!lsbFirst)] == was[AlphaOffset(!lsbFirst)]
  {
    assert dst[4 * 0 + AlphaOffset(lsbFirst)] == alpha[0];
    var pad := if lsbFirst then 3 else 0;
    assert coloured[4 * 0 + ColourOffset(lsbFirst)] == src[3 * 0] && coloured[4 * 0 + pad] == was[4 * 0 + pad];
  }
}
