/**
 The variable-length code for one value.  The bits of a value are sent least significant
 first, in blocks; after each block one flag bit says whether more bits follow.  When all
 the bits still to send equal the last one sent, the flag is false and the reader repeats
 that bit.  A block is half as long as the one before it, but never shorter than two bits,
 and the fourth block takes everything that is left.
 */
module BitCodec {

  /** What a reader finds: bits and the position behind their code, or the end of the stream. */
  datatype Reading = Short | Read(bits: seq<bool>, end: nat)

  predicate AllEqual(s: seq<bool>, b: bool) {
    forall i :: 0 <= i < |s| ==> s[i] == b
  }

  function NextBlock(block: nat): nat {
    if block / 2 < 2 then 2 else block / 2
  }

  /** The length of the next block with `left` bits to go. */
  function BlockLength(total: nat, left: nat, block: nat, round: nat): nat {
    var b := if round == 4 then total else block;
    if b > left then left else b
  }

  /** The lengths of the blocks a value is cut into. */
  datatype Blocks = Last(n: nat) | Block(n: nat, next: Blocks) {
    function Total(): nat {
      if Last? then n else n + next.Total()
    }
    ghost predicate Positive() {
      n > 0 && (Block? ==> next.Positive())
    }
    function Count(): nat {
      if Last? then 1 else 1 + next.Count()
    }
  }

  /** The blocks of the last `left` bits of a value of `total` bits. */
  function BlocksOf(total: nat, left: nat, block: nat, round: nat): (b: Blocks)
    requires 0 < left <= total && 1 <= block && 1 <= round <= 4
    ensures b.Positive() && b.Total() == left && b.Count() <= 5 - round
    decreases left
  {
    var n := BlockLength(total, left, block, round);
    if n == left then Last(n) else Block(n, BlocksOf(total, left - n, NextBlock(block), round + 1))
  }

  /** The blocks of a value; a block size of 0 stands for one block. */
  function Cut(total: nat, blockSize: nat): (b: Blocks)
    requires total > 0
    ensures b.Positive() && b.Total() == total && b.Count() <= 4
  {
    BlocksOf(total, total, if blockSize == 0 then total else blockSize, 1)
  }

  function EncodeBlocks(blocks: Blocks, w: seq<bool>): seq<bool>
    requires blocks.Positive() && blocks.Total() == |w|
    decreases blocks
  {
    match blocks
    case Last(n) => w
    case Block(n, next) =>
      w[..n] + if AllEqual(w[n..], w[n - 1]) then [false] else [true] + EncodeBlocks(next, w[n..])
  }

  /** The code of a value with bits w. */
  function Encode(w: seq<bool>, blockSize: nat): seq<bool>
    requires w != []
  {
    EncodeBlocks(Cut(|w|, blockSize), w)
  }

  function Repeat(b: bool, n: nat): (s: seq<bool>)
    ensures |s| == n && AllEqual(s, b)
  {
    seq(n, _ => b)
  }

  /** Reads a value cut into the given blocks from position pos of the stream s. */
  function DecodeBlocks(blocks: Blocks, s: seq<bool>, pos: nat): (r: Reading)
    requires blocks.Positive()
    ensures r.Read? ==> |r.bits| == blocks.Total() && pos < r.end <= |s|
    decreases blocks
  {
    var end := pos + blocks.n;
    if end > |s| then Short
    else if blocks.Last? then Read(s[pos..end], end)
    else if end == |s| then Short
    else if !s[end] then Read(s[pos..end] + Repeat(s[end - 1], blocks.next.Total()), end + 1)
    else match DecodeBlocks(blocks.next, s, end + 1)
      case Short => Short
      case Read(more, stop) => Read(s[pos..end] + more, stop)
  }

  function Decode(s: seq<bool>, pos: nat, total: nat, blockSize: nat): (r: Reading)
    requires total > 0
    ensures r.Read? ==> |r.bits| == total && pos < r.end <= |s|
  {
    DecodeBlocks(Cut(total, blockSize), s, pos)
  }

  /** The stream s carries `code` at position pos. */
  ghost predicate At(s: seq<bool>, pos: nat, code: seq<bool>)
    decreases |code|
  {
    code == [] || (pos < |s| && s[pos] == code[0] && At(s, pos + 1, code[1..]))
  }

  lemma {:induction false} AtSplit(s: seq<bool>, pos: nat, a: seq<bool>, b: seq<bool>)
    ensures At(s, pos, a + b) <==> At(s, pos, a) && At(s, pos + |a|, b)
    decreases |a|
  {
    if a == [] {
      assert a + b == b;
    } else {
      assert (a + b)[1..] == a[1..] + b;
      AtSplit(s, pos + 1, a[1..], b);
    }
  }

  lemma {:induction false} AtSlice(s: seq<bool>, pos: nat, code: seq<bool>)
    requires pos <= |s|
    ensures At(s, pos, code) <==> pos + |code| <= |s| && s[pos..pos + |code|] == code
    decreases |code|
  {
    if code != [] && pos < |s| {
      AtSlice(s, pos + 1, code[1..]);
      if pos + |code| <= |s| {
        assert s[pos..pos + |code|] == [s[pos]] + s[pos + 1..pos + 1 + |code[1..]|];
      }
    }
  }

  lemma FilledUp(w: seq<bool>, n: nat)
    requires 0 < n <= |w| && AllEqual(w[n..], w[n - 1])
    ensures w[..n] + Repeat(w[n - 1], |w| - n) == w
  {
    assert forall i :: n <= i < |w| ==> w[i] == w[n..][i - n];
  }

  lemma ReadLast(n: nat, w: seq<bool>, s: seq<bool>, pos: nat)
    requires n == |w| > 0 && pos + n <= |s| && s[pos..pos + n] == w
    ensures DecodeBlocks(Last(n), s, pos) == Read(w, pos + n)
  {
  }

  lemma ReadRepeated(n: nat, next: Blocks, w: seq<bool>, s: seq<bool>, pos: nat)
    requires Block(n, next).Positive() && n + next.Total() == |w|
    requires pos + n < |s| && s[pos..pos + n] == w[..n] && !s[pos + n]
    requires AllEqual(w[n..], w[n - 1])
    ensures DecodeBlocks(Block(n, next), s, pos) == Read(w, pos + n + 1)
  {
    assert s[pos + n - 1] == s[pos..pos + n][n - 1];
    FilledUp(w, n);
  }

  lemma ReadFurther(n: nat, next: Blocks, w: seq<bool>, s: seq<bool>, pos: nat, end: nat)
    requires Block(n, next).Positive() && n + next.Total() == |w|
    requires pos + n < |s| && s[pos..pos + n] == w[..n] && s[pos + n]
    requires DecodeBlocks(next, s, pos + n + 1) == Read(w[n..], end)
    ensures DecodeBlocks(Block(n, next), s, pos) == Read(w, end)
  {
    assert w[..n] + w[n..] == w;
  }

  lemma {:induction false} DecodeEncodeBlocks(blocks: Blocks, w: seq<bool>, s: seq<bool>, pos: nat)
    requires blocks.Positive() && blocks.Total() == |w| && pos <= |s|
    requires At(s, pos, EncodeBlocks(blocks, w))
    ensures DecodeBlocks(blocks, s, pos) == Read(w, pos + |EncodeBlocks(blocks, w)|)
    decreases blocks, 0
  {
    match blocks
    case Last(n) =>
      AtSlice(s, pos, w);
      ReadLast(n, w, s, pos);
    case Block(n, next) =>
      var rest := w[n..];
      if AllEqual(rest, w[n - 1]) {
        AtSplit(s, pos, w[..n], [false]);
        AtSlice(s, pos, w[..n]);
        ReadRepeated(n, next, w, s, pos);
      } else {
        DecodeEncodeNext(n, next, w, s, pos);
      }
  }

  lemma {:induction false} DecodeEncodeNext(n: nat, next: Blocks, w: seq<bool>, s: seq<bool>, pos: nat)
    requires n > 0 && next.Positive() && n + next.Total() == |w| && pos <= |s|
    requires At(s, pos, w[..n] + ([true] + EncodeBlocks(next, w[n..])))
    ensures DecodeBlocks(Block(n, next), s, pos) == Read(w, pos + n + 1 + |EncodeBlocks(next, w[n..])|)
    decreases next, 1
  {
    var more := EncodeBlocks(next, w[n..]);
    AtSplit(s, pos, w[..n], [true] + more);
    AtSlice(s, pos, w[..n]);
    assert ([true] + more)[1..] == more;
    DecodeEncodeBlocks(next, w[n..], s, pos + n + 1);
    ReadFurther(n, next, w, s, pos, pos + n + 1 + |more|);
  }

  /** Whatever precedes a code in the stream and whatever follows it, reading at the code
      gives the value back and stops just behind the code. */
  lemma DecodeEncode(w: seq<bool>, blockSize: nat, s: seq<bool>, pos: nat)
    requires w != []
    requires pos <= |s| && At(s, pos, Encode(w, blockSize))
    ensures Decode(s, pos, |w|, blockSize) == Read(w, pos + |Encode(w, blockSize)|)
  {
    DecodeEncodeBlocks(Cut(|w|, blockSize), w, s, pos);
  }

  lemma {:induction false} EncodeBlocksLength(blocks: Blocks, w: seq<bool>)
    requires blocks.Positive() && blocks.Total() == |w|
    ensures 1 <= |EncodeBlocks(blocks, w)| < |w| + blocks.Count()
    decreases blocks
  {
    if blocks.Block? && !AllEqual(w[blocks.n..], w[blocks.n - 1]) {
      EncodeBlocksLength(blocks.next, w[blocks.n..]);
    }
  }

  /** A code is never empty and costs at most three bits more than the plain value. */
  lemma EncodeLength(w: seq<bool>, blockSize: nat)
    requires w != []
    ensures 1 <= |Encode(w, blockSize)| <= |w| + 3
  {
    EncodeBlocksLength(Cut(|w|, blockSize), w);
  }

  /** The first n bits, and behind them a flag: the bits left equal the last one, or more follows. */
  function Flagged(w: seq<bool>, n: nat, more: seq<bool>): seq<bool>
    requires 0 < n <= |w|
  {
    w[..n] + if AllEqual(w[n..], w[n - 1]) then [false] else [true] + more
  }

  /** The first code of a value that is longer than its block. */
  lemma EncodeFlagged(w: seq<bool>, n: nat, next: Blocks)
    requires n > 0 && next.Positive() && n + next.Total() == |w|
    ensures EncodeBlocks(Block(n, next), w) == Flagged(w, n, EncodeBlocks(next, w[n..]))
  {
  }

  /** Bits sent in a block of n and, if there are more, one more block. */
  function InTwoBlocks(w: seq<bool>, n: nat): seq<bool>
    requires n > 0
  {
    if |w| <= n then w else Flagged(w, n, w[n..])
  }

  function InThreeBlocks(w: seq<bool>, n: nat, next: nat): seq<bool>
    requires n > 0 && next > 0
  {
    if |w| <= n then w else Flagged(w, n, InTwoBlocks(w[n..], next))
  }

  /** The code of a value, in numbers: block sizes b, half of b and a quarter of b, the last two never
      below two, and the fourth block takes the rest. */
  lemma EncodeIs(w: seq<bool>, b: nat)
    requires w != []
    ensures Encode(w, b) ==
            if b == 0 || |w| <= b then w
            else Flagged(w, b, InThreeBlocks(w[b..], if b < 4 then 2 else b / 2, if b < 8 then 2 else b / 4))
  {
    if 0 < b < |w| {
      Halves(b);
      EncodeCut(w, b, if b < 4 then 2 else b / 2, if b < 8 then 2 else b / 4);
    }
  }

  lemma EncodeCut(w: seq<bool>, b: nat, half: nat, quarter: nat)
    requires 0 < b < |w| && half == NextBlock(b) && quarter == NextBlock(half)
    ensures half > 0 && quarter > 0
    ensures Encode(w, b) == Flagged(w, b, InThreeBlocks(w[b..], half, quarter))
  {
    EncodeFlagged(w, b, BlocksOf(|w|, |w| - b, half, 2));
    EncodeThree(|w|, w[b..], half, quarter);
  }

  lemma Halves(b: nat)
    ensures NextBlock(b) == (if b < 4 then 2 else b / 2) && NextBlock(NextBlock(b)) == (if b < 8 then 2 else b / 4)
  {
  }

  lemma EncodeThree(total: nat, w: seq<bool>, n: nat, next: nat)
    requires 0 < |w| < total && n > 0 && next == NextBlock(n)
    ensures EncodeBlocks(BlocksOf(total, |w|, n, 2), w) == InThreeBlocks(w, n, next)
  {
    if |w| > n {
      EncodeFlagged(w, n, BlocksOf(total, |w| - n, next, 3));
      EncodeTwo(total, w[n..], next);
    }
  }

  lemma EncodeTwo(total: nat, w: seq<bool>, n: nat)
    requires 0 < |w| < total && n > 0
    ensures EncodeBlocks(BlocksOf(total, |w|, n, 3), w) == InTwoBlocks(w, n)
  {
    if |w| > n {
      EncodeFlagged(w, n, BlocksOf(total, |w| - n, NextBlock(n), 4));
    }
  }

  /** The number of zeros before the next one bit: the code of a cache position. */
  function Unary(n: nat): (s: seq<bool>)
    ensures |s| == n + 1
  {
    Repeat(false, n) + [true]
  }

  datatype Zeros = NoOne | Zeros(n: nat, end: nat)

  /** Counts zeros from position pos up to a one bit. */
  function CountZeros(s: seq<bool>, pos: nat): (r: Zeros)
    ensures r.Zeros? ==> pos < r.end <= |s|
    decreases |s| - pos
  {
    if pos >= |s| then NoOne
    else if s[pos] then Zeros(0, pos + 1)
    else match CountZeros(s, pos + 1)
      case NoOne => NoOne
      case Zeros(n, end) => Zeros(n + 1, end)
  }

  lemma {:induction false} CountZerosUnary(n: nat, s: seq<bool>, pos: nat)
    requires At(s, pos, Unary(n))
    ensures CountZeros(s, pos) == Zeros(n, pos + n + 1)
    decreases n
  {
    if n > 0 {
      assert Unary(n)[1..] == Unary(n - 1);
      CountZerosUnary(n - 1, s, pos + 1);
    }
  }

  /** The zeros that fill the last byte of a frame hold no further code. */
  lemma {:induction false} CountZerosPadding(s: seq<bool>, pos: nat)
    requires pos <= |s| && AllEqual(s[pos..], false)
    ensures CountZeros(s, pos) == NoOne
    decreases |s| - pos
  {
    if pos < |s| {
      assert s[pos] == s[pos..][0];
      assert s[pos + 1..] == s[pos..][1..];
      CountZerosPadding(s, pos + 1);
    }
  }
}
