/** The cache of integer values: nxcomp/src/IntCache.cpp and IntCache.h. */
module IntCache {
  import opened Words
  import opened SelfOrganising
  import opened Shifting

  /** The fields of a cache.  A size of less than three would let an insertion run off the
      buffer; the caches that are used have room for four entries or more. */
  datatype IntState = IntState(size: nat, entries: seq<Word>, lastDiff: Word, lastValue: Word, predicted: nat) {
    ghost predicate Valid() {
      3 <= size && |entries| <= size
    }
  }

  type Ints = s: IntState | s.Valid() witness IntState(3, [], 0, 0, 0)

  function Fresh(size: nat): Ints
    requires 3 <= size
  {
    IntState(size, [], 0, 0, 0)
  }

  /** The highest index below n at which the bits of w change, or 0. */
  function LastChange(w: seq<bool>, n: nat): (j: nat)
    requires n <= |w|
    ensures j == 0 || (j < n && w[j] != w[j - 1])
    ensures forall i :: j < i < n ==> w[i] == w[i - 1]
  {
    if n <= 1 then 0 else if w[n - 1] != w[n - 2] then n - 1 else LastChange(w, n - 1)
  }

  /** The block size predicted from a difference: it reaches up to the last change of bit. */
  function Prediction(diff: Word, bits: nat): (p: nat)
    ensures 2 <= p
  {
    var p := LastChange(BitsOf(diff, bits), bits) + 1;
    if p < 2 then 2 else p
  }

  /** The block size used for a request of `blockSize`. */
  function BlockSize(s: Ints, blockSize: nat): nat {
    if blockSize > 0 then if s.predicted < blockSize then s.predicted else blockSize else s.predicted
  }

  /** What a miss records besides the entry. */
  function Record(s: Ints, entries: seq<Word>, value: Word, diff: Word, bits: nat): IntState {
    s.(entries := entries, lastDiff := diff, lastValue := value,
       predicted := if s.lastDiff == diff then s.predicted else Prediction(diff, bits))
  }

  /** The difference sent for a value that is not in the cache. */
  function DiffOf(s: Ints, value: Word, bits: nat): Word
    requires bits <= 32
  {
    LowIsWord(Minus(value, s.lastValue), bits);
    Low(Minus(value, s.lastValue), bits)
  }

  lemma LowIsWord(v: int, bits: nat)
    requires bits <= 32
    ensures Low(v, bits) < 0x1_0000_0000
  {
    Pow2Constants();
    Pow2Add(32 - bits, bits);
    MulMonotone(Pow2(bits), 1, Pow2(32 - bits));
    assert Pow2(bits) * Pow2(32 - bits) == Pow2(32 - bits) * Pow2(bits);
  }

  /** The encoding side after a lookup. */
  function LookupState(s: Ints, value: Word, bits: nat): Ints
    requires bits <= 32
  {
    if value in s.entries then s.(entries := Promote(s.entries, Find(s.entries, value)))
    else
      LowIsWord(value, bits);
      Record(s, Miss(s.entries, value, s.size, BehindTwo), Low(value, bits), DiffOf(s, value, bits), bits)
  }

  /** The value that the decoding side computes from a difference. */
  function InsertedValue(s: Ints, diff: Word, bits: nat): Word
    requires bits <= 32
  {
    LowIsWord(Plus(s.lastValue, diff), bits);
    Low(Plus(s.lastValue, diff), bits)
  }

  /** The decoding side after a missed value. */
  function InsertState(s: Ints, diff: Word, bits: nat): Ints
    requires bits <= 32
  {
    var value := InsertedValue(s, diff, bits);
    Record(s, Miss(s.entries, value, s.size, BehindTwo), value, diff, bits)
  }

  /** The decoding side after a hit. */
  function GetState(s: Ints, index: nat): Ints
    requires index < |s.entries|
  {
    s.(entries := Promote(s.entries, index))
  }

  /** Either side after a value known to both has been put in front. */
  function PushState(s: Ints, value: Word, bits: nat): Ints
    requires bits <= 32
  {
    LowIsWord(value, bits);
    s.(entries := InsertAt(s.entries, Low(value, bits), s.size, 0))
  }

  /** A missed value of at most `bits` bits: the decoding side computes the value itself from
      the difference and ends in the state of the encoding side. */
  lemma InsertFollowsLookup(s: Ints, value: Word, bits: nat)
    requires bits <= 32 && value < Pow2(bits) && value !in s.entries
    ensures InsertedValue(s, DiffOf(s, value, bits), bits) == value
    ensures InsertState(s, DiffOf(s, value, bits), bits) == LookupState(s, value, bits)
  {
    var diff := DiffOf(s, value, bits);
    LowOfWrapped(value - s.lastValue, bits);
    LowOfWrapped(s.lastValue + diff, bits);
    LowOfDifference(value, s.lastValue, s.lastValue, bits);
    LowIdentity(value, bits);
  }

  /** What a cache knows after a miss: the value, its difference from the last one that was missed, and
      a new block size unless that was the difference before. */
  lemma MissRecords(s: Ints, value: Word, bits: nat)
    requires bits <= 32 && value !in s.entries
    ensures var r, diff := LookupState(s, value, bits), (value - s.lastValue) % Pow2(bits);
            r.lastValue == value % Pow2(bits) && r.lastDiff == diff &&
            r.predicted == (if diff == s.lastDiff then s.predicted else Prediction(r.lastDiff, bits)) &&
            r.size == s.size && value in r.entries
  {
    LowOfWrapped(value - s.lastValue, bits);
  }

  class IntCache {
    const size: nat
    var length: nat
    const buffer: array<Word>
    var lastDiff: Word
    var lastValueInserted: Word
    var predictedBlockSize: nat

    ghost predicate Valid()
      reads this
    {
      3 <= size == buffer.Length && length <= size
    }

    ghost function State(): Ints
      requires Valid()
      reads this, buffer
    {
      IntState(size, buffer[..length], lastDiff, lastValueInserted, predictedBlockSize)
    }

    constructor (n: nat)
      requires 3 <= n
      ensures Valid() && fresh(buffer) && State() == Fresh(n)
    {
      size := n;
      length := 0;
      buffer := new Word[n];
      lastDiff, lastValueInserted, predictedBlockSize := 0, 0, 0;
    }

    method GetBlockSize(blockSize: nat) returns (size: nat)
      requires Valid()
      ensures size == BlockSize(State(), blockSize)
    {
      if blockSize > 0 {
        size := if predictedBlockSize < blockSize then predictedBlockSize else blockSize;
      } else {
        size := predictedBlockSize;
      }
    }

    /** Recomputes the predicted block size from a difference of `bits` bits. */
    method Predict(bits: nat)
      requires 1 <= bits <= 32
      modifies this`predictedBlockSize
      ensures predictedBlockSize == Prediction(lastDiff, bits)
    {
      var w := BitsOf(lastDiff, bits);
      var lastChangeIndex := 0;
      var lastBitIsOne := w[0];
      var j := 1;
      while j < bits
        invariant 1 <= j <= bits
        invariant lastBitIsOne == w[j - 1]
        invariant lastChangeIndex == LastChange(w, j)
      {
        if w[j] != lastBitIsOne {
          lastChangeIndex := j;
          lastBitIsOne := w[j];
        }
        j := j + 1;
      }
      predictedBlockSize := lastChangeIndex + 1;
      if predictedBlockSize < 2 {
        predictedBlockSize := 2;
      }
    }

    /** Makes room behind the first two entries and puts the value there. */
    method Place(value: Word)
      requires Valid()
      modifies this`length, buffer
      ensures Valid()
      ensures buffer[..length] == Miss(old(buffer[..length]), value, size, BehindTwo)
      ensures var was, n := old(buffer[..length]), if old(length) < 2 then old(length) else 2;
              length == (if |was| < size then |was| + 1 else size) &&
              buffer[..n] == was[..n] && buffer[n] == value && buffer[n + 1..length] == was[n..length - 1]
    {
      var insertionPoint := if 2 >= length then length else 2;
      length := InsertShifting(buffer, length, insertionPoint, value);
    }

    method Lookup(value: Word, bits: nat) returns (found: bool, index: nat, diff: Word, sameDiff: bool)
      requires Valid() && 1 <= bits <= 32
      modifies this, buffer
      ensures Valid()
      ensures found <==> value in old(State()).entries
      ensures found ==> index == Find(old(State()).entries, value)
      ensures !found ==> diff == DiffOf(old(State()), value, bits) && (sameDiff <==> diff == old(lastDiff))
      ensures !found ==>
        var was, n := old(buffer[..length]), if old(length) < 2 then old(length) else 2;
        length == (if |was| < size then |was| + 1 else size) &&
        buffer[..n] == was[..n] && buffer[n] == value && buffer[n + 1..length] == was[n..length - 1]
      ensures State() == LookupState(old(State()), value, bits)
    {
      index, diff, sameDiff := 0, 0, false;
      while index < length
        invariant index <= length && value !in buffer[..index]
      {
        if value == buffer[index] {
          FindIs(buffer[..length], value, index);
          MoveToHalf(buffer, length, index);
          return true, index, diff, sameDiff;
        }
        assert buffer[..index + 1] == buffer[..index] + [buffer[index]];
        index := index + 1;
      }
      found := false;
      LowIsWord(Minus(value, lastValueInserted), bits);
      diff := Low(Minus(value, lastValueInserted), bits);
      Place(value);
      LowIsWord(value, bits);
      lastValueInserted := Low(value, bits);
      sameDiff := diff == lastDiff;
      if !sameDiff {
        lastDiff := diff;
        Predict(bits);
      }
    }

    method Insert(diff: Word, bits: nat) returns (value: Word)
      requires Valid() && 1 <= bits <= 32
      modifies this, buffer
      ensures Valid()
      ensures value == InsertedValue(old(State()), diff, bits)
      ensures State() == InsertState(old(State()), diff, bits)
      ensures var was, n := old(buffer[..length]), if old(length) < 2 then old(length) else 2;
              length == (if |was| < size then |was| + 1 else size) &&
              buffer[..n] == was[..n] && buffer[n] == value && buffer[n + 1..length] == was[n..length - 1]
    {
      LowIsWord(Plus(lastValueInserted, diff), bits);
      value := Low(Plus(lastValueInserted, diff), bits);
      if lastDiff != diff {
        lastDiff := diff;
        Predict(bits);
      }
      lastValueInserted := value;
      Place(value);
    }

    /** get: an entry, or the unused element behind the entries, which joins them then and pushes
        the last one out. */
    method Get(index: nat) returns (result: Word)
      requires Valid() && index <= length && index < size
      modifies this, buffer
      ensures Valid() && length == old(length)
      ensures result == old(buffer[index])
      ensures index < length ==> State() == GetState(old(State()), index)
      ensures index == length ==> State() == old(State()).(entries := Promote(old(buffer[..length + 1]), length)[..length])
    {
      result := buffer[index];
      MoveToHalf(buffer, if index < length then length else length + 1, index);
    }

    method Push(value: Word, bits: nat)
      requires Valid() && 1 <= bits <= 32
      modifies this, buffer
      ensures Valid()
      ensures State() == PushState(old(State()), value, bits)
    {
      LowIsWord(value, bits);
      length := InsertShifting(buffer, length, 0, Low(value, bits));
    }
  }
}
