/** The byte memory of one call frame: its size, its quadratic price and the accesses instructions make. */
module Memory {
  import opened Options
  import opened Numbers

  const MAX_MEMORY: nat := 0x1F_FFFF_FFE0
  const MEMORY_GAS: nat := 3
  const QUAD_COEFF_DIV: nat := 512

  /** toWordSize: the number of 32-byte words covering `size` bytes. */
  function ToWordSize(size: Uint64): (w: Uint64)
    ensures 32 * w >= size && 32 * w < size + 32
  {
    if size > MAX_UINT64 - 31 then MAX_UINT64 / 32 + 1 else (size + 31) / 32
  }

  lemma WholeWords(size: Uint64)
    requires size % 32 == 0
    ensures 32 * ToWordSize(size) == size
  {
  }

  /** w squared, as the sum of the first w odd numbers: linear for the solver. */
  function Square(w: nat): nat { if w == 0 then 0 else Square(w - 1) + 2 * w - 1 }

  lemma {:induction false} SquareIsProduct(w: nat)
    ensures Square(w) == w * w
  {
    if w > 0 {
      SquareIsProduct(w - 1);
    }
  }

  lemma {:induction false} SquareMonotone(v: nat, w: nat)
    requires v <= w
    ensures Square(v) <= Square(w)
  {
    if v < w {
      SquareMonotone(v, w - 1);
    }
  }

  /** The total price of `w` words of memory. */
  function MemFee(w: nat): nat { MEMORY_GAS * w + Square(w) / QUAD_COEFF_DIV }

  /** Appendix H of the Yellow Paper. */
  lemma MemFeeFormula(w: nat)
    ensures MemFee(w) == 3 * w + w * w / 512
  {
    SquareIsProduct(w);
  }

  lemma MemFeeMonotone(v: nat, w: nat)
    requires v <= w
    ensures MemFee(v) <= MemFee(w)
  {
    SquareMonotone(v, w);
  }

  /** Up to the size limit no part of the fee computation leaves 64 bits. */
  lemma MemFeeFits(w: nat)
    requires w <= 0xFFFF_FFFF
    ensures w * w == Square(w) < TWO_64
    ensures MemFee(w) <= 0x80_0003_0000_0000
  {
    SquareIsProduct(w);
    SquareMonotone(w, 0xFFFF_FFFF);
    SquareIsProduct(0xFFFF_FFFF);
  }

  /** The total fee as memoryGasCost computes it, in 64 bits: nothing wraps. */
  function TotalFee(words: Uint64): (fee: Uint64)
    requires words <= 0xFFFF_FFFF
    ensures fee == MemFee(words) <= 0x80_0003_0000_0000
  {
    MemFeeFits(words);
    var square := Wrap(words * words);
    var linCoef := Wrap(words * MEMORY_GAS);
    var quadCoef := square / QUAD_COEFF_DIV;
    Wrap(linCoef + quadCoef)
  }

  /** calcMemSize64WithUint: the end of the range [off, off + length), or overflow. A range of length
      zero needs no memory whatever its offset. */
  function CalcMemSizeUint(off: Word, length: Uint64): (r: (Uint64, bool))
    ensures !r.1 <==> length == 0 || off + length < TWO_64
    ensures !r.1 ==> r.0 == if length == 0 then 0 else off + length
  {
    if length == 0 then (0, false)
    else if !IsUint64(off) then (0, true)
    else
      var val := Wrap(off + length);
      (val, val < off)
  }

  function CalcMemSize(off: Word, length: Word): (r: (Uint64, bool))
    ensures !r.1 <==> IsUint64(length) && (length == 0 || off + length < TWO_64)
    ensures !r.1 ==> r.0 == if length == 0 then 0 else off + length
  {
    if !IsUint64(length) then (0, true) else CalcMemSizeUint(off, length)
  }

  /** Whether an access of `size` bytes at `offset` lies within a memory of `length` bytes. */
  predicate InBounds(offset: Word, size: Word, length: nat)
  {
    size == 0 || offset + size <= length
  }

  function Zeros(n: nat): (r: seq<Byte>)
    ensures |r| == n && forall i :: 0 <= i < n ==> r[i] == 0
  {
    seq(n, _ => 0)
  }

  /** getData: `size` bytes of `data` from `start`, zero past its end. The end is computed without an overflow check; if
      it wraps around it lies before the start, and there is no such slice. */
  function GetData(data: seq<Byte>, start: Uint64, size: Uint64): (r: Option<seq<Byte>>)
    requires |data| < TWO_64
    ensures r.Some? <==> Min(start, |data|) + size < TWO_64
    ensures r.Some? ==>
      && |r.value| == size
      && forall i :: 0 <= i < size ==> r.value[i] == if start + i < |data| then data[start + i] else 0
  {
    var from := Min(start, |data|);
    var end := Min(Wrap(from + size), |data|);
    if end < from then None else Some(data[from..end] + Zeros(size - (end - from)))
  }

  class Memory {
    var store: seq<Byte>
    var lastGasCost: nat
    /** The sum of all fees asked for so far. */
    ghost var fees: nat

    /** Whole words, within the limit, and paid for. */
    ghost predicate Valid()
      reads this
    {
      && |store| % 32 == 0
      && |store| <= MAX_MEMORY
      && fees == lastGasCost == MemFee(|store| / 32)
    }

    /** Paid up to `size` bytes, which the memory is about to be resized to. */
    ghost predicate Charged(size: nat)
      reads this
    {
      && |store| % 32 == 0 && size % 32 == 0
      && |store| <= MAX_MEMORY && size <= MAX_MEMORY
      && fees == lastGasCost == MemFee(Max(|store|, size) / 32)
    }

    constructor ()
      ensures Valid() && store == [] && lastGasCost == fees == 0
    {
      store, lastGasCost, fees := [], 0, 0;
    }

    /** memoryGasCost: the price of growing to `newMemSize` bytes is the difference of two totals.
        All arithmetic is 64-bit; below the limit none of it wraps. */
    method GasCost(newMemSize: Uint64) returns (fee: Uint64, ok: bool)
      requires Valid()
      modifies this`lastGasCost, this`fees
      ensures fees == old(fees) + fee
      ensures ok <==> newMemSize <= MAX_MEMORY
      ensures ok ==> fee == lastGasCost - old(lastGasCost)
      ensures ok ==> Charged(32 * ToWordSize(newMemSize)) && lastGasCost >= old(lastGasCost)
      ensures ok && newMemSize % 32 == 0 ==> Charged(newMemSize)
      ensures ok ==> fee <= 0x80_0003_0000_0000
      ensures !ok ==> fee == 0 && lastGasCost == old(lastGasCost)
    {
      if newMemSize == 0 {
        return 0, true;
      }
      if newMemSize > MAX_MEMORY {
        return 0, false;
      }
      var words := ToWordSize(newMemSize);
      if newMemSize % 32 == 0 {
        WholeWords(newMemSize);
      }
      var size := Wrap(words * 32);
      ghost var had := |store| / 32;
      assert |store| == 32 * had && size == 32 * words;
      if size > |store| {
        assert Max(|store|, size) / 32 == words == Max(words, had);
        MemFeeMonotone(had, words);
        var newTotalFee := TotalFee(words);
        fee := Wrap(newTotalFee - lastGasCost);
        lastGasCost := newTotalFee;
        fees := fees + fee;
        return fee, true;
      }
      assert Max(|store|, size) / 32 == had == Max(words, had);
      return 0, true;
    }

    /** Resize: never shrinks; new bytes are zero. */
    method Resize(size: Uint64)
      requires Charged(size)
      modifies this`store
      ensures Valid()
      ensures |store| == Max(|old(store)|, size)
      ensures old(store) <= store
      ensures forall i :: |old(store)| <= i < |store| ==> store[i] == 0
    {
      if |store| < size {
        store := store + Zeros(size - |store|);
      }
    }

    /** Set copies at most `size` bytes of `value` and panics when the range is not there. */
    method Set(offset: Uint64, size: Uint64, value: seq<Byte>)
      requires Valid() && InBounds(offset, size, |store|)
      modifies this`store
      ensures Valid() && |store| == |old(store)|
      ensures forall i :: 0 <= i < |store| ==>
        store[i] == if offset <= i < offset + Min(size, |value|) then value[i - offset] else old(store)[i]
    {
      if size > 0 {
        var n := Min(size, |value|);
        store := store[..offset] + value[..n] + store[offset + n..];
      }
    }

    /** Set32 writes one word, big endian. */
    method Set32(offset: Uint64, val: Word)
      requires Valid() && InBounds(offset, 32, |store|)
      modifies this`store
      ensures Valid() && |store| == |old(store)|
      ensures store[offset..offset + 32] == BytesOf(val, 32)
      ensures store[..offset] == old(store)[..offset] && store[offset + 32..] == old(store)[offset + 32..]
    {
      store := store[..offset] + BytesOf(val, 32) + store[offset + 32..];
    }

    method Set8(offset: Uint64, val: Byte)
      requires Valid() && InBounds(offset, 1, |store|)
      modifies this`store
      ensures Valid() && store == old(store)[offset := val]
    {
      store := store[offset := val];
    }

    /** GetPtr and GetCopy: nothing for a zero size, otherwise exactly the range asked for; with the
        range in bounds their test of the offset against the length always succeeds. */
    function Read(offset: Uint64, size: Uint64): (r: seq<Byte>)
      requires InBounds(offset, size, |store|)
      reads this
      ensures |r| == size
      ensures forall i :: 0 <= i < size ==> r[i] == store[offset + i]
    {
      if size == 0 then [] else store[offset..offset + size]
    }
  }

  /** The memory in words after a sequence of requests, each for some number of words. */
  function WordsAfter(words: nat, requests: seq<nat>): (w: nat)
    ensures w >= words
    decreases |requests|
  {
    if requests == [] then words else WordsAfter(Max(words, requests[0]), requests[1..])
  }

  /** What the requests are charged one by one, as memoryGasCost charges them. */
  function FeesCharged(words: nat, requests: seq<nat>): int
    decreases |requests|
  {
    if requests == [] then 0
    else MemFee(Max(words, requests[0])) - MemFee(words) + FeesCharged(Max(words, requests[0]), requests[1..])
  }

  /** However a run grows its memory, the fees add up to the price of the final size. */
  lemma {:induction false} FeesTelescope(words: nat, requests: seq<nat>)
    ensures FeesCharged(words, requests) == MemFee(WordsAfter(words, requests)) - MemFee(words)
    decreases |requests|
  {
    if requests != [] {
      FeesTelescope(Max(words, requests[0]), requests[1..]);
    }
  }

  /** The final size is the largest request, so the order of the requests does not matter. */
  lemma {:induction false} WordsAfterIsMaximum(words: nat, requests: seq<nat>)
    ensures forall i :: 0 <= i < |requests| ==> requests[i] <= WordsAfter(words, requests)
    ensures WordsAfter(words, requests) == words || WordsAfter(words, requests) in requests
    decreases |requests|
  {
    if requests != [] {
      WordsAfterIsMaximum(Max(words, requests[0]), requests[1..]);
      forall i | 0 <= i < |requests|
        ensures requests[i] <= WordsAfter(words, requests)
      {
        if i > 0 {
          assert requests[i] == requests[1..][i - 1];
        }
      }
    }
  }
}
