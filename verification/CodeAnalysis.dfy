/** Jump-destination analysis: the byte-parallel bitmap of PUSH data and the caches in front of it. */
module CodeAnalysis {
  import opened Numbers

  const JUMPDEST: Byte := 0x5b
  const PUSH1: Byte := 0x60
  const PUSH32: Byte := 0x7f

  // ----- single bits of a byte -----

  /** 1 << k, as a byte. */
  function Unit(k: nat): bv8
    requires k < 8
  {
    if k == 0 then 1 else if k == 1 then 2 else if k == 2 then 4 else if k == 3 then 8
    else if k == 4 then 16 else if k == 5 then 32 else if k == 6 then 64 else 128
  }

  predicate Bit(b: bv8, k: nat)
    requires k < 8
  {
    b & Unit(k) != 0
  }

  /** x << k on 16 bits. */
  function Shl(x: bv16, k: nat): bv16
    requires k < 8
  {
    if k == 0 then x else if k == 1 then x << 1 else if k == 2 then x << 2 else if k == 3 then x << 3
    else if k == 4 then x << 4 else if k == 5 then x << 5 else if k == 6 then x << 6 else x << 7
  }

  function Shr(x: bv8, k: nat): bv8
    requires k < 8
  {
    if k == 0 then x else if k == 1 then x >> 1 else if k == 2 then x >> 2 else if k == 3 then x >> 3
    else if k == 4 then x >> 4 else if k == 5 then x >> 5 else if k == 6 then x >> 6 else x >> 7
  }

  function Low(x: bv16): bv8 { (x & 0xFF) as bv8 }

  function High(x: bv16): bv8 { (x >> 8) as bv8 }

  /** The constants set2BitsMask .. set7BitsMask: n ones. */
  function Mask(n: nat): bv16
    requires 1 <= n <= 8
  {
    if n == 1 then 0x1 else if n == 2 then 0x3 else if n == 3 then 0x7 else if n == 4 then 0xF
    else if n == 5 then 0x1F else if n == 6 then 0x3F else if n == 7 then 0x7F else 0xFF
  }

  /** A shifted mask split over two bytes has exactly the bits of the shifted range. */
  lemma MaskBits(n: nat, sh: nat, k: nat)
    requires 1 <= n <= 8 && sh < 8 && k < 8
    ensures Bit(Low(Shl(Mask(n), sh)), k) <==> sh <= k < sh + n
    ensures Bit(High(Shl(Mask(n), sh)), k) <==> sh <= k + 8 < sh + n
  {
  }

  lemma OrBits(a: bv8, b: bv8, k: nat)
    requires k < 8
    ensures Bit(a | b, k) <==> Bit(a, k) || Bit(b, k)
  {
  }

  lemma ZeroBits(a: bv8)
    ensures a == 0 <==> forall k :: 0 <= k < 8 ==> !Bit(a, k)
  {
    if a != 0 {
      assert Bit(a, 0) || Bit(a, 1) || Bit(a, 2) || Bit(a, 3) || Bit(a, 4) || Bit(a, 5) || Bit(a, 6) || Bit(a, 7);
    }
  }

  // ----- the bit vector -----

  predicate IsSet(bits: seq<bv8>, j: nat)
    requires j / 8 < |bits|
  {
    Bit(bits[j / 8], j % 8)
  }

  /** No bit at or above `pos` is set. */
  ghost predicate CleanFrom(bits: seq<bv8>, pos: nat)
  {
    forall j {:trigger IsSet(bits, j)} :: pos <= j < 8 * |bits| ==> !IsSet(bits, j)
  }

  /** `after` is `before` with the n bits from `pos` set as well. */
  ghost predicate Marked(before: seq<bv8>, after: seq<bv8>, pos: nat, n: nat)
  {
    && |after| == |before|
    && forall j {:trigger IsSet(after, j)} :: 0 <= j < 8 * |after| ==>
      (IsSet(after, j) <==> IsSet(before, j) || pos <= j < pos + n)
  }

  lemma CleanByte(bits: seq<bv8>, pos: nat, i: nat)
    requires CleanFrom(bits, pos) && pos <= 8 * i && i < |bits|
    ensures bits[i] == 0
  {
    forall k | 0 <= k < 8
      ensures !Bit(bits[i], k)
    {
      assert !IsSet(bits, 8 * i + k);
    }
    ZeroBits(bits[i]);
  }

  /** The bits of two bytes hold n ones starting at bit `sh` of the first. */
  ghost predicate HoldsRange(lo: bv8, hi: bv8, sh: nat, n: nat)
  {
    forall k :: 0 <= k < 8 ==> (Bit(lo, k) <==> sh <= k < sh + n) && (Bit(hi, k) <==> sh <= k + 8 < sh + n)
  }

  lemma MaskHoldsRange(n: nat, sh: nat)
    requires 1 <= n <= 8 && sh < 8
    ensures HoldsRange(Low(Shl(Mask(n), sh)), High(Shl(Mask(n), sh)), sh, n)
  {
    forall k | 0 <= k < 8
      ensures (Bit(Low(Shl(Mask(n), sh)), k) <==> sh <= k < sh + n) && (Bit(High(Shl(Mask(n), sh)), k) <==> sh <= k + 8 < sh + n)
    {
      MaskBits(n, sh, k);
    }
  }

  lemma OrRange(b: bv8, lo: bv8, hi: bv8, sh: nat, n: nat, k: nat)
    requires HoldsRange(lo, hi, sh, n) && k < 8
    ensures Bit(b | lo, k) <==> Bit(b, k) || sh <= k < sh + n
    ensures Bit(hi, k) <==> sh <= k + 8 < sh + n
  {
    OrBits(b, lo, k);
  }

  lemma RangeByte(pos: nat, n: nat, j: nat)
    requires n <= 8
    ensures pos <= j < pos + n <==>
      || (j / 8 == pos / 8 && pos % 8 <= j % 8 < pos % 8 + n)
      || (j / 8 == pos / 8 + 1 && pos % 8 <= j % 8 + 8 < pos % 8 + n)
  {
  }

  /** Setting the low part of a shifted mask in one byte and assigning the high part to the next
      marks the range; the assignment loses nothing because everything above was still zero. */
  lemma SplitMask(before: seq<bv8>, after: seq<bv8>, pos: nat, n: nat, lo: bv8, hi: bv8)
    requires 1 <= n <= 8 && pos / 8 + 1 < |before|
    requires CleanFrom(before, pos)
    requires HoldsRange(lo, hi, pos % 8, n)
    requires after == before[pos / 8 := before[pos / 8] | lo][pos / 8 + 1 := hi]
    ensures Marked(before, after, pos, n)
  {
    forall j | 0 <= j < 8 * |after|
      ensures IsSet(after, j) <==> IsSet(before, j) || pos <= j < pos + n
    {
      OrRange(before[pos / 8], lo, hi, pos % 8, n, j % 8);
      RangeByte(pos, n, j);
      if j / 8 == pos / 8 + 1 {
        assert !IsSet(before, j);
      }
    }
  }

  /** set1 and setN: `bits |= flag << pos`, the second byte written only when it is needed. */
  method SetN(bits: array<bv8>, n: nat, pos: nat)
    requires 1 <= n < 8 && pos / 8 + 1 < bits.Length
    requires CleanFrom(bits[..], pos)
    modifies bits
    ensures Marked(old(bits[..]), bits[..], pos, n)
  {
    ghost var before := bits[..];
    var a := Shl(Mask(n), pos % 8);
    CleanByte(before, pos, pos / 8 + 1);
    bits[pos / 8] := bits[pos / 8] | Low(a);
    var b := High(a);
    if b != 0 {
      bits[pos / 8 + 1] := b;
    }
    MaskHoldsRange(n, pos % 8);
    SplitMask(before, bits[..], pos, n, Low(a), b);
  }

  lemma ComplementIsHigh(k: nat)
    requires k < 8
    ensures !Low(Shl(0xFF, k)) == High(Shl(0xFF, k))
  {
  }

  /** set8: the second byte is assigned the complement of the first. */
  method Set8(bits: array<bv8>, pos: nat)
    requires pos / 8 + 1 < bits.Length
    requires CleanFrom(bits[..], pos)
    modifies bits
    ensures Marked(old(bits[..]), bits[..], pos, 8)
  {
    ghost var before := bits[..];
    var a := Low(Shl(0xFF, pos % 8));
    bits[pos / 8] := bits[pos / 8] | a;
    bits[pos / 8 + 1] := !a;
    ComplementIsHigh(pos % 8);
    MaskHoldsRange(8, pos % 8);
    SplitMask(before, bits[..], pos, 8, a, !a);
  }

  /** set16: the byte in the middle is assigned all ones. */
  method Set16(bits: array<bv8>, pos: nat)
    requires pos / 8 + 2 < bits.Length
    requires CleanFrom(bits[..], pos)
    modifies bits
    ensures Marked(old(bits[..]), bits[..], pos, 16)
  {
    ghost var before := bits[..];
    var a := Low(Shl(0xFF, pos % 8));
    bits[pos / 8] := bits[pos / 8] | a;
    bits[pos / 8 + 1] := 0xFF;
    bits[pos / 8 + 2] := !a;
    MaskHoldsRange(8, pos % 8);
    ComplementIsHigh(pos % 8);
    SplitMask16(before, bits[..], pos, a, !a);
  }

  lemma SplitMask16(before: seq<bv8>, after: seq<bv8>, pos: nat, lo: bv8, hi: bv8)
    requires pos / 8 + 2 < |before| && |after| == |before|
    requires CleanFrom(before, pos)
    requires HoldsRange(lo, hi, pos % 8, 8)
    requires after == before[pos / 8 := before[pos / 8] | lo][pos / 8 + 1 := 0xFF][pos / 8 + 2 := hi]
    ensures Marked(before, after, pos, 16)
  {
    forall j | 0 <= j < 8 * |after|
      ensures IsSet(after, j) <==> IsSet(before, j) || pos <= j < pos + 16
    {
      OrRange(before[pos / 8], lo, hi, pos % 8, 8, j % 8);
      if j / 8 == pos / 8 + 1 {
        AllOnes(j % 8);
      } else if j / 8 == pos / 8 + 2 {
        assert !IsSet(before, j);
      }
    }
  }

  lemma AllOnes(k: nat)
    requires k < 8
    ensures Bit(0xFF, k)
  {
  }

  lemma MarkedCompose(a: seq<bv8>, b: seq<bv8>, c: seq<bv8>, pos: nat, m: nat, n: nat)
    requires Marked(a, b, pos, m) && Marked(b, c, pos + m, n)
    ensures Marked(a, c, pos, m + n)
  {
    forall j | 0 <= j < 8 * |c|
      ensures IsSet(c, j) <==> IsSet(a, j) || pos <= j < pos + m + n
    {
      assert IsSet(b, j) <==> IsSet(a, j) || pos <= j < pos + m;
    }
  }

  lemma MarkedClean(a: seq<bv8>, b: seq<bv8>, pos: nat, n: nat)
    requires CleanFrom(a, pos) && Marked(a, b, pos, n)
    ensures CleanFrom(b, pos + n)
  {
    forall j | pos + n <= j < 8 * |b|
      ensures !IsSet(b, j)
    {
      assert !IsSet(a, j);
    }
  }

  /** The body of the analysis loop for one PUSH: sixteen bits at a time, then eight, then the rest. */
  method MarkPush(bits: array<bv8>, pos: nat, n: nat)
    requires 1 <= n <= 32 && pos / 8 + 4 < bits.Length
    requires CleanFrom(bits[..], pos)
    modifies bits
    ensures Marked(old(bits[..]), bits[..], pos, n)
  {
    var numbits, pc := n, pos;
    while numbits >= 16
      invariant 0 <= numbits <= n && pc + numbits == pos + n && (pc - pos) % 8 == 0
      invariant CleanFrom(bits[..], pc)
      invariant Marked(old(bits[..]), bits[..], pos, pc - pos)
    {
      ghost var before := bits[..];
      Set16(bits, pc);
      MarkedCompose(old(bits[..]), before, bits[..], pos, pc - pos, 16);
      MarkedClean(before, bits[..], pc, 16);
      pc, numbits := pc + 16, numbits - 16;
    }
    while numbits >= 8
      invariant 0 <= numbits <= n && pc + numbits == pos + n && (pc - pos) % 8 == 0
      invariant CleanFrom(bits[..], pc)
      invariant Marked(old(bits[..]), bits[..], pos, pc - pos)
    {
      ghost var before := bits[..];
      Set8(bits, pc);
      MarkedCompose(old(bits[..]), before, bits[..], pos, pc - pos, 8);
      MarkedClean(before, bits[..], pc, 8);
      pc, numbits := pc + 8, numbits - 8;
    }
    if numbits > 0 {
      assert pc <= pos + 24;
      ghost var before := bits[..];
      SetN(bits, numbits, pc);
      MarkedCompose(old(bits[..]), before, bits[..], pos, pc - pos, numbits);
    }
  }

  // ----- what the bitmap means -----

  /** The number of data bytes following an opcode. */
  function PushSize(op: Byte): nat
  {
    if PUSH1 <= op <= PUSH32 then op - PUSH1 + 1 else 0
  }

  /** The test in the source: as signed bytes, an opcode below PUSH1 is anything that is not a PUSH. */
  function Signed(op: Byte): int { if op < 128 then op else op - 256 }

  lemma SignedTest(op: Byte)
    ensures Signed(op) < Signed(PUSH1) <==> PushSize(op) == 0
  {
  }

  /** Section 9.4.3 of the Yellow Paper: `j` begins an instruction in the scan that has reached `pc`. */
  predicate IsInstruction(code: seq<Byte>, pc: nat, j: nat)
    ensures IsInstruction(code, pc, j) ==> j < |code|
    decreases |code| - pc
  {
    pc < |code| && (j == pc || IsInstruction(code, pc + 1 + PushSize(code[pc]), j))
  }

  /** Position `j` lies in the operand of a PUSH in the scan that has reached `pc`; operands may run
      past the end of the code. */
  predicate IsPushData(code: seq<Byte>, pc: nat, j: nat)
    decreases |code| - pc
  {
    pc < |code| &&
    (pc < j <= pc + PushSize(code[pc]) || IsPushData(code, pc + 1 + PushSize(code[pc]), j))
  }

  lemma {:induction false} DataIsAhead(code: seq<Byte>, pc: nat, j: nat)
    requires IsPushData(code, pc, j) || IsInstruction(code, pc, j)
    ensures pc <= j
    decreases |code| - pc
  {
    if j != pc && !(pc < j <= pc + PushSize(code[pc])) {
      DataIsAhead(code, pc + 1 + PushSize(code[pc]), j);
    }
  }

  /** Inside the code every byte is either the start of an instruction or push data, never both. */
  lemma {:induction false} InstructionOrData(code: seq<Byte>, pc: nat, j: nat)
    requires pc <= j < |code|
    ensures IsInstruction(code, pc, j) <==> !IsPushData(code, pc, j)
    decreases |code| - pc
  {
    var next := pc + 1 + PushSize(code[pc]);
    if j >= next {
      InstructionOrData(code, next, j);
    } else {
      if IsInstruction(code, next, j) || IsPushData(code, next, j) {
        DataIsAhead(code, next, j);
      }
    }
  }

  /** From the start of an instruction the scan goes on to the start of the next one. */
  lemma {:induction false} NextInstruction(code: seq<Byte>, pc: nat, j: nat)
    requires IsInstruction(code, pc, j)
    ensures var next := j + 1 + PushSize(code[j]);
      next >= |code| || IsInstruction(code, pc, next)
    decreases |code| - pc
  {
    DataIsAhead(code, pc, j);
    if j != pc {
      NextInstruction(code, pc + 1 + PushSize(code[pc]), j);
    }
  }

  /** A bit vector that holds the analysis of `code`. */
  ghost predicate Analyses(bits: seq<bv8>, code: seq<Byte>)
  {
    && |bits| == |code| / 8 + 5
    && forall j {:trigger IsSet(bits, j)} :: 0 <= j < 8 * |bits| ==> (IsSet(bits, j) <==> IsPushData(code, 0, j))
  }

  lemma ScanStep(bits: seq<bv8>, after: seq<bv8>, code: seq<Byte>, pc: nat)
    requires pc < |code|
    requires forall j {:trigger IsSet(bits, j)} :: 0 <= j < 8 * |bits| ==> (IsSet(bits, j) <==> j < pc && IsPushData(code, 0, j))
    requires forall j :: j >= pc ==> IsPushData(code, 0, j) == IsPushData(code, pc, j)
    requires Marked(bits, after, pc + 1, PushSize(code[pc]))
    ensures var next := pc + 1 + PushSize(code[pc]);
      && (forall j {:trigger IsSet(after, j)} :: 0 <= j < 8 * |after| ==> (IsSet(after, j) <==> j < next && IsPushData(code, 0, j)))
      && (forall j :: j >= next ==> IsPushData(code, 0, j) == IsPushData(code, next, j))
  {
    var next := pc + 1 + PushSize(code[pc]);
    forall j | pc <= j < next
      ensures IsPushData(code, 0, j) <==> pc < j
    {
      assert IsPushData(code, 0, j) == IsPushData(code, pc, j);
      if j == pc && IsPushData(code, next, j) {
        DataIsAhead(code, next, j);
      }
    }
    forall j | 0 <= j < 8 * |after|
      ensures IsSet(after, j) <==> j < next && IsPushData(code, 0, j)
    {
      assert IsSet(after, j) <==> IsSet(bits, j) || pc + 1 <= j < next;
    }
  }

  /** codeBitmap: exactly the push data is marked, in bounds even when a PUSH32 is the last byte. */
  method CodeBitmap(code: seq<Byte>) returns (bits: array<bv8>)
    ensures fresh(bits)
    ensures Analyses(bits[..], code)
  {
    bits := new bv8[|code| / 8 + 1 + 4](_ => 0);
    var pc := 0;
    forall j | 0 <= j < 8 * bits.Length
      ensures !IsSet(bits[..], j)
    {
      ZeroBits(bits[j / 8]);
    }
    while pc < |code|
      invariant 0 <= pc <= |code| + 32 && bits.Length == |code| / 8 + 5
      invariant forall j {:trigger IsSet(bits[..], j)} :: 0 <= j < 8 * bits.Length ==>
        (IsSet(bits[..], j) <==> j < pc && IsPushData(code, 0, j))
      invariant forall j :: j >= pc ==> IsPushData(code, 0, j) == IsPushData(code, pc, j)
      decreases |code| + 33 - pc
    {
      ghost var before := bits[..];
      ghost var start := pc;
      var op := code[pc];
      pc := pc + 1;
      SignedTest(op);
      if Signed(op) >= Signed(PUSH1) {
        var numbits := op - PUSH1 + 1;
        MarkPush(bits, pc, numbits);
        pc := pc + numbits;
      }
      ScanStep(before, bits[..], code, start);
    }
    forall j | 0 <= j < 8 * bits.Length
      ensures IsSet(bits[..], j) <==> IsPushData(code, 0, j)
    {
      if j >= pc {
        assert !IsPushData(code, pc, j);
      }
    }
  }

  /** codeSegment: one bit of the vector, shifted down. */
  predicate CodeSegment(bits: seq<bv8>, pos: nat)
    requires pos / 8 < |bits|
  {
    Shr(bits[pos / 8], pos % 8) & 1 == 0
  }

  lemma ShiftedBit(b: bv8, k: nat)
    requires k < 8
    ensures Shr(b, k) & 1 == 0 <==> !Bit(b, k)
  {
  }

  /** Read through the bitmap, a position of the code is code exactly when an instruction starts there. */
  lemma SegmentIsInstruction(bits: seq<bv8>, code: seq<Byte>, pos: nat)
    requires Analyses(bits, code) && pos < |code|
    ensures CodeSegment(bits, pos) <==> IsInstruction(code, 0, pos)
  {
    ShiftedBit(bits[pos / 8], pos % 8);
    assert IsSet(bits, pos) <==> IsPushData(code, 0, pos);
    InstructionOrData(code, 0, pos);
  }
}
