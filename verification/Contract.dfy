/** The code and gas of one call frame, with the two caches of its jump-destination analysis. */
module Contracts {
  import opened Options
  import opened Numbers
  import opened CodeAnalysis

  /** A code hash stands for the code it was computed from; initcode may carry none. */
  datatype CodeHash = NoHash | HashOf(code: seq<Byte>)

  /** The analysis map that a frame shares with the frames it calls. */
  class Jumpdests {
    var entries: map<CodeHash, seq<bv8>>

    ghost predicate Valid()
      reads this
    {
      forall h :: h in entries ==> h.HashOf? && Analyses(entries[h], h.code)
    }

    constructor ()
      ensures Valid() && entries == map[]
    {
      entries := map[];
    }
  }

  /** What a jump destination is, without any analysis: a JUMPDEST byte on an instruction boundary. */
  predicate IsJumpdest(code: seq<Byte>, dest: Word)
  {
    dest < |code| && code[dest] == JUMPDEST && IsInstruction(code, 0, dest)
  }

  class Contract {
    const code: Slice
    const codeHash: CodeHash
    const self: Address
    const input: Slice
    const jumpdests: Jumpdests
    var gas: Uint64
    var analysis: Option<seq<bv8>>

    ghost predicate Valid()
      reads this, jumpdests
    {
      && jumpdests.Valid()
      && (codeHash.HashOf? ==> codeHash.code == code)
      && (analysis.Some? ==> Analyses(analysis.value, code))
    }

    constructor (self: Address, code: Slice, codeHash: CodeHash, input: Slice, gas: Uint64, jumpdests: Jumpdests)
      requires jumpdests.Valid()
      requires codeHash.HashOf? ==> codeHash.code == code
      ensures Valid()
      ensures this.self == self && this.code == code && this.codeHash == codeHash
      ensures this.input == input && this.gas == gas && this.jumpdests == jumpdests
    {
      this.self, this.code, this.codeHash, this.input := self, code, codeHash, input;
      this.gas, this.jumpdests, this.analysis := gas, jumpdests, None;
    }

    /** isCode: the local analysis, else the shared one under the code hash, else a fresh one. Whichever
        cache answers, the answer is that of the linear scan. */
    method IsCode(dest: nat) returns (isCode: bool)
      requires Valid() && dest < |code|
      modifies this`analysis, jumpdests
      ensures Valid()
      ensures isCode <==> IsInstruction(code, 0, dest)
      ensures forall h :: h in old(jumpdests.entries) ==>
        h in jumpdests.entries && jumpdests.entries[h] == old(jumpdests.entries)[h]
    {
      if analysis.Some? {
        SegmentIsInstruction(analysis.value, code, dest);
        return CodeSegment(analysis.value, dest);
      }
      if codeHash != NoHash {
        if codeHash !in jumpdests.entries {
          var bits := CodeBitmap(code);
          jumpdests.entries := jumpdests.entries[codeHash := bits[..]];
        }
        var shared := jumpdests.entries[codeHash];
        analysis := Some(shared);
        SegmentIsInstruction(shared, code, dest);
        return CodeSegment(shared, dest);
      }
      var bits := CodeBitmap(code);
      analysis := Some(bits[..]);
      SegmentIsInstruction(bits[..], code, dest);
      return CodeSegment(bits[..], dest);
    }

    /** validJumpdest accepts exactly the JUMPDEST bytes on instruction boundaries. */
    method ValidJumpdest(dest: Word) returns (ok: bool)
      requires Valid()
      modifies this`analysis, jumpdests
      ensures Valid()
      ensures ok <==> IsJumpdest(code, dest)
    {
      if !IsUint64(dest) || dest >= |code| {
        return false;
      }
      if code[dest] != JUMPDEST {
        return false;
      }
      ok := IsCode(dest);
    }

    /** GetOp: STOP past the end of the code. */
    function GetOp(pc: nat): Byte
    {
      if pc < |code| then code[pc] else 0
    }

    /** UseGas: all or nothing. */
    method UseGas(amount: Uint64) returns (ok: bool)
      modifies this`gas
      ensures ok <==> amount <= old(gas)
      ensures gas == if ok then old(gas) - amount else old(gas)
    {
      if gas < amount {
        return false;
      }
      gas := gas - amount;
      return true;
    }
  }
}
