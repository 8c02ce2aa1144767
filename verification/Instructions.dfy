/** Instructions that only work on their own frame: stack, memory, code and program counter. */
module Instructions {
  import opened Numbers
  import opened Memory
  import opened Stacks
  import opened CodeAnalysis
  import opened Contracts
  import opened JumpTables

  datatype Error =
    | NoError | StopToken | Reverted | OutOfGas | CodeStoreOutOfGas | DepthExceeded | InsufficientBalance
    | AddressCollision | MaxCodeSizeExceeded | InvalidJump | WriteProtection | ReturnDataOutOfBounds
    | GasUintOverflow | InvalidCode | NonceOverflow | StackUnderflow | StackOverflow | InvalidOpCode
    | PrecompileFailed | Panicked

  // ----- memory_table.go -----

  /** The memory-size functions: how far into memory an instruction reaches. */
  function MemSize(m: MemorySize, data: seq<Word>): (r: (Uint64, bool))
    requires m.Range? ==> m.off < |data| && m.len < |data|
    requires m.Fixed? ==> m.off < |data| && m.size < TWO_64
    requires m.TwoRanges? ==> m.off1 < |data| && m.len1 < |data| && m.off2 < |data| && m.len2 < |data|
  {
    match m
    case NoMemory => (0, false)
    case Range(off, len) => CalcMemSize(BackOf(data, off), BackOf(data, len))
    case Fixed(off, size) => CalcMemSizeUint(BackOf(data, off), size)
    case TwoRanges(off1, len1, off2, len2) =>
      var x := CalcMemSize(BackOf(data, off1), BackOf(data, len1));
      var y := CalcMemSize(BackOf(data, off2), BackOf(data, len2));
      if x.1 || y.1 then (0, true) else if x.0 > y.0 then x else y
  }

  predicate StackDeepEnough(m: MemorySize, data: seq<Word>)
  {
    match m
    case NoMemory => true
    case Range(off, len) => off < |data| && len < |data|
    case Fixed(off, size) => off < |data| && size < TWO_64
    case TwoRanges(off1, len1, off2, len2) => off1 < |data| && len1 < |data| && off2 < |data| && len2 < |data|
  }

  /** All ranges an instruction touches lie within `length` bytes of memory, and their sizes fit in 64 bits. */
  ghost predicate Reachable(m: MemorySize, data: seq<Word>, length: nat)
    requires StackDeepEnough(m, data)
  {
    match m
    case NoMemory => true
    case Range(off, len) => Fits(BackOf(data, off), BackOf(data, len), length)
    case Fixed(off, size) => Fits(BackOf(data, off), size, length)
    case TwoRanges(off1, len1, off2, len2) =>
      Fits(BackOf(data, off1), BackOf(data, len1), length) && Fits(BackOf(data, off2), BackOf(data, len2), length)
  }

  ghost predicate Fits(off: Word, size: Word, length: nat)
  {
    InBounds(off, size, length) && size <= length
  }

  /** Memory of the size the function computes holds everything the instruction touches. */
  lemma MemSizeReaches(m: MemorySize, data: seq<Word>, length: nat)
    requires StackDeepEnough(m, data) && !MemSize(m, data).1 && MemSize(m, data).0 <= length
    ensures Reachable(m, data, length)
  {
  }

  // ----- instructions -----

  method OpMload(stack: Stack, mem: Memory)
    requires |stack.data| >= 1 && mem.Valid() && Fits(stack.Back(0), 32, |mem.store|)
    modifies stack
    ensures stack.data == old(stack.data)[..|old(stack.data)| - 1]
      + [WordOf(mem.store[old(stack.Back(0))..old(stack.Back(0)) + 32])]
  {
    var offset := Low64(stack.Back(0));
    assert mem.Read(offset, 32) == mem.store[offset..offset + 32];
    stack.SetTop(WordOf(mem.Read(offset, 32)));
  }

  method OpMstore(stack: Stack, mem: Memory)
    requires |stack.data| >= 2 && mem.Valid() && Fits(stack.Back(0), 32, |mem.store|)
    modifies stack, mem`store
    ensures stack.data == old(stack.data)[..|old(stack.data)| - 2] && mem.Valid()
    ensures |mem.store| == |old(mem.store)|
    ensures var o := old(stack.Back(0));
      && mem.store[o..o + 32] == BytesOf(old(stack.Back(1)), 32)
      && mem.store[..o] == old(mem.store)[..o] && mem.store[o + 32..] == old(mem.store)[o + 32..]
  {
    var start := stack.Pop();
    var val := stack.Pop();
    mem.Set32(Low64(start), val);
  }

  method OpMstore8(stack: Stack, mem: Memory)
    requires |stack.data| >= 2 && mem.Valid() && Fits(stack.Back(0), 1, |mem.store|)
    modifies stack, mem`store
    ensures stack.data == old(stack.data)[..|old(stack.data)| - 2] && mem.Valid()
    ensures mem.store == old(mem.store)[old(stack.Back(0)) := LowByte(old(stack.Back(1)))]
  {
    var off := stack.Pop();
    var val := stack.Pop();
    mem.Set8(Low64(off), LowByte(val));
  }

  /** A copy into memory: zero-padded data in the target range, every other byte as it was. */
  ghost predicate Copied(store: Slice, after: Slice, to: Word, from: Word, size: Word, data: Slice)
  {
    && |after| == |store|
    && forall i :: 0 <= i < |after| ==>
         after[i] == if size == 0 || i < to || i >= to + size then store[i]
                     else if from + (i - to) < |data| then data[from + (i - to)] else 0
  }

  /** The copy instructions: `size` bytes of `data` from `from`, zero-padded, to memory at `to`. */
  method CopyToMemory(mem: Memory, to: Word, from: Word, size: Word, data: Slice)
    requires mem.Valid() && Fits(to, size, |mem.store|)
    modifies mem`store
    ensures mem.Valid() && Copied(old(mem.store), mem.store, to, from, size, data)
  {
    var from64 := if IsUint64(from) then from else MAX_UINT64;
    var size64 := Low64(size);
    var copy := GetData(data, from64, size64).value;
    mem.Set(Low64(to), size64, copy);
  }

  /** The data a range of memory holds; nothing for a zero size. */
  method OpReturn(stack: Stack, mem: Memory) returns (ret: Slice)
    requires |stack.data| >= 2 && Fits(stack.Back(0), stack.Back(1), |mem.store|) && mem.Valid()
    modifies stack
    ensures stack.data == old(stack.data)[..|old(stack.data)| - 2]
    ensures |ret| == old(stack.Back(1))
    ensures forall i :: 0 <= i < |ret| ==> ret[i] == mem.store[old(stack.Back(0)) + i]
  {
    var offset := stack.Pop();
    var size := stack.Pop();
    ret := mem.Read(Low64(offset), Low64(size));
  }

  /** The operand bytes of a PUSH, zero past the end of the code. */
  function Operand(code: Slice, pc: nat, size: nat): seq<Byte>
  {
    seq(size, i => if 0 <= i && pc + 1 + i < |code| then code[pc + 1 + i] else 0)
  }

  /** opPush1 and makePush: the operand bytes, zero-padded on the right past the end of the code. */
  method OpPush(contract: Contract, stack: Stack, pc: Uint64, size: nat) returns (next: Uint64)
    requires contract.Valid() && size <= 32 && pc < |contract.code|
    modifies stack
    ensures next == Wrap(pc + size)
    ensures stack.data == old(stack.data) + [WordOf(Operand(contract.code, pc, size))]
  {
    var codeLen := |contract.code|;
    var startMin := Min(codeLen, pc + 1);
    var endMin := Min(codeLen, startMin + size);
    var bytes := contract.code[startMin..endMin] + Zeros(size - (endMin - startMin));
    assert bytes == Operand(contract.code, pc, size);
    stack.Push(WordOf(bytes));
    next := Wrap(pc + size);
  }

  /** opJump: the next program counter is the destination minus one, which the loop increments; position
      zero wraps around. */
  method OpJump(contract: Contract, stack: Stack, pc: Uint64) returns (next: Uint64, err: Error)
    requires contract.Valid() && |stack.data| >= 1
    modifies stack, contract`analysis, contract.jumpdests
    ensures contract.Valid()
    ensures stack.data == old(stack.data)[..|old(stack.data)| - 1] || (err == StopToken && stack.data == old(stack.data))
    ensures err == NoError || err == InvalidJump || err == StopToken
    ensures err == NoError ==> IsJumpdest(contract.code, old(stack.Back(0))) && Wrap(next + 1) == old(stack.Back(0))
    ensures err == InvalidJump ==> !IsJumpdest(contract.code, old(stack.Back(0)))
  {
    var aborted: bool := *;
    if aborted {
      return pc, StopToken;
    }
    var pos := stack.Pop();
    var ok := contract.ValidJumpdest(pos);
    if !ok {
      return pc, InvalidJump;
    }
    next, err := Wrap((pos as int) - 1), NoError;
  }

  method OpJumpi(contract: Contract, stack: Stack, pc: Uint64) returns (next: Uint64, err: Error)
    requires contract.Valid() && |stack.data| >= 2
    modifies stack, contract`analysis, contract.jumpdests
    ensures contract.Valid()
    ensures stack.data == old(stack.data)[..|old(stack.data)| - 2] || (err == StopToken && stack.data == old(stack.data))
    ensures err == NoError || err == InvalidJump || err == StopToken
    ensures err == NoError ==>
      if old(stack.Back(1)) == 0 then next == pc
      else IsJumpdest(contract.code, old(stack.Back(0))) && Wrap(next + 1) == old(stack.Back(0))
    ensures err == InvalidJump ==> old(stack.Back(1)) != 0 && !IsJumpdest(contract.code, old(stack.Back(0)))
  {
    var aborted: bool := *;
    if aborted {
      return pc, StopToken;
    }
    var pos := stack.Pop();
    var cond := stack.Pop();
    if cond != 0 {
      var ok := contract.ValidJumpdest(pos);
      if !ok {
        return pc, InvalidJump;
      }
      return Wrap((pos as int) - 1), NoError;
    }
    next, err := pc, NoError;
  }

  /** An instruction whose result the model leaves open: the right number of items go and come. */
  method OpPure(stack: Stack, pops: nat, pushes: nat)
    requires |stack.data| >= pops
    modifies stack
    ensures |stack.data| == |old(stack.data)| - pops + pushes
    ensures stack.data[..|old(stack.data)| - pops] == old(stack.data)[..|old(stack.data)| - pops]
  {
    ghost var rest := stack.data[..|stack.data| - pops];
    stack.data := stack.data[..|stack.data| - pops];
    var k := 0;
    while k < pushes
      invariant 0 <= k <= pushes && |stack.data| == |rest| + k && stack.data[..|rest|] == rest
    {
      var w: Word := *;
      stack.Push(w);
      k := k + 1;
    }
  }

  /** Program counters the loop head can see: the start of an instruction, or just past the code. */
  ghost predicate AtInstruction(code: Slice, pc: nat)
  {
    IsInstruction(code, 0, pc) || |code| <= pc <= |code| + 32
  }

  /** The program counter is at this instruction, and falling through it, over its operand if it is a PUSH,
      leads to the next one; past the code there is only STOP. */
  ghost predicate FallsThrough(code: Slice, pc: Uint64, e: Exec)
  {
    e.Stop? || (pc < |code| && AtInstruction(code, Wrap((if e.Push? then Wrap(pc + e.size) else pc) + 1)))
  }

  lemma FetchFallsThrough(code: Slice, pc: Uint64, e: Exec)
    requires AtInstruction(code, pc) && Usual(if pc < |code| then code[pc] else 0, e)
    ensures FallsThrough(code, pc, e)
  {
    if pc < |code| {
      NextInstruction(code, 0, pc);
      assert PushSize(code[pc]) == if e.Push? then e.size else 0;
    }
  }

  predicate IsLocal(e: Exec)
  {
    || e.Stop? || e.Undefined? || e.Pure? || e.Keccak256? || e.CallDataCopy? || e.CodeCopy? || e.MLoad? || e.MStore?
    || e.MStore8? || e.Jump? || e.JumpI? || e.Push? || e.Dup? || e.Swap? || e.Return? || e.Revert?
  }

  /** An instruction about to run: its operands are on the stack and the memory it touches is there. */
  ghost predicate Ready(e: Exec, contract: Contract, stack: Stack, mem: Memory)
    reads contract, contract.jumpdests, stack, mem
  {
    && contract.Valid() && mem.Valid()
    && |stack.data| >= Pops(e)
    && StackDeepEnough(Touches(e), stack.data)
    && Reachable(Touches(e), stack.data, |mem.store|)
  }

  /** What an instruction that works on the stack alone leaves of it. */
  ghost predicate OnStack(e: Exec, data: seq<Word>, data': seq<Word>)
    requires |data| >= Pops(e) && (e.Dup? ==> e.n >= 1) && (e.Swap? ==> e.n >= 1)
  {
    match e
    case Pure(pops, pushes) => |data'| == |data| - pops + pushes && data[..|data| - pops] <= data'
    case Dup(n) => data' == data + [BackOf(data, n - 1)]
    case Swap(n) => data' == data[|data| - 1 := BackOf(data, n)][|data| - n - 1 := BackOf(data, 0)]
    case _ => data' == data
  }

  /** What an instruction other than a jump leaves of stack and memory, and what it returns. */
  ghost predicate Effect(e: Exec, contract: Contract, pc: nat, data: seq<Word>, store: Slice, data': seq<Word>,
                         store': Slice, res: Slice)
    requires |data| >= Pops(e) && StackDeepEnough(Touches(e), data) && Reachable(Touches(e), data, |store|)
    requires (e.Dup? ==> e.n >= 1) && (e.Swap? ==> e.n >= 1)
  {
    var rest := data[..|data| - Pops(e)];
    match e
    case Stop | Undefined | Pure(_, _) | Dup(_) | Swap(_) => OnStack(e, data, data') && store' == store
    case Keccak256 => |data'| == |rest| + 1 && rest <= data' && store' == store
    case CallDataCopy =>
      data' == rest && Copied(store, store', BackOf(data, 0), BackOf(data, 1), BackOf(data, 2), contract.input)
    case CodeCopy =>
      data' == rest && Copied(store, store', BackOf(data, 0), BackOf(data, 1), BackOf(data, 2), contract.code)
    case MLoad => data' == rest + [WordOf(store[BackOf(data, 0)..BackOf(data, 0) + 32])] && store' == store
    case MStore =>
      var o := BackOf(data, 0);
      data' == rest && store' == store[..o] + BytesOf(BackOf(data, 1), 32) + store[o + 32..]
    case MStore8 => data' == rest && store' == store[BackOf(data, 0) := LowByte(BackOf(data, 1))]
    case Push(size) => data' == data + [WordOf(Operand(contract.code, pc, size))] && store' == store
    case Return | Revert =>
      && data' == rest && store' == store && |res| == BackOf(data, 1)
      && forall i :: 0 <= i < |res| ==> res[i] == store[BackOf(data, 0) + i]
    case _ => true
  }

  /** Where an instruction leaves the program counter, before the loop increments it. */
  ghost predicate Goes(e: Exec, code: Slice, pc: nat, data: seq<Word>, next: Uint64)
    requires |data| >= Pops(e)
  {
    if e.Jump? || (e.JumpI? && BackOf(data, 1) != 0)
    then IsJumpdest(code, BackOf(data, 0)) && Wrap(next + 1) == BackOf(data, 0)
    else next == if e.Push? then Wrap(pc + e.size) else pc
  }

  /** How an instruction other than a jump ends. */
  function Ending(e: Exec): Error
  {
    if e.Stop? || e.Return? then StopToken else if e.Undefined? then InvalidOpCode
    else if e.Revert? then Reverted else NoError
  }

  /** The instructions that leave the program counter to the loop. */
  method ExecuteSimple(e: Exec, contract: Contract, stack: Stack, mem: Memory, ghost pc: Uint64)
    returns (res: Slice, err: Error)
    requires IsLocal(e) && !e.Jump? && !e.JumpI? && !e.Push?
    requires Ready(e, contract, stack, mem)
    requires (e.Dup? ==> e.n >= 1) && (e.Swap? ==> e.n >= 1)
    modifies stack, mem`store
    ensures contract.Valid() && mem.Valid()
    ensures |stack.data| == |old(stack.data)| - Pops(e) + Pushes(e)
    ensures Effect(e, contract, pc, old(stack.data), old(mem.store), stack.data, mem.store, res)
    ensures err == Ending(e) && (err == NoError ==> !Halts(e))
  {
    res, err := [], Ending(e);
    if e.Stop? || e.Undefined? || e.Pure? || e.Dup? || e.Swap? {
      ExecuteOnStack(e, stack);
    } else {
      res := ExecuteOnMemory(e, contract, stack, mem);
    }
  }

  /** Those that leave memory alone. */
  method ExecuteOnStack(e: Exec, stack: Stack)
    requires e.Stop? || e.Undefined? || e.Pure? || e.Dup? || e.Swap?
    requires |stack.data| >= Pops(e) && (e.Dup? ==> e.n >= 1) && (e.Swap? ==> e.n >= 1)
    modifies stack
    ensures |stack.data| == |old(stack.data)| - Pops(e) + Pushes(e)
    ensures OnStack(e, old(stack.data), stack.data)
  {
    match e {
      case Pure(pops, pushes) => OpPure(stack, pops, pushes);
      case Dup(n) => stack.Dup(n);
      case Swap(n) => stack.Swap(n + 1);
      case _ =>
    }
  }

  /** Those that read or write it. */
  method ExecuteOnMemory(e: Exec, contract: Contract, stack: Stack, mem: Memory) returns (res: Slice)
    requires
      || e.Keccak256? || e.CallDataCopy? || e.CodeCopy? || e.MLoad? || e.MStore? || e.MStore8? || e.Return? || e.Revert?
    requires Ready(e, contract, stack, mem)
    modifies stack, mem`store
    ensures mem.Valid() && |stack.data| == |old(stack.data)| - Pops(e) + Pushes(e)
    ensures Effect(e, contract, 0, old(stack.data), old(mem.store), stack.data, mem.store, res)
  {
    res := [];
    if e.Keccak256? {
      var data := mem.Read(Low64(stack.Back(0)), Low64(stack.Back(1)));
      OpPure(stack, 2, 1);
    } else if e.CallDataCopy? || e.CodeCopy? {
      var source := if e.CodeCopy? then contract.code else contract.input;
      CopyToMemory(mem, stack.Back(0), stack.Back(1), stack.Back(2), source);
      OpPure(stack, 3, 0);
    } else if e.MLoad? {
      OpMload(stack, mem);
    } else if e.MStore? {
      OpMstore(stack, mem);
    } else if e.MStore8? {
      OpMstore8(stack, mem);
    } else {
      res := OpReturn(stack, mem);
    }
  }

  /** The instructions that move the program counter themselves. */
  method ExecuteFlow(e: Exec, contract: Contract, stack: Stack, pc: Uint64) returns (next: Uint64, err: Error)
    requires e.Jump? || e.JumpI? || e.Push?
    requires contract.Valid() && |stack.data| >= Pops(e)
    requires FallsThrough(contract.code, pc, e) && (e.Push? ==> e.size <= 32)
    modifies stack, contract`analysis, contract.jumpdests
    ensures contract.Valid()
    ensures err == NoError ==> |stack.data| == |old(stack.data)| - Pops(e) + Pushes(e)
    ensures err == NoError ==> AtInstruction(contract.code, Wrap(next + 1))
    ensures e.Push? ==> stack.data == old(stack.data) + [WordOf(Operand(contract.code, pc, e.size))]
    ensures err == NoError ==> Goes(e, contract.code, pc, old(stack.data), next)
    ensures err == InvalidJump ==>
      && (e.Jump? || (e.JumpI? && old(stack.Back(1)) != 0)) && !IsJumpdest(contract.code, old(stack.Back(0)))
    ensures err == NoError || err == InvalidJump || err == StopToken
    ensures !Halts(e)
  {
    if e.Jump? {
      next, err := OpJump(contract, stack, pc);
    } else if e.JumpI? {
      next, err := OpJumpi(contract, stack, pc);
    } else {
      next := OpPush(contract, stack, pc, e.size);
      err := NoError;
    }
  }

  /** Every instruction that stays in its frame. After an instruction that goes on, the incremented program
      counter is again at an instruction. */
  method ExecuteLocal(e: Exec, contract: Contract, stack: Stack, mem: Memory, pc: Uint64)
    returns (next: Uint64, res: Slice, err: Error)
    requires IsLocal(e) && Ready(e, contract, stack, mem)
    requires (e.Dup? ==> e.n >= 1) && (e.Swap? ==> e.n >= 1)
    requires FallsThrough(contract.code, pc, e) && (e.Push? ==> e.size <= 32)
    modifies stack, mem`store, contract`analysis, contract.jumpdests
    ensures contract.Valid() && mem.Valid()
    ensures err == NoError ==> |stack.data| == |old(stack.data)| - Pops(e) + Pushes(e)
    ensures err == NoError ==> AtInstruction(contract.code, Wrap(next + 1))
    ensures err == NoError ==> !Halts(e)
    ensures !e.Jump? && !e.JumpI? ==>
      Effect(e, contract, pc, old(stack.data), old(mem.store), stack.data, mem.store, res)
    ensures err == NoError ==> Goes(e, contract.code, pc, old(stack.data), next)
    ensures err == InvalidJump ==>
      && (e.Jump? || (e.JumpI? && old(stack.Back(1)) != 0)) && !IsJumpdest(contract.code, old(stack.Back(0)))
    ensures err == NoError || err == StopToken || err == Reverted || err == InvalidOpCode || err == InvalidJump
  {
    next, res := pc, [];
    if e.Jump? || e.JumpI? || e.Push? {
      next, err := ExecuteFlow(e, contract, stack, pc);
    } else {
      res, err := ExecuteSimple(e, contract, stack, mem, pc);
    }
  }
}
