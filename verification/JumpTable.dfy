/** The instruction tables: what each opcode of each fork costs, needs on the stack and touches in memory. */
module JumpTables {
  import opened Numbers
  import opened StorageGas

  const STACK_LIMIT: nat := 1024

  datatype CallKind = CallOp | CallCodeOp | DelegateOp | StaticOp

  /** What an instruction does. `Pure` stands for the instructions that only compute a result from
      their operands and the environment. */
  datatype Exec =
    | Stop | Undefined
    | Pure(pops: nat, pushes: nat)
    | Keccak256
    | CallDataCopy | CodeCopy | ExtCodeCopy | ReturnDataCopy
    | MLoad | MStore | MStore8
    | SLoad | SStore
    | Jump | JumpI
    | Push(size: nat) | Dup(n: nat) | Swap(n: nat)
    | Log(topics: nat)
    | Create(salted: bool)
    | Call(kind: CallKind)
    | Return | Revert | SelfDestruct

  /** Which gas function prices an instruction beyond its constant gas. */
  datatype DynamicGas =
    | NoGas
    | MemoryOnly
    | Copier(pos: nat)
    | WordHash(pos: nat)
    | LogData(topics: nat)
    | ExpBytes(perByte: nat)
    | Store(schedule: Schedule)
    | SLoad2929
    | Account2929
    | ExtCodeCopy2929
    | CallGas(kind: CallKind, access: bool)
    | SelfDestructGas
    | SelfDestruct2929(refunds: bool)

  /** Which memory-size function an instruction uses; the numbers are stack positions from the top. */
  datatype MemorySize =
    | NoMemory
    | Range(off: nat, len: nat)
    | Fixed(off: nat, size: nat)
    | TwoRanges(off1: nat, len1: nat, off2: nat, len2: nat)

  datatype Operation = Operation(
    exec: Exec, constantGas: nat, gas: DynamicGas, minStack: nat, maxStack: int, memory: MemorySize)

  type JumpTable = t: seq<Operation> | |t| == 256 witness seq(256, _ => Entry(Undefined, 0, 0, 0))

  function MinStack(pops: nat, pushes: nat): nat { pops }

  function MaxStack(pops: nat, pushes: nat): int { STACK_LIMIT + pops - pushes }

  function Entry(exec: Exec, constantGas: nat, pops: nat, pushes: nat): Operation
  {
    Operation(exec, constantGas, NoGas, MinStack(pops, pushes), MaxStack(pops, pushes), NoMemory)
  }

  function Priced(exec: Exec, constantGas: nat, pops: nat, pushes: nat, gas: DynamicGas, memory: MemorySize): Operation
  {
    Operation(exec, constantGas, gas, MinStack(pops, pushes), MaxStack(pops, pushes), memory)
  }

  // ----- opcodes the forks rewrite -----

  const BALANCE: Byte := 0x31
  const EXTCODESIZE: Byte := 0x3b
  const EXTCODECOPY: Byte := 0x3c
  const EXTCODEHASH: Byte := 0x3f
  const SLOAD: Byte := 0x54
  const SSTORE: Byte := 0x55
  const EXP: Byte := 0x0a
  const PUSH0: Byte := 0x5f
  const CALL: Byte := 0xf1
  const CALLCODE: Byte := 0xf2
  const DELEGATECALL: Byte := 0xf4
  const CREATE2: Byte := 0xf5
  const STATICCALL: Byte := 0xfa
  const REVERT: Byte := 0xfd
  const SELFDESTRUCT: Byte := 0xff

  // ----- what the interpreter relies on -----

  /** Stack items an instruction's code needs below the top, and the items it leaves in their place. */
  function Pops(e: Exec): nat
  {
    match e
    case Stop | Undefined => 0
    case Pure(n, _) => n
    case Keccak256 => 2
    case CallDataCopy | CodeCopy | ReturnDataCopy => 3
    case ExtCodeCopy => 4
    case MLoad | SLoad => 1
    case MStore | MStore8 | SStore => 2
    case Jump => 1
    case JumpI => 2
    case Push(_) => 0
    case Dup(n) => n
    case Swap(n) => n + 1
    case Log(n) => n + 2
    case Create(salted) => if salted then 4 else 3
    case Call(k) => if k == CallOp || k == CallCodeOp then 7 else 6
    case Return | Revert => 2
    case SelfDestruct => 1
  }

  function Pushes(e: Exec): nat
  {
    match e
    case Pure(_, n) => n
    case Keccak256 | MLoad | SLoad | Push(_) | Create(_) | Call(_) => 1
    case Dup(n) => n + 1
    case Swap(n) => n + 1
    case _ => 0
  }

  /** The memory an instruction's code reads or writes. */
  function Touches(e: Exec): MemorySize
  {
    match e
    case Keccak256 | Return | Revert | Log(_) => Range(0, 1)
    case CallDataCopy | CodeCopy | ReturnDataCopy => Range(0, 2)
    case ExtCodeCopy => Range(1, 3)
    case MLoad | MStore => Fixed(0, 32)
    case MStore8 => Fixed(0, 1)
    case Create(_) => Range(1, 2)
    case Call(k) => if k == CallOp || k == CallCodeOp then TwoRanges(5, 6, 3, 4) else TwoRanges(4, 5, 2, 3)
    case _ => NoMemory
  }

  predicate Halts(e: Exec)
  {
    e.Stop? || e.Undefined? || e.Return? || e.Revert? || e.SelfDestruct?
  }

  /** Stack items a gas function looks at. */
  function Inspects(g: DynamicGas): nat
  {
    match g
    case NoGas | MemoryOnly => 0
    case Copier(pos) => pos + 1
    case WordHash(pos) => pos + 1
    case LogData(_) => 2
    case ExpBytes(_) => 2
    case Store(_) => 2
    case SLoad2929 | Account2929 => 1
    case ExtCodeCopy2929 => 4
    case CallGas(k, _) => if k == CallOp || k == CallCodeOp then 3 else 2
    case SelfDestructGas | SelfDestruct2929(_) => 1
  }

  /** Gas functions that price the expansion of memory. */
  predicate PricesMemory(g: DynamicGas)
  {
    g.MemoryOnly? || g.Copier? || g.WordHash? || g.LogData? || g.ExtCodeCopy2929? || g.CallGas?
  }

  /** The least a gas function ever charges. */
  function LeastGas(g: DynamicGas): nat
  {
    match g
    case LogData(_) => 375
    case ExpBytes(_) => 10
    case Store(s) => s.noop
    case SLoad2929 => 100
    case _ => 0
  }

  /** An entry the interpreter can execute: the stack limits are those of the instruction's code, the
      memory function covers what the code touches and is priced, and the gas function fits. */
  predicate EntryOk(o: Operation)
  {
    && o.minStack == Pops(o.exec) && o.maxStack == STACK_LIMIT + Pops(o.exec) - Pushes(o.exec)
    && o.memory == Touches(o.exec)
    && (o.memory != NoMemory ==> PricesMemory(o.gas))
    && Inspects(o.gas) <= Pops(o.exec)
    && (o.exec.Call? <==> o.gas.CallGas?) && (o.exec.Call? ==> o.exec.kind == o.gas.kind)
    && (o.exec.SStore? <==> o.gas.Store?) && (o.gas.Store? ==> Known(o.gas.schedule))
    && (Halts(o.exec) || o.constantGas + LeastGas(o.gas) >= 1)
    && (o.exec.Call? || o.exec.Create? ==> o.constantGas >= 1)
    && o.constantGas <= 32000
    && (o.exec.Push? ==> o.exec.size <= 32) && (o.exec.Dup? || o.exec.Swap? ==> o.exec.n >= 1)
    && (o.gas.LogData? ==> o.gas.topics <= 4) && (o.gas.ExpBytes? ==> o.gas.perByte <= 50)
  }

  /** PUSH opcodes push, nothing else does, and the opcodes that forks and EIPs reprice hold their usual
      instruction or are not yet defined. */
  predicate Usual(op: Byte, e: Exec)
  {
    match op
    case 0x00 => e == Stop
    case 0x31 => e == Pure(1, 1)
    case 0x3b => e == Pure(1, 1)
    case 0x3c => e == ExtCodeCopy
    case 0x3f => e == Pure(1, 1) || e == Undefined
    case 0x54 => e == SLoad
    case 0x55 => e == SStore
    case 0xf1 => e == Call(CallOp)
    case 0xf2 => e == Call(CallCodeOp)
    case 0xf4 => e == Call(DelegateOp) || e == Undefined
    case 0xfa => e == Call(StaticOp) || e == Undefined
    case 0xff => e == SelfDestruct
    case _ => if 0x60 <= op <= 0x7f then e == Push(op - 0x5f) else !e.Push? && !e.SStore?
  }

  predicate SlotOk(op: Byte, o: Operation) { EntryOk(o) && Usual(op, o.exec) }

  /** A table the interpreter can run on: every entry executable, every repriced opcode in its place. */
  predicate TableOk(jt: JumpTable)
  {
    forall i :: 0 <= i < 256 ==> SlotOk(i, jt[i])
  }

  /** Access-list pricing of calls, which relies on the rules of EIP-150. */
  predicate UsesAccessLists(jt: JumpTable)
  {
    exists i :: 0 <= i < 256 && jt[i].gas.CallGas? && jt[i].gas.access
  }

  /** The clearing refund of the table's SSTORE. */
  function Clears(jt: JumpTable): nat
  {
    if jt[SSTORE].gas.Store? then jt[SSTORE].gas.schedule.clears else 0
  }

  /** EIP-2929 prices three opcodes that older forks leave undefined. */
  predicate Defined(op: Byte, o: Operation)
  {
    op == EXTCODEHASH || op == DELEGATECALL || op == STATICCALL ==> o.exec != Undefined
  }

  // ----- newFrontierInstructionSet -----

  function FrontierArithmetic(op: Byte): (o: Operation)
    requires op < 0x30
    ensures SlotOk(op, o) && !o.gas.CallGas?
  {
    match op
    case 0x00 => Entry(Stop, 0, 0, 0)
    case 0x01 => Entry(Pure(2, 1), 3, 2, 1)
    case 0x02 => Entry(Pure(2, 1), 5, 2, 1)
    case 0x03 => Entry(Pure(2, 1), 3, 2, 1)
    case 0x04 => Entry(Pure(2, 1), 5, 2, 1)
    case 0x05 => Entry(Pure(2, 1), 5, 2, 1)
    case 0x06 => Entry(Pure(2, 1), 5, 2, 1)
    case 0x07 => Entry(Pure(2, 1), 5, 2, 1)
    case 0x08 => Entry(Pure(3, 1), 8, 3, 1)
    case 0x09 => Entry(Pure(3, 1), 8, 3, 1)
    case 0x0a => Priced(Pure(2, 1), 0, 2, 1, ExpBytes(10), NoMemory)
    case 0x0b => Entry(Pure(2, 1), 5, 2, 1)
    case 0x10 => Entry(Pure(2, 1), 3, 2, 1)
    case 0x11 => Entry(Pure(2, 1), 3, 2, 1)
    case 0x12 => Entry(Pure(2, 1), 3, 2, 1)
    case 0x13 => Entry(Pure(2, 1), 3, 2, 1)
    case 0x14 => Entry(Pure(2, 1), 3, 2, 1)
    case 0x15 => Entry(Pure(1, 1), 3, 1, 1)
    case 0x16 => Entry(Pure(2, 1), 3, 2, 1)
    case 0x17 => Entry(Pure(2, 1), 3, 2, 1)
    case 0x18 => Entry(Pure(2, 1), 3, 2, 1)
    case 0x19 => Entry(Pure(1, 1), 3, 1, 1)
    case 0x1a => Entry(Pure(2, 1), 3, 2, 1)
    case 0x20 => Priced(Keccak256, 30, 2, 1, WordHash(1), Range(0, 1))
    case _ => Entry(Undefined, 0, 0, 0)
  }

  function FrontierEnvironment(op: Byte): (o: Operation)
    requires 0x30 <= op < 0x50
    ensures SlotOk(op, o) && !o.gas.CallGas?
  {
    match op
    case 0x30 => Entry(Pure(0, 1), 2, 0, 1)
    case 0x31 => Entry(Pure(1, 1), 20, 1, 1)
    case 0x32 => Entry(Pure(0, 1), 2, 0, 1)
    case 0x33 => Entry(Pure(0, 1), 2, 0, 1)
    case 0x34 => Entry(Pure(0, 1), 2, 0, 1)
    case 0x35 => Entry(Pure(1, 1), 3, 1, 1)
    case 0x36 => Entry(Pure(0, 1), 2, 0, 1)
    case 0x37 => Priced(CallDataCopy, 3, 3, 0, Copier(2), Range(0, 2))
    case 0x38 => Entry(Pure(0, 1), 2, 0, 1)
    case 0x39 => Priced(CodeCopy, 3, 3, 0, Copier(2), Range(0, 2))
    case 0x3a => Entry(Pure(0, 1), 2, 0, 1)
    case 0x3b => Entry(Pure(1, 1), 20, 1, 1)
    case 0x3c => Priced(ExtCodeCopy, 20, 4, 0, Copier(3), Range(1, 3))
    case 0x40 => Entry(Pure(1, 1), 20, 1, 1)
    case 0x41 => Entry(Pure(0, 1), 2, 0, 1)
    case 0x42 => Entry(Pure(0, 1), 2, 0, 1)
    case 0x43 => Entry(Pure(0, 1), 2, 0, 1)
    case 0x44 => Entry(Pure(0, 1), 2, 0, 1)
    case 0x45 => Entry(Pure(0, 1), 2, 0, 1)
    case _ => Entry(Undefined, 0, 0, 0)
  }

  function FrontierMachine(op: Byte): (o: Operation)
    requires 0x50 <= op < 0x55
    ensures SlotOk(op, o) && !o.gas.CallGas?
  {
    match op
    case 0x50 => Entry(Pure(1, 0), 2, 1, 0)
    case 0x51 => Priced(MLoad, 3, 1, 1, MemoryOnly, Fixed(0, 32))
    case 0x52 => Priced(MStore, 3, 2, 0, MemoryOnly, Fixed(0, 32))
    case 0x53 => Priced(MStore8, 3, 2, 0, MemoryOnly, Fixed(0, 1))
    case _ => Entry(SLoad, 50, 1, 1)
  }

  function FrontierFlow(op: Byte): (o: Operation)
    requires 0x55 <= op < 0x60
    ensures SlotOk(op, o) && !o.gas.CallGas?
  {
    match op
    case 0x55 => Priced(SStore, 0, 2, 0, Store(EIP1283), NoMemory)
    case 0x56 => Entry(Jump, 8, 1, 0)
    case 0x57 => Entry(JumpI, 10, 2, 0)
    case 0x58 => Entry(Pure(0, 1), 2, 0, 1)
    case 0x59 => Entry(Pure(0, 1), 2, 0, 1)
    case 0x5a => Entry(Pure(0, 1), 2, 0, 1)
    case 0x5b => Entry(Pure(0, 0), 1, 0, 0)
    case _ => Entry(Undefined, 0, 0, 0)
  }

  function FrontierSystem(op: Byte): (o: Operation)
    requires 0xa5 <= op
    ensures SlotOk(op, o) && (o.gas.CallGas? ==> !o.gas.access)
  {
    match op
    case 0xf0 => Priced(Create(false), 32000, 3, 1, MemoryOnly, Range(1, 2))
    case 0xf1 => Priced(Call(CallOp), 40, 7, 1, CallGas(CallOp, false), TwoRanges(5, 6, 3, 4))
    case 0xf2 => Priced(Call(CallCodeOp), 40, 7, 1, CallGas(CallCodeOp, false), TwoRanges(5, 6, 3, 4))
    case 0xf3 => Priced(Return, 0, 2, 0, MemoryOnly, Range(0, 1))
    case 0xff => Priced(SelfDestruct, 0, 1, 0, SelfDestructGas, NoMemory)
    case _ => Entry(Undefined, 0, 0, 0)
  }

  function FrontierOp(op: Byte): (o: Operation)
    ensures SlotOk(op, o) && (o.gas.CallGas? ==> !o.gas.access)
  {
    if op < 0x30 then FrontierArithmetic(op)
    else if op < 0x50 then FrontierEnvironment(op)
    else if 0x60 <= op <= 0x7f then var n := op - 0x5f; Entry(Push(n), 3, 0, 1)
    else if 0x80 <= op <= 0x8f then var n := op - 0x7f; Entry(Dup(n), 3, n, n + 1)
    else if 0x90 <= op <= 0x9f then var n := op - 0x8f; Entry(Swap(n), 3, n + 1, n + 1)
    else if 0xa0 <= op <= 0xa4 then var n := op - 0xa0; Priced(Log(n), 0, n + 2, 0, LogData(n), Range(0, 1))
    else if op < 0x55 then FrontierMachine(op)
    else if op < 0x60 then FrontierFlow(op)
    else FrontierSystem(op)
  }

  // ----- the later forks, each rewriting some entries of the one before -----

  function HomesteadOp(op: Byte): (o: Operation)
    ensures SlotOk(op, o) && (o.gas.CallGas? ==> !o.gas.access)
  {
    if op == DELEGATECALL then Priced(Call(DelegateOp), 40, 6, 1, CallGas(DelegateOp, false), TwoRanges(4, 5, 2, 3))
    else FrontierOp(op)
  }

  function TangerineWhistleOp(op: Byte): (o: Operation)
    ensures SlotOk(op, o) && (o.gas.CallGas? ==> !o.gas.access)
  {
    var o := HomesteadOp(op);
    if op == BALANCE then o.(constantGas := 400)
    else if op == SLOAD then o.(constantGas := 200)
    else if op == EXTCODESIZE || op == EXTCODECOPY || op == CALL || op == CALLCODE || op == DELEGATECALL
    then o.(constantGas := 700)
    else o
  }

  function SpuriousDragonOp(op: Byte): (o: Operation)
    ensures SlotOk(op, o)
  {
    if op == EXP then Priced(Pure(2, 1), 0, 2, 1, ExpBytes(50), NoMemory) else TangerineWhistleOp(op)
  }

  function ByzantiumOp(op: Byte): (o: Operation)
    ensures SlotOk(op, o)
    ensures op == STATICCALL || op == DELEGATECALL ==> o.exec != Undefined
  {
    if op == STATICCALL then Priced(Call(StaticOp), 700, 6, 1, CallGas(StaticOp, false), TwoRanges(4, 5, 2, 3))
    else if op == 0x3d then Entry(Pure(0, 1), 2, 0, 1)
    else if op == 0x3e then Priced(ReturnDataCopy, 3, 3, 0, Copier(2), Range(0, 2))
    else if op == REVERT then Priced(Revert, 0, 2, 0, MemoryOnly, Range(0, 1))
    else SpuriousDragonOp(op)
  }

  function ConstantinopleOp(op: Byte): (o: Operation)
    ensures SlotOk(op, o) && Defined(op, o)
  {
    if op == 0x1b || op == 0x1c || op == 0x1d then Entry(Pure(2, 1), 3, 2, 1)
    else if op == EXTCODEHASH then Entry(Pure(1, 1), 400, 1, 1)
    else if op == CREATE2 then Priced(Create(true), 32000, 4, 1, WordHash(2), Range(1, 2))
    else ByzantiumOp(op)
  }

  datatype Eip = Eip1344 | Eip1884 | Eip2200 | Eip2929 | Eip3198 | Eip3529 | Eip3855

  /** enable1344 .. enable3855: what activating an EIP makes of one entry. */
  function Enable(eip: Eip, op: Byte, o: Operation): Operation
  {
    match eip
    case Eip1344 => if op == 0x46 then Entry(Pure(0, 1), 2, 0, 1) else o
    case Eip1884 => Enable1884(op, o)
    case Eip2200 =>
      if op == SLOAD then o.(constantGas := 800)
      else if op == SSTORE then o.(gas := Store(EIP2200))
      else o
    case Eip2929 => Enable2929(op, o)
    case Eip3198 => if op == 0x48 then Entry(Pure(0, 1), 2, 0, 1) else o
    case Eip3529 =>
      if op == SSTORE then o.(gas := Store(EIP3529))
      else if op == SELFDESTRUCT then o.(gas := SelfDestruct2929(false))
      else o
    case Eip3855 => if op == PUSH0 then Entry(Pure(0, 1), 2, 0, 1) else o
  }

  function Enable1884(op: Byte, o: Operation): Operation
  {
    match op
    case 0x54 => o.(constantGas := 800)
    case 0x31 => o.(constantGas := 700)
    case 0x3f => o.(constantGas := 700)
    case 0x47 => Entry(Pure(0, 1), 5, 0, 1)
    case _ => o
  }

  function Enable2929(op: Byte, o: Operation): Operation
  {
    match op
    case 0x55 => o.(gas := Store(EIP2929))
    case 0x54 => o.(constantGas := 0, gas := SLoad2929)
    case 0x3c => o.(constantGas := 100, gas := ExtCodeCopy2929)
    case 0x3b => o.(constantGas := 100, gas := Account2929)
    case 0x3f => o.(constantGas := 100, gas := Account2929)
    case 0x31 => o.(constantGas := 100, gas := Account2929)
    case 0xf1 => o.(constantGas := 100, gas := CallGas(CallOp, true))
    case 0xf2 => o.(constantGas := 100, gas := CallGas(CallCodeOp, true))
    case 0xfa => o.(constantGas := 100, gas := CallGas(StaticOp, true))
    case 0xf4 => o.(constantGas := 100, gas := CallGas(DelegateOp, true))
    case 0xff => o.(constantGas := 5000, gas := SelfDestruct2929(true))
    case _ => o
  }

  function IstanbulOp(op: Byte): (o: Operation)
    ensures SlotOk(op, o) && Defined(op, o)
  {
    var o := ConstantinopleOp(op);
    EnableOk(Eip1344, op, o);
    EnableOk(Eip1884, op, Enable(Eip1344, op, o));
    EnableOk(Eip2200, op, Enable(Eip1884, op, Enable(Eip1344, op, o)));
    Enable(Eip2200, op, Enable(Eip1884, op, Enable(Eip1344, op, o)))
  }

  function BerlinOp(op: Byte): (o: Operation)
    ensures SlotOk(op, o) && Defined(op, o)
  {
    Enable2929Ok(op, IstanbulOp(op));
    Enable(Eip2929, op, IstanbulOp(op))
  }

  function LondonOp(op: Byte): (o: Operation)
    ensures SlotOk(op, o) && Defined(op, o)
  {
    var o := BerlinOp(op);
    EnableOk(Eip3529, op, o);
    EnableOk(Eip3198, op, Enable(Eip3529, op, o));
    Enable(Eip3198, op, Enable(Eip3529, op, o))
  }

  function MergeOp(op: Byte): (o: Operation)
    ensures SlotOk(op, o) && Defined(op, o)
  {
    if op == 0x44 then Entry(Pure(0, 1), 2, 0, 1) else LondonOp(op)
  }

  /** An EIP other than 2929 keeps an entry executable. */
  lemma EnableOk(eip: Eip, op: Byte, o: Operation)
    requires SlotOk(op, o) && eip != Eip2929
    ensures SlotOk(op, Enable(eip, op, o))
    ensures Defined(op, Enable(eip, op, o)) <==> Defined(op, o)
  {
  }

  /** EIP-2929 gives opcodes that older forks leave undefined a gas function that reads the stack, although
      nothing checks that the stack holds anything: an entry stays executable exactly when it is defined. */
  lemma Enable2929Ok(op: Byte, o: Operation)
    requires SlotOk(op, o)
    ensures SlotOk(op, Enable(Eip2929, op, o)) <==> Defined(op, o)
    ensures Defined(op, Enable(Eip2929, op, o)) <==> Defined(op, o)
  {
  }

  // ----- whole tables -----

  datatype Fork = FrontierFork | HomesteadFork | Eip150Fork | LondonFork | MergeFork

  /** The package-level table of a fork, as the program builds it when it starts. */
  function ForkOp(f: Fork, op: Byte): (o: Operation)
    ensures SlotOk(op, o)
    ensures f == LondonFork || f == MergeFork ==> Defined(op, o)
    ensures f != LondonFork && f != MergeFork && op == EXTCODEHASH ==> o.exec == Undefined && o.minStack == 0
  {
    match f
    case FrontierFork => FrontierOp(op)
    case HomesteadFork => HomesteadOp(op)
    case Eip150Fork => TangerineWhistleOp(op)
    case LondonFork => LondonOp(op)
    case MergeFork => MergeOp(op)
  }

  /** EIPs that add an opcode put a new entry into the interpreter's own copy of the table. */
  predicate Assigns(eip: Eip, op: Byte)
  {
    match eip
    case Eip1344 => op == 0x46
    case Eip1884 => op == 0x47
    case Eip3198 => op == 0x48
    case Eip3855 => op == PUSH0
    case _ => false
  }

  /** All other changes are written into the entry itself, which the copy shares with the package-level table. */
  function EnableShared(eip: Eip, op: Byte, o: Operation): Operation
  {
    if Assigns(eip, op) then o else Enable(eip, op, o)
  }

  /** An entry of a fork's table after all that interpreters of that fork have activated. */
  function SharedOp(f: Fork, history: seq<Eip>, op: Byte): Operation
    decreases |history|
  {
    if history == [] then ForkOp(f, op)
    else EnableShared(history[|history| - 1], op, SharedOp(f, history[..|history| - 1], op))
  }

  function SharedTable(f: Fork, history: seq<Eip>): JumpTable
  {
    seq(256, i requires 0 <= i < 256 => SharedOp(f, history, i))
  }

  /** The entries an interpreter has to itself. */
  predicate AddedBy(own: map<Byte, Operation>, eips: seq<Eip>)
  {
    && (forall op :: op in own <==> exists k :: 0 <= k < |eips| && Assigns(eips[k], op))
    && (forall op :: op in own ==> SlotOk(op, own[op]) && !own[op].gas.CallGas?)
  }

  lemma {:induction false} SharedOk(f: Fork, history: seq<Eip>, op: Byte)
    requires Eip2929 !in history || f == LondonFork || f == MergeFork
    ensures SlotOk(op, SharedOp(f, history, op))
    ensures f == LondonFork || f == MergeFork ==> Defined(op, SharedOp(f, history, op))
    decreases |history|
  {
    if history != [] {
      var last := history[|history| - 1];
      var before := SharedOp(f, history[..|history| - 1], op);
      SharedOk(f, history[..|history| - 1], op);
      if last == Eip2929 {
        Enable2929Ok(op, before);
      } else {
        EnableOk(last, op, before);
      }
    }
  }

  /** Before London, EIP-2929 leaves EXTCODEHASH with a gas function that looks at a stack item the entry does
      not ask for, whatever is activated before or after it. */
  lemma {:induction false} SharedBroken(f: Fork, history: seq<Eip>)
    requires Eip2929 in history && f != LondonFork && f != MergeFork
    ensures !EntryOk(SharedOp(f, history, EXTCODEHASH))
    ensures SharedOp(f, history, EXTCODEHASH).minStack == 0 && Inspects(SharedOp(f, history, EXTCODEHASH).gas) == 1
    decreases |history|
  {
    var rest := history[..|history| - 1];
    if Eip2929 in rest {
      SharedBroken(f, rest);
    } else {
      StillUndefined(f, rest);
    }
  }

  lemma {:induction false} StillUndefined(f: Fork, history: seq<Eip>)
    requires Eip2929 !in history && f != LondonFork && f != MergeFork
    ensures SharedOp(f, history, EXTCODEHASH).exec == Undefined && SharedOp(f, history, EXTCODEHASH).minStack == 0
    decreases |history|
  {
    if history != [] {
      StillUndefined(f, history[..|history| - 1]);
    }
  }

  /** An interpreter's table: the fork's table, with the interpreter's own entries in front. */
  function Overlay(shared: JumpTable, own: map<Byte, Operation>): JumpTable
  {
    seq(256, i requires 0 <= i < 256 => if i in own then own[i] else shared[i])
  }

  /** An interpreter's table can be run on exactly when its fork is London or later, or nobody has ever activated
      EIP-2929 on an interpreter of that fork: neither it nor any other, before it or since. */
  lemma TableOkIff(f: Fork, history: seq<Eip>, own: map<Byte, Operation>, eips: seq<Eip>)
    requires AddedBy(own, eips)
    ensures TableOk(Overlay(SharedTable(f, history), own)) <==>
      (Eip2929 !in history || f == LondonFork || f == MergeFork)
  {
    var table := Overlay(SharedTable(f, history), own);
    if Eip2929 !in history || f == LondonFork || f == MergeFork {
      forall i | 0 <= i < 256
        ensures SlotOk(i, table[i])
      {
        SharedOk(f, history, i);
      }
    } else {
      SharedBroken(f, history);
      assert table[EXTCODEHASH] == SharedOp(f, history, EXTCODEHASH);
    }
  }

  /** An interpreter without any EIPs has a sound table, and no longer has once another one of its fork has activated
      EIP-2929. */
  lemma OthersBreakIt()
    ensures TableOk(Overlay(SharedTable(HomesteadFork, []), map[]))
    ensures !TableOk(Overlay(SharedTable(HomesteadFork, [Eip2929]), map[]))
  {
    assert AddedBy(map[], []);
    TableOkIff(HomesteadFork, [], map[], []);
    TableOkIff(HomesteadFork, [Eip2929], map[], []);
  }

  /** An interpreter as far as its table is concerned: the fork whose entries it shares, and its own. */
  datatype Interpreter = Interpreter(fork: Fork, own: map<Byte, Operation>)

  /** The package-level tables, which every new interpreter with extra EIPs writes to. */
  class InstructionSets {
    var shared: map<Fork, JumpTable>
    /** What has been activated on each fork so far, in order. */
    ghost var activated: map<Fork, seq<Eip>>

    ghost predicate Valid()
      reads this
    {
      forall f: Fork :: f in shared && f in activated && shared[f] == SharedTable(f, activated[f])
    }

    constructor ()
      ensures Valid() && forall f: Fork :: activated[f] == []
    {
      shared := map f: Fork | true :: SharedTable(f, []);
      activated := map f: Fork {:trigger SharedTable(f, [])} | true :: [];
    }

    /** The table an interpreter runs on just now. */
    function TableOf(i: Interpreter): JumpTable
      requires i.fork in shared
      reads this`shared
    {
      Overlay(shared[i.fork], i.own)
    }

    /** NewEVMInterpreter: copies the fork's table and activates the EIPs on the copy, one after the other. The copy is
        one of pointers, so that repricing an opcode reprices it for every interpreter of the fork. */
    method NewInterpreter(f: Fork, eips: seq<Eip>) returns (r: Interpreter)
      requires Valid()
      modifies this
      ensures Valid() && activated == old(activated)[f := old(activated)[f] + eips]
      ensures r.fork == f && AddedBy(r.own, eips)
      ensures TableOk(TableOf(r)) <==>
        ((Eip2929 !in eips && Eip2929 !in old(activated)[f]) || f == LondonFork || f == MergeFork)
    {
      r := Interpreter(f, map[]);
      assert old(activated)[f] + eips[..0] == old(activated)[f];
      for k := 0 to |eips|
        invariant Valid() && activated == old(activated)[f := old(activated)[f] + eips[..k]]
        invariant r.fork == f && AddedBy(r.own, eips[..k])
      {
        assert eips[..k + 1] == eips[..k] + [eips[k]];
        r := EnableEip(eips[k], r, eips[..k]);
        assert old(activated)[f] + eips[..k] + [eips[k]] == old(activated)[f] + eips[..k + 1];
      }
      assert eips[..|eips|] == eips;
      TableOkIff(f, activated[f], r.own, eips);
    }

    /** EnableEIP: new entries for the one interpreter, new prices for all of the fork. */
    method EnableEip(eip: Eip, i: Interpreter, ghost before: seq<Eip>) returns (r: Interpreter)
      requires Valid() && AddedBy(i.own, before)
      modifies this
      ensures Valid() && activated == old(activated)[i.fork := old(activated)[i.fork] + [eip]]
      ensures r.fork == i.fork && AddedBy(r.own, before + [eip])
    {
      var table := shared[i.fork];
      SharedStep(i.fork, activated[i.fork], eip);
      Adds(i.own, table, before, eip);
      shared := shared[i.fork := Repriced(eip, table)];
      activated := activated[i.fork := activated[i.fork] + [eip]];
      r := Interpreter(i.fork, i.own + NewEntries(eip, table));
    }

    /** Whatever interpreters come after it, an interpreter's table can be run on exactly as long as its fork is London
        or later or EIP-2929 has not been activated on the fork by anybody. */
    method Run(f: Fork, eips: seq<Eip>, others: seq<(Fork, seq<Eip>)>) returns (r: Interpreter)
      requires Valid()
      modifies this
      ensures Valid() && r.fork == f && AddedBy(r.own, eips)
      ensures TableOk(TableOf(r)) <==> (f == LondonFork || f == MergeFork || !(
        || Eip2929 in old(activated)[f] || Eip2929 in eips
        || exists k :: 0 <= k < |others| && others[k].0 == f && Eip2929 in others[k].1))
    {
      r := NewInterpreter(f, eips);
      for k := 0 to |others|
        invariant Valid()
        invariant Eip2929 in activated[f] <==>
          || Eip2929 in old(activated)[f] || Eip2929 in eips
          || exists j :: 0 <= j < k && others[j].0 == f && Eip2929 in others[j].1
      {
        var _ := NewInterpreter(others[k].0, others[k].1);
      }
      TableOkIff(f, activated[f], r.own, eips);
    }
  }

  /** What activating an EIP writes into a fork's table. */
  function Repriced(eip: Eip, table: JumpTable): JumpTable
  {
    seq(256, op requires 0 <= op < 256 => EnableShared(eip, op, table[op]))
  }

  /** What it adds to the interpreter's own entries. */
  function NewEntries(eip: Eip, table: JumpTable): map<Byte, Operation>
  {
    map op: Byte | 0 <= op < 256 && Assigns(eip, op) :: Enable(eip, op, table[op])
  }

  lemma SharedStep(f: Fork, history: seq<Eip>, eip: Eip)
    ensures Repriced(eip, SharedTable(f, history)) == SharedTable(f, history + [eip])
  {
    assert (history + [eip])[..|history|] == history;
    forall op: Byte
      ensures SharedOp(f, history + [eip], op) == EnableShared(eip, op, SharedOp(f, history, op))
    {
    }
  }

  lemma Adds(own: map<Byte, Operation>, table: JumpTable, eips: seq<Eip>, eip: Eip)
    requires AddedBy(own, eips)
    ensures AddedBy(own + NewEntries(eip, table), eips + [eip])
  {
    var added, more := NewEntries(eip, table), eips + [eip];
    forall op | op in added
      ensures SlotOk(op, added[op]) && !added[op].gas.CallGas?
    {
      assert Assigns(eip, op);
    }
    forall op: Byte
      ensures op in own + added <==> exists k :: 0 <= k < |more| && Assigns(more[k], op)
    {
      if op in own {
        var k :| 0 <= k < |eips| && Assigns(eips[k], op);
        assert Assigns(more[k], op);
      }
      if op in added {
        assert Assigns(more[|eips|], op);
      }
    }
  }
}
