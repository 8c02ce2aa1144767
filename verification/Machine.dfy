/** The virtual machine: gas accounting, instructions that reach the state, nested frames and the run loop. */
module Machine {
  import opened Numbers
  import opened Memory
  import opened Stacks
  import opened CodeAnalysis
  import opened Contracts
  import opened JumpTables
  import opened StorageGas
  import opened StateDB
  import opened GasTable
  import opened Instructions

  /** The words that a number of bytes takes. */
  function Words(size: nat): nat { (size + 31) / 32 }

  /** What a gas function charges for the data an instruction handles, besides memory expansion. */
  function DataGas(g: DynamicGas, size: Word): nat
    requires g.MemoryOnly? || g.Copier? || g.WordHash? || g.LogData?
  {
    match g
    case MemoryOnly => 0
    case Copier(_) => 3 * Words(size)
    case WordHash(_) => 6 * Words(size)
    case LogData(n) => 375 + 375 * n + 8 * size
  }

  /** The price of growing the memory of a frame. */
  function Growth(length: nat, size: nat): nat
  {
    MemFeeMonotone(length / 32, Max(length, size) / 32);
    MemFee(Max(length, size) / 32) - MemFee(length / 32)
  }

  /** A size in whole words. */
  function RoundUp(size: nat): nat { 32 * Words(size) }

  /** What a call costs besides the gas it gets. */
  function CallBase(w: World, kind: CallKind, access: bool, data: seq<Word>, fee: nat): nat
    requires |data| >= Inspects(CallGas(kind, access))
  {
    var addr := ToAddress(BackOf(data, 1));
    CallSurcharge(w, kind, addr, CallValue(kind, data)) + fee + (if access && addr !in w.accessAddrs then COLD_CALL else 0)
  }

  /** The exact price of an instruction beyond its constant gas, in unbounded numbers. */
  function Owed(g: DynamicGas, w: World, eip150: bool, self: Address, data: seq<Word>, gas: nat, fee: nat): nat
    requires Inspects(g) <= |data|
  {
    match g
    case NoGas => 0
    case MemoryOnly => fee
    case Copier(_) | WordHash(_) | LogData(_) => fee + DataGas(g, BackOf(data, Inspects(g) - 1))
    case ExtCodeCopy2929 => fee + DataGas(Copier(3), BackOf(data, 3)) + AccountGas(w, ToAddress(BackOf(data, 0))).cost
    case ExpBytes(perByte) => perByte * ByteLength(BackOf(data, 1)) + 10
    case CallGas(kind, access) =>
      var base := CallBase(w, kind, access, data, fee);
      base + CallShare(eip150, gas, base, BackOf(data, 0))
    case Store(s) => StorePrice(s, w, Slot(self, BackOf(data, 0)), BackOf(data, 1))
    case SLoad2929 => SLoadGas(w, Slot(self, BackOf(data, 0))).cost
    case Account2929 => AccountGas(w, ToAddress(BackOf(data, 0))).cost
    case SelfDestructGas => GasTable.SelfDestructGas(w, eip150, self, ToAddress(BackOf(data, 0))).cost
    case SelfDestruct2929(refunds) => SelfDestructGas2929(w, refunds, self, ToAddress(BackOf(data, 0))).cost
  }

  /** The gas function puts a price on the instruction at all: the memory is not too large, the data has a
      64-bit size, and a write has enough gas left. */
  predicate Priceable(g: DynamicGas, data: seq<Word>, gas: nat, memorySize: nat)
    requires Inspects(g) <= |data|
  {
    && memorySize <= MAX_MEMORY
    && (g.Copier? || g.WordHash? || g.LogData? ==> IsUint64(BackOf(data, Inspects(g) - 1)))
    && (g.ExtCodeCopy2929? ==> IsUint64(BackOf(data, 3)))
    && (g.Store? && HasSentry(g.schedule) ==> gas > SENTRY)
  }

  /** A write that panics: neither its slot nor its contract is in an access list. */
  predicate Panics(g: DynamicGas, w: World, self: Address, data: seq<Word>, gas: nat)
    requires Inspects(g) <= |data|
  {
    && g.Store? && UsesAccessList(g.schedule) && gas > SENTRY
    && Slot(self, BackOf(data, 0)) !in w.accessSlots && self !in w.accessAddrs
  }

  /** A gas function's answer is right: the gas there is covers it exactly when there is a price and that is
      covered, and then the answer is the price. */
  predicate PriceIs(g: DynamicGas, w: World, eip150: bool, self: Address, data: seq<Word>, gas: nat, length: nat,
                   size: nat, cost: nat, ok: bool)
    requires Inspects(g) <= |data|
  {
    var owed := Owed(g, w, eip150, self, data, gas, Growth(length, size));
    && (ok && cost <= gas <==> Priceable(g, data, gas, size) && owed <= gas)
    && (ok && cost <= gas ==> cost == owed)
  }

  /** How the checks after the constant gas end, from the stack, the gas and the length of the memory alone. */
  function DynamicVerdict(op: Operation, w: World, eip150: bool, self: Address, data: seq<Word>, gas: nat, length: nat)
    : (r: Error)
    requires EntryOk(op) && |data| >= op.minStack
    ensures r == NoError || r == OutOfGas || r == GasUintOverflow || r == Panicked
    ensures r == Panicked ==> op.gas.Store? && UsesAccessList(op.gas.schedule) && self !in w.accessAddrs
  {
    var need := MemSize(op.memory, data);
    var size := RoundUp(need.0);
    if need.1 || size > MAX_UINT64 then GasUintOverflow
    else if Panics(op.gas, w, self, data, gas) then Panicked
    else if Priceable(op.gas, data, gas, size) && Owed(op.gas, w, eip150, self, data, gas, Growth(length, size)) <= gas
    then NoError
    else OutOfGas
  }

  /** What a charged instruction has paid beyond its constant gas, and the length of the memory it has. */
  predicate Paid(op: Operation, w: World, eip150: bool, self: Address, data: seq<Word>, gas: int, length: nat,
                 left: nat, grown: nat)
    requires EntryOk(op)
  {
    && |data| >= op.minStack && gas >= 0
    && var size := RoundUp(MemSize(op.memory, data).0);
      && grown == Max(length, size)
      && left == gas - Owed(op.gas, w, eip150, self, data, gas, Growth(length, size))
  }

  /** A call without the access-list wrapper is priced right: the gas there is covers the sum exactly when it covers the
      base cost and the share the call is due, and then that is its share. */
  predicate CallPriced(kind: CallKind, w: World, eip150: bool, data: seq<Word>, gas: nat, length: nat, size: nat, cost: nat,
                       share: nat, ok: bool)
    requires |data| >= Inspects(CallGas(kind, false))
  {
    var base := CallBase(w, kind, false, data, Growth(length, size));
    if size > MAX_MEMORY then !ok
    else
      && (ok ==> cost == base + share)
      && (ok && cost <= gas <==> base + CallShare(eip150, gas, base, BackOf(data, 0)) <= gas)
      && (ok && cost <= gas ==> share == CallShare(eip150, gas, base, BackOf(data, 0)))
  }

  /** What a call costs splits into its base cost and its share, and if it can be paid the share is the one due. */
  predicate ShareIs(g: DynamicGas, w: World, eip150: bool, data: seq<Word>, gas: nat, length: nat, size: nat, cost: nat, share: nat)
    requires g.CallGas? && |data| >= Inspects(g)
  {
    var base := CallBase(w, g.kind, g.access, data, Growth(length, size));
    && cost == base + share
    && (cost <= gas ==> share == CallShare(eip150, gas, base, BackOf(data, 0)))
  }

  lemma WarmCall(g: DynamicGas, w: World, eip150: bool, self: Address, data: seq<Word>, gas: nat, length: nat, size: nat,
                  cost: nat, share: nat, ok: bool)
    requires g.CallGas? && |data| >= Inspects(g) && (g.access ==> ToAddress(BackOf(data, 1)) in w.accessAddrs)
    requires CallPriced(g.kind, w, eip150, data, gas, length, size, cost, share, ok)
    ensures PriceIs(g, w, eip150, self, data, gas, length, size, cost, ok)
    ensures ok ==> ShareIs(g, w, eip150, data, gas, length, size, cost, share)
  {
  }

  lemma ColdCall(g: DynamicGas, w: World, eip150: bool, self: Address, data: seq<Word>, gas: nat, length: nat, size: nat,
                  cost: nat, share: nat, ok: bool)
    requires g.CallGas? && |data| >= Inspects(g) && g.access && ToAddress(BackOf(data, 1)) !in w.accessAddrs && eip150
    requires gas >= COLD_CALL && CallPriced(g.kind, w.AddAddressToAccessList(ToAddress(BackOf(data, 1))), eip150, data,
                                            gas - COLD_CALL, length, size, cost, share, ok)
    ensures PriceIs(g, w, eip150, self, data, gas, length, size, if ok then cost + COLD_CALL else cost, ok)
    ensures ok ==> ShareIs(g, w, eip150, data, gas, length, size, cost + COLD_CALL, share)
  {
  }

  lemma ColdCallUnpaid(g: DynamicGas, w: World, eip150: bool, self: Address, data: seq<Word>, gas: nat, length: nat, size: nat)
    requires g.CallGas? && |data| >= Inspects(g) && g.access && ToAddress(BackOf(data, 1)) !in w.accessAddrs
    requires gas < COLD_CALL
    ensures PriceIs(g, w, eip150, self, data, gas, length, size, 0, false)
  {
  }

  lemma Decides(op: Operation, w: World, eip150: bool, self: Address, data: seq<Word>, gas: nat, length: nat, size: nat,
                cost: nat, ok: bool)
    requires EntryOk(op) && |data| >= op.minStack && !Panics(op.gas, w, self, data, gas)
    requires !MemSize(op.memory, data).1 && size == RoundUp(MemSize(op.memory, data).0) <= MAX_UINT64
    requires PriceIs(op.gas, w, eip150, self, data, gas, length, size, cost, ok)
    ensures DynamicVerdict(op, w, eip150, self, data, gas, length) == if ok && cost <= gas then NoError else OutOfGas
    ensures ok && cost <= gas ==> Paid(op, w, eip150, self, data, gas, length, gas - cost, Max(length, size))
  {
  }

  lemma DecidesPanic(op: Operation, w: World, eip150: bool, self: Address, data: seq<Word>, gas: nat, length: nat)
    requires EntryOk(op) && |data| >= op.minStack && Panics(op.gas, w, self, data, gas)
    requires !MemSize(op.memory, data).1 && RoundUp(MemSize(op.memory, data).0) <= MAX_UINT64
    ensures DynamicVerdict(op, w, eip150, self, data, gas, length) == Panicked
  {
  }

  /** A gas function that does not price memory belongs to an instruction that uses none. */
  lemma EntryMemory(op: Operation, data: seq<Word>)
    requires EntryOk(op) && |data| >= op.minStack
    ensures Inspects(op.gas) <= |data| && (!PricesMemory(op.gas) ==> MemSize(op.memory, data).0 == 0)
  {
  }

  /** Memory of the size asked for holds all that the instruction touches. */
  lemma MemoryThere(op: Operation, data: seq<Word>, length: nat)
    requires EntryOk(op) && |data| >= op.minStack
    requires !MemSize(op.memory, data).1 && MemSize(op.memory, data).0 <= length
    ensures |data| >= Pops(op.exec) && StackDeepEnough(Touches(op.exec), data) && Reachable(Touches(op.exec), data, length)
  {
    MemSizeReaches(op.memory, data, length);
  }

  lemma FlatPrice(g: DynamicGas, w: World, eip150: bool, self: Address, data: seq<Word>, gas: nat, length: nat)
    requires (g.NoGas? || g.ExpBytes?) && Inspects(g) <= |data|
    ensures var cost := if g.NoGas? then 0 else g.perByte * ByteLength(BackOf(data, 1)) + 10;
      PriceIs(g, w, eip150, self, data, gas, length, 0, cost, true) && cost >= LeastGas(g)
  {
  }

  /** A sum that does not fit 64 bits is more than the gas there is. */
  lemma MemoryPrice(g: DynamicGas, w: World, eip150: bool, self: Address, data: seq<Word>, gas: Uint64, length: nat,
                    size: nat, cost: nat, ok: bool)
    requires g.MemoryOnly? || g.Copier? || g.WordHash? || g.LogData?
    requires Inspects(g) <= |data|
    requires ok <==>
      && size <= MAX_MEMORY && (g.MemoryOnly? || IsUint64(BackOf(data, Inspects(g) - 1)))
      && Growth(length, size) + DataGas(g, if g.MemoryOnly? then 0 else BackOf(data, Inspects(g) - 1)) <= MAX_UINT64
    requires ok ==>
      cost == Growth(length, size) + DataGas(g, if g.MemoryOnly? then 0 else BackOf(data, Inspects(g) - 1))
    ensures PriceIs(g, w, eip150, self, data, gas, length, size, cost, ok)
    ensures ok ==> cost >= LeastGas(g)
  {
  }

  /** memoryGasCost, memoryCopierGas, gasKeccak256, gasCreate2 and makeGasLog: checked sums only. */
  method MemoryGas(g: DynamicGas, stack: Stack, mem: Memory, memorySize: Uint64) returns (cost: Uint64, ok: bool)
    requires g.MemoryOnly? || g.Copier? || g.WordHash? || (g.LogData? && g.topics <= 4)
    requires Inspects(g) <= |stack.data| && mem.Valid() && memorySize % 32 == 0
    modifies mem`lastGasCost, mem`fees
    ensures ok ==> mem.Charged(memorySize)
    ensures ok <==>
      && memorySize <= MAX_MEMORY && (g.MemoryOnly? || IsUint64(stack.Back(Inspects(g) - 1)))
      && Growth(|mem.store|, memorySize) + DataGas(g, if g.MemoryOnly? then 0 else stack.Back(Inspects(g) - 1)) <= MAX_UINT64
    ensures ok ==>
      cost == Growth(|mem.store|, memorySize) + DataGas(g, if g.MemoryOnly? then 0 else stack.Back(Inspects(g) - 1))
  {
    var fee, fits := mem.GasCost(memorySize);
    if !fits {
      return 0, false;
    }
    assert fee == Growth(|mem.store|, memorySize);
    if g.MemoryOnly? {
      return fee, true;
    }
    var size := stack.Back(Inspects(g) - 1);
    if !IsUint64(size) {
      return 0, false;
    }
    if g.LogData? {
      var a := SafeAdd(fee, 375);
      var b := SafeAdd(a.0, g.topics * 375);
      var d := SafeMul(size, 8);
      var sum := SafeAdd(b.0, d.0);
      return sum.0, !a.1 && !b.1 && !d.1 && !sum.1;
    }
    assert ToWordSize(size) == Words(size);
    var d := SafeMul(ToWordSize(size), if g.Copier? then 3 else 6);
    var sum := SafeAdd(fee, d.0);
    return sum.0, !d.1 && !sum.1;
  }

  class EVM {
    const table: JumpTable
    const eip150: bool
    const homestead: bool
    const london: bool
    const precompiles: set<Address>
    var world: World
    var depth: nat
    var readOnly: bool
    var returnData: Slice
    var callGasTemp: Uint64

    /** Whether a contract creation has run its init code: create never puts the new address in the access list. */
    ghost var created: bool

    constructor (table: JumpTable, eip150: bool, homestead: bool, london: bool, precompiles: set<Address>, world: World)
      requires TableOk(table) && (UsesAccessLists(table) ==> eip150) && world.Consistent()
      ensures Valid() && this.world == world && depth == 0 && !readOnly && !created
      ensures this.table == table && this.london == london && this.homestead == homestead
    {
      this.table, this.eip150, this.homestead, this.london := table, eip150, homestead, london;
      this.precompiles, this.world := precompiles, world;
      depth, readOnly, returnData, callGasTemp, created := 0, false, [], 0, false;
    }

    ghost predicate Valid()
      reads this
    {
      && TableOk(table)
      && (UsesAccessLists(table) ==> eip150)
      && world.Consistent()
    }

    /** The refund counter covers every slot cleared so far. */
    ghost predicate Covered()
      reads this`world
    {
      world.Covers(Clears(table))
    }

    /** What every execution keeps, whether or not it succeeds. */
    twostate predicate Kept()
      reads this
    {
      depth == old(depth) && readOnly == old(readOnly) && (old(created) ==> created)
    }

    // ----- gas -----

    /** gasCall, gasCallCode, gasDelegateCall and gasStaticCall. The gas there is covers the sum exactly when it
        covers the base cost and the share the call is due, and then that is its share. */
    method PlainCallGas(kind: CallKind, contract: Contract, stack: Stack, mem: Memory, memorySize: Uint64)
      returns (cost: Uint64, ok: bool)
      requires |stack.data| >= Inspects(CallGas(kind, false)) && mem.Valid() && memorySize % 32 == 0
      modifies this`callGasTemp, mem`lastGasCost, mem`fees
      ensures ok ==> mem.Charged(memorySize) && memorySize <= MAX_MEMORY
      ensures CallPriced(kind, world, eip150, stack.data, contract.gas, |mem.store|, memorySize, cost, callGasTemp, ok)
      ensures ok && eip150 && contract.gas + COLD_CALL <= MAX_UINT64 ==> cost + COLD_CALL <= MAX_UINT64
    {
      hide PriceCall, CallSurcharge, CallShare;
      var surcharge := CallSurcharge(world, kind, ToAddress(stack.Back(1)), CallValue(kind, stack.data));
      var memoryGas, fits := mem.GasCost(memorySize);
      if !fits {
        return 0, false;
      }
      assert memoryGas == Growth(|mem.store|, memorySize);
      var price := PriceCall(eip150, contract.gas, surcharge, memoryGas, stack.Back(0));
      callGasTemp := price.share;
      return price.cost, price.ok;
    }

    /** makeCallVariantGasCallEIP2929: a cold target is charged first, so that the 63/64 rule sees what is
        left, and then folded into the sum that the caller charges. */
    method CallGasCost(g: DynamicGas, contract: Contract, stack: Stack, mem: Memory, memorySize: Uint64)
      returns (cost: Uint64, ok: bool)
      requires g.CallGas? && (g.access ==> eip150)
      requires |stack.data| >= Inspects(g) && mem.Valid() && memorySize % 32 == 0
      modifies this`callGasTemp, this`world, mem`lastGasCost, mem`fees, contract`gas
      ensures OnlyTouches(old(world), world)
      ensures g.access ==> ToAddress(stack.Back(1)) in world.accessAddrs
      ensures contract.gas <= old(contract.gas)
      ensures ok ==> contract.gas == old(contract.gas) && mem.Charged(memorySize) && memorySize <= MAX_MEMORY
      ensures PriceIs(g, old(world), eip150, contract.self, stack.data, old(contract.gas), |mem.store|, memorySize, cost, ok)
      ensures ok ==> ShareIs(g, old(world), eip150, stack.data, contract.gas, |mem.store|, memorySize, cost, callGasTemp)
    {
      hide Owed, PriceIs, ShareIs, CallPriced, CallBase, Growth;
      ghost var w, gas := world, contract.gas;
      var addr := ToAddress(stack.Back(1));
      var warm := addr in world.accessAddrs;
      if g.access && !warm {
        world := world.AddAddressToAccessList(addr);
        var paid := contract.UseGas(COLD_CALL);
        if !paid {
          ColdCallUnpaid(g, w, eip150, contract.self, stack.data, gas, |mem.store|, memorySize);
          return 0, false;
        }
      }
      cost, ok := PlainCallGas(g.kind, contract, stack, mem, memorySize);
      if !g.access || warm {
        WarmCall(g, w, eip150, contract.self, stack.data, gas, |mem.store|, memorySize, cost, callGasTemp, ok);
        return;
      }
      ColdCall(g, w, eip150, contract.self, stack.data, gas, |mem.store|, memorySize, cost, callGasTemp, ok);
      if ok {
        contract.gas := contract.gas + COLD_CALL;
        cost := Wrap(cost + COLD_CALL);
      }
    }

    /** The gas functions that look at the state but not at memory. */
    method StateGas(g: DynamicGas, contract: Contract, stack: Stack, ghost length: nat) returns (cost: Uint64, err: Error)
      requires g.Store? || g.SLoad2929? || g.Account2929? || g.SelfDestructGas? || g.SelfDestruct2929?
      requires |stack.data| >= Inspects(g) && Covered()
      requires g.Store? ==> Known(g.schedule) && g.schedule.clears == Clears(table)
      modifies this`world
      ensures SameState(old(world), world) && world.existing == old(world).existing
      ensures old(world).accessAddrs <= world.accessAddrs
      ensures err == NoError || err == OutOfGas || err == Panicked
      ensures err == Panicked <==> Panics(g, old(world), contract.self, stack.data, contract.gas)
      ensures err != Panicked ==>
        PriceIs(g, old(world), eip150, contract.self, stack.data, contract.gas, length, 0, cost, err == NoError)
      ensures err == NoError ==> cost >= LeastGas(g)
      ensures err == NoError && !g.Store? ==> Covered()
      ensures err == NoError && g.Store? ==>
        world.SetState(Slot(contract.self, stack.Back(0)), stack.Back(1)).Covers(Clears(table))
    {
      if g.Store? {
        cost, err := WriteGas(g, contract, stack, length);
      } else {
        cost := TouchGas(g, contract, stack, length);
        err := NoError;
      }
    }

    /** The gas functions of SSTORE. */
    method WriteGas(g: DynamicGas, contract: Contract, stack: Stack, ghost length: nat) returns (cost: Uint64, err: Error)
      requires g.Store? && |stack.data| >= 2 && Covered()
      requires Known(g.schedule) && g.schedule.clears == Clears(table)
      modifies this`world
      ensures SameState(old(world), world) && world.existing == old(world).existing
      ensures old(world).accessAddrs <= world.accessAddrs
      ensures err == NoError || err == OutOfGas || err == Panicked
      ensures err == Panicked <==> Panics(g, old(world), contract.self, stack.data, contract.gas)
      ensures err != Panicked ==>
        PriceIs(g, old(world), eip150, contract.self, stack.data, contract.gas, length, 0, cost, err == NoError)
      ensures err == NoError ==> cost >= LeastGas(g)
      ensures err == NoError ==> world.SetState(Slot(contract.self, stack.Back(0)), stack.Back(1)).Covers(Clears(table))
    {
      var slot := Slot(contract.self, stack.Back(0));
      StoreGasSound(g.schedule, world, contract.gas, slot, stack.Back(1));
      match StoreGas(g.schedule, world, contract.gas, slot, stack.Back(1)) {
        case Refused => return 0, OutOfGas;
        case Fault => return 0, Panicked;
        case Charged(w, c) =>
          world := w;
          return c, NoError;
      }
    }

    /** Those that read the state. */
    method TouchGas(g: DynamicGas, contract: Contract, stack: Stack, ghost length: nat) returns (cost: Uint64)
      requires g.SLoad2929? || g.Account2929? || g.SelfDestructGas? || g.SelfDestruct2929?
      requires |stack.data| >= 1 && Covered()
      modifies this`world
      ensures SameState(old(world), world) && world.existing == old(world).existing
      ensures old(world).accessAddrs <= world.accessAddrs
      ensures PriceIs(g, old(world), eip150, contract.self, stack.data, contract.gas, length, 0, cost, true)
      ensures cost >= LeastGas(g) && Covered()
    {
      var top := stack.Back(0);
      var outcome;
      match g {
        case SLoad2929 =>
          outcome := SLoadGas(world, Slot(contract.self, top));
        case Account2929 =>
          outcome := AccountGas(world, ToAddress(top));
        case SelfDestructGas =>
          outcome := GasTable.SelfDestructGas(world, eip150, contract.self, ToAddress(top));
        case SelfDestruct2929(refunds) =>
          outcome := SelfDestructGas2929(world, refunds, contract.self, ToAddress(top));
      }
      TouchCovers(world, outcome.world, Clears(table));
      cost := outcome.cost;
      world := outcome.world;
    }

    /** gasExtCodeCopyEIP2929. */
    method ExtCodeCopyGas(contract: Contract, stack: Stack, mem: Memory, memorySize: Uint64) returns (cost: Uint64, ok: bool)
      requires |stack.data| >= 4 && mem.Valid() && memorySize % 32 == 0
      modifies this`world, mem`lastGasCost, mem`fees
      ensures OnlyTouches(old(world), world)
      ensures ok ==> mem.Charged(memorySize) && ToAddress(stack.Back(0)) in world.accessAddrs
      ensures PriceIs(ExtCodeCopy2929, old(world), eip150, contract.self, stack.data, contract.gas, |mem.store|, memorySize,
                      cost, ok)
    {
      cost, ok := MemoryGas(Copier(3), stack, mem, memorySize);
      if ok {
        var access := AccountGas(world, ToAddress(stack.Back(0)));
        world := access.world;
        var sum := SafeAdd(cost, access.cost);
        cost, ok := sum.0, !sum.1;
      }
    }

    /** The gas functions that look neither at the state nor at calls. */
    method FrameGas(g: DynamicGas, contract: Contract, stack: Stack, mem: Memory, memorySize: Uint64)
      returns (cost: Uint64, ok: bool)
      requires g.NoGas? || g.ExpBytes? || g.MemoryOnly? || g.Copier? || g.WordHash? || g.LogData?
      requires Inspects(g) <= |stack.data| && (g.LogData? ==> g.topics <= 4) && (g.ExpBytes? ==> g.perByte <= 50)
      requires mem.Valid() && memorySize % 32 == 0 && (!PricesMemory(g) ==> memorySize == 0)
      modifies mem`lastGasCost, mem`fees
      ensures ok ==> mem.Charged(memorySize) && cost >= LeastGas(g)
      ensures PriceIs(g, world, eip150, contract.self, stack.data, contract.gas, |mem.store|, memorySize, cost, ok)
    {
      if g.NoGas? {
        FlatPrice(g, world, eip150, contract.self, stack.data, contract.gas, |mem.store|);
        return 0, true;
      } else if g.ExpBytes? {
        FlatPrice(g, world, eip150, contract.self, stack.data, contract.gas, |mem.store|);
        cost := ExpGas(g.perByte, stack.Back(1));
        ok := true;
      } else {
        cost, ok := MemoryGas(g, stack, mem, memorySize);
        MemoryPrice(g, world, eip150, contract.self, stack.data, contract.gas, |mem.store|, memorySize, cost, ok);
      }
    }

    /** The price of an instruction covers what a call will get, and the refund counter is right for the write to come, or
        for the slots as they are. */
    ghost predicate Armed(g: DynamicGas, self: Address, data: seq<Word>, cost: int)
      reads this`world, this`callGasTemp
    {
      && Inspects(g) <= |data| && cost >= LeastGas(g)
      && (if g.Store? then world.SetState(Slot(self, BackOf(data, 0)), BackOf(data, 1)).Covers(Clears(table)) else Covered())
      && (g.CallGas? ==>
            && cost >= callGasTemp + (if CallValue(g.kind, data) != 0 then CALL_VALUE_TRANSFER else 0)
            && (g.access ==> ToAddress(BackOf(data, 1)) in world.accessAddrs))
    }

    /** The gas function of a table entry. */
    method DynamicGas(g: DynamicGas, contract: Contract, stack: Stack, mem: Memory, memorySize: Uint64)
      returns (cost: Uint64, err: Error)
      requires world.Consistent() && Covered() && mem.Valid()
      requires GasOk(g, |stack.data|, Clears(table), eip150)
      requires memorySize % 32 == 0 && (!PricesMemory(g) ==> memorySize == 0)
      modifies this`world, this`callGasTemp, mem`lastGasCost, mem`fees, contract`gas
      ensures Follows(old(world), world, true) && world.Consistent()
      ensures err == NoError || err == OutOfGas || err == Panicked
      ensures err == Panicked <==> Panics(g, old(world), contract.self, stack.data, old(contract.gas))
      ensures err != Panicked ==>
        PriceIs(g, old(world), eip150, contract.self, stack.data, old(contract.gas), |mem.store|, memorySize, cost, err == NoError)
      ensures contract.gas <= old(contract.gas)
      ensures err == NoError ==> contract.gas == old(contract.gas) && mem.Charged(memorySize)
      ensures err == NoError ==> Armed(g, contract.self, stack.data, cost)
    {
      var ok;
      if g.CallGas? {
        cost, ok := CallGasCost(g, contract, stack, mem, memorySize);
        TouchCovers(old(world), world, Clears(table));
      } else if g.ExtCodeCopy2929? {
        cost, ok := ExtCodeCopyGas(contract, stack, mem, memorySize);
        TouchCovers(old(world), world, Clears(table));
      } else if g.Store? || g.SLoad2929? || g.Account2929? || g.SelfDestructGas? || g.SelfDestruct2929? {
        cost, err := StateGas(g, contract, stack, |mem.store|);
        return;
      } else {
        cost, ok := FrameGas(g, contract, stack, mem, memorySize);
      }
      err := if ok then NoError else OutOfGas;
    }

    // ----- instructions that reach the state -----

    method OpSstore(contract: Contract, stack: Stack) returns (err: Error)
      requires Valid() && |stack.data| >= 2
      requires world.SetState(Slot(contract.self, stack.Back(0)), stack.Back(1)).Covers(Clears(table))
      modifies this`world, stack
      ensures Valid()
      ensures err == if readOnly then WriteProtection else NoError
      ensures err == NoError ==> Covered() && Follows(old(world), world, readOnly)
      ensures err == NoError ==> stack.data == old(stack.data)[..|old(stack.data)| - 2]
      ensures err == NoError ==>
        world == old(world).SetState(Slot(contract.self, old(stack.Back(0))), old(stack.Back(1)))
    {
      if readOnly {
        return WriteProtection;
      }
      var loc := stack.Pop();
      var val := stack.Pop();
      world := world.SetState(Slot(contract.self, loc), val);
      err := NoError;
    }

    method OpLog(topics: nat, contract: Contract, stack: Stack, mem: Memory) returns (err: Error)
      requires Valid() && Covered() && |stack.data| >= topics + 2
      requires mem.Valid() && Fits(stack.Back(0), stack.Back(1), |mem.store|)
      modifies this`world, stack
      ensures Valid()
      ensures err == if readOnly then WriteProtection else NoError
      ensures err == NoError ==>
        && world == old(world).AddLog(LogOf(contract.self, topics, old(stack.data), mem.store)) && Covered()
        && stack.data == old(stack.data)[..|old(stack.data)| - topics - 2]
    {
      if readOnly {
        return WriteProtection;
      }
      var l := PopLog(contract.self, topics, stack, mem);
      CoversFrame(world, world.AddLog(l), Clears(table));
      world := world.AddLog(l);
      err := NoError;
    }

    method OpSelfdestruct(contract: Contract, stack: Stack) returns (err: Error)
      requires Valid() && Covered() && |stack.data| >= 1
      modifies this`world, stack
      ensures Valid()
      ensures err == if readOnly then WriteProtection else StopToken
      ensures err == StopToken ==> Covered() && Follows(old(world), world, readOnly)
      ensures err == StopToken ==>
        var heir := ToAddress(old(stack.Back(0)));
        && world.Balance(contract.self) == 0
        && (heir != contract.self ==> world.Balance(heir) == old(world).Balance(heir) + old(world).Balance(contract.self))
        && (old(world).Exist(contract.self) ==> contract.self in world.suicided)
        && world == old(world).AddBalance(heir, old(world).Balance(contract.self)).Suicide(contract.self)
        && stack.data == old(stack.data)[..|old(stack.data)| - 1]
    {
      if readOnly {
        return WriteProtection;
      }
      var beneficiary := stack.Pop();
      SelfDestructFollows(world, contract.self, ToAddress(beneficiary), Clears(table));
      world := world.AddBalance(ToAddress(beneficiary), world.Balance(contract.self)).Suicide(contract.self);
      err := StopToken;
    }

    /** How an instruction that neither calls nor creates can end: if it goes on, the stack has the height it should have
        and the program counter, incremented, is at an instruction. */
    ghost predicate Plain(e: Exec, contract: Contract, mem: Memory, next: Uint64, height: nat, height': nat, err: Error)
      reads this, contract, contract.jumpdests, mem
    {
      && Valid() && contract.Valid() && mem.Valid() && InFrame(err) && err != Panicked
      && (err == NoError ==>
            height' == height - Pops(e) + Pushes(e) && AtInstruction(contract.code, Wrap(next + 1)) && !Halts(e))
    }

    /** opSload, opExtCodeCopy and opReturnDataCopy. */
    method ExecuteRead(e: Exec, contract: Contract, stack: Stack, mem: Memory, pc: Uint64) returns (err: Error)
      requires e.SLoad? || e.ExtCodeCopy? || e.ReturnDataCopy?
      requires Valid() && Ready(e, contract, stack, mem) && FallsThrough(contract.code, pc, e)
      modifies stack, mem`store
      ensures err == if e.ReturnDataCopy? && old(stack.Back(1)) + old(stack.Back(2)) > |returnData| then ReturnDataOutOfBounds
                     else NoError
      ensures Plain(e, contract, mem, pc, |old(stack.data)|, |stack.data|, err)
      ensures Executed(e, contract, pc, world, world, returnData, old(stack.data), old(mem.store), stack.data, mem.store, pc, [],
                       err)
    {
      err := NoError;
      if e.SLoad? {
        stack.SetTop(world.State(Slot(contract.self, stack.Back(0))));
      } else if e.ExtCodeCopy? {
        OpExtCodeCopy(stack, mem, world.Code(ToAddress(stack.Back(0))));
      } else {
        err := OpReturnDataCopy(stack, mem, returnData);
      }
    }

    /** opSstore, makeLog and opSelfdestruct: refused under write protection. */
    method ExecuteWrite(e: Exec, contract: Contract, stack: Stack, mem: Memory, pc: Uint64) returns (err: Error)
      requires e.SStore? || e.Log? || e.SelfDestruct?
      requires Valid() && Ready(e, contract, stack, mem) && FallsThrough(contract.code, pc, e)
      requires !e.SStore? ==> Covered()
      requires e.SStore? ==>
        world.SetState(Slot(contract.self, stack.Back(0)), stack.Back(1)).Covers(Clears(table))
      modifies this`world, stack
      ensures Plain(e, contract, mem, pc, |old(stack.data)|, |stack.data|, err)
      ensures readOnly ==> err == WriteProtection
      ensures !readOnly ==>
        err == (if e.SelfDestruct? then StopToken else NoError) && Covered() && Follows(old(world), world, false)
      ensures Executed(e, contract, pc, old(world), world, returnData, old(stack.data), mem.store, stack.data, mem.store, pc, [], err)
    {
      if e.SStore? {
        err := OpSstore(contract, stack);
      } else if e.Log? {
        err := OpLog(e.topics, contract, stack, mem);
      } else {
        err := OpSelfdestruct(contract, stack);
      }
    }

    // ----- frames -----

    /** Nothing went wrong outside the frame: the counter covers the slots and the world only moved as it may. */
    ghost predicate Sound(before: World, protected: bool)
      reads this
    {
      Covered() && Follows(before, world, protected)
    }

    /** A write can only have panicked for want of an access-list entry of its own contract: because the frame
        started without one, because a creation ran, or because calls do not make entries. */
    ghost predicate Explained(self: Address, before: World)
      reads this
    {
      !created && CallsList(table) ==> StoreUsesList(table) && self !in before.accessAddrs
    }

    /** RunPrecompiledContract: the required gas and the output are up to the precompile. */
    method RunPrecompiled(gas: Uint64) returns (ret: Slice, left: Uint64, err: Error)
      ensures left <= gas && (err == NoError || err == OutOfGas || err == PrecompileFailed)
      ensures err == OutOfGas ==> left == 0
    {
      var cost: Uint64 :| 0 <= cost < TWO_64;
      if gas < cost {
        return [], 0, OutOfGas;
      }
      ret := *;
      var failed: bool := *;
      return ret, gas - cost, if failed then PrecompileFailed else NoError;
    }

    /** The code at an address, run in a fresh frame on behalf of `self`. */
    method Enter(addr: Address, self: Address, input: Slice, gas: Uint64, isStatic: bool, jumpdests: Jumpdests)
      returns (ret: Slice, left: Uint64, err: Error)
      requires Valid() && Covered() && depth <= 1024 && jumpdests.Valid()
      modifies this, jumpdests
      ensures Valid() && Kept() && jumpdests.Valid() && left <= gas
      ensures err == NoError ==> Sound(old(world), old(readOnly) || isStatic)
      ensures err == Panicked ==> Explained(self, old(world))
      ensures InFrame(err)
      ensures addr !in precompiles && old(world).Code(addr) == [] ==> Idle(ret, gas, left, err) && world == old(world)
      decreases gas, 4, 0
    {
      if addr in precompiles {
        FollowsItself(world, readOnly || isStatic);
        ret, left, err := RunPrecompiled(gas);
      } else {
        var code := world.Code(addr);
        var contract := new Contract(self, code, HashOf(code), input, gas, jumpdests);
        ghost var fees, size;
        ret, err, fees, size := Run(contract, isStatic);
        left := contract.gas;
      }
    }

    /** What every kind of call returns with: never more gas than it was given; on any error the state is what
        it was, and unless the callee reverted or was never entered, all gas is gone. */
    ghost predicate CallDone(before: World, gas: nat, left: nat, err: Error)
      reads this
    {
      && left <= gas
      && (err == NoError ==> Sound(before, readOnly))
      && (err != NoError && err != Panicked ==> world == before)
      && (err == DepthExceeded || err == InsufficientBalance ==> left == gas)
      && ((err != NoError && err != Reverted && err != DepthExceeded && err != InsufficientBalance) ==> left == 0)
    }

    /** Reverting to a snapshot on error, as Call, CallCode, DelegateCall and StaticCall all end. */
    method Finish(snapshot: World, gas: Uint64, err: Error) returns (left: Uint64)
      modifies this`world
      ensures err == NoError || err == Panicked ==> world == old(world)
      ensures err != NoError && err != Panicked ==> world == snapshot
      ensures left == if err == NoError || err == Reverted then gas else 0
    {
      left := gas;
      if err != NoError && err != Panicked {
        world := snapshot;
      }
      if err != NoError && err != Reverted {
        left := 0;
      }
    }

    method Call(caller: Address, addr: Address, input: Slice, gas: Uint64, value: Word, jumpdests: Jumpdests)
      returns (ret: Slice, left: Uint64, err: Error)
      requires Valid() && Covered() && jumpdests.Valid()
      requires readOnly ==> value == 0
      modifies this, jumpdests
      ensures Valid() && Kept() && jumpdests.Valid()
      ensures CallDone(old(world), gas, left, err)
      ensures err == DepthExceeded <==> depth > 1024
      ensures err == InsufficientBalance <==> depth <= 1024 && old(world).Balance(caller) < value
      ensures depth <= 1024 && value <= old(world).Balance(caller) && addr !in precompiles && old(world).Code(addr) == [] ==>
        Idle(ret, gas, left, err) && world == Arrival(old(world), caller, addr, value, false)
      ensures err == Panicked ==> Explained(addr, old(world))
      decreases gas, 5
    {
      hide TableOk, UsesAccessLists, CallsList, StoreUsesList, Clears, Follows;
      if depth > 1024 {
        return [], gas, DepthExceeded;
      }
      if value != 0 && world.Balance(caller) < value {
        return [], gas, InsufficientBalance;
      }
      var snapshot := world;
      FollowsItself(world, readOnly);
      if !world.Exist(addr) && addr !in precompiles && value == 0 {
        return [], gas, NoError;
      }
      Arrive(caller, addr, value);
      if addr !in precompiles && world.Code(addr) == [] {
        return [], gas, NoError;
      }
      ret, left, err := Proceed(snapshot, addr, input, gas, jumpdests);
    }

    /** The target of a call runs, and a failure goes back to where the call began. */
    method Proceed(snapshot: World, addr: Address, input: Slice, gas: Uint64, jumpdests: Jumpdests)
      returns (ret: Slice, left: Uint64, err: Error)
      requires Valid() && Covered() && depth <= 1024 && jumpdests.Valid()
      requires snapshot.Consistent() && Follows(snapshot, world, readOnly)
      modifies this, jumpdests
      ensures Valid() && Kept() && jumpdests.Valid()
      ensures CallDone(snapshot, gas, left, err) && InFrame(err)
      ensures err == Panicked ==> Explained(addr, snapshot)
      decreases gas, 4, 1
    {
      ghost var entered := world;
      ret, left, err := Enter(addr, addr, input, gas, false, jumpdests);
      if err == NoError {
        FollowsTransitive(snapshot, entered, world, readOnly);
      }
      left := Finish(snapshot, left, err);
    }

    /** The target of a call comes into being if it has to, and is paid. */
    method Arrive(caller: Address, addr: Address, value: Word)
      requires Valid() && Covered() && value <= world.Balance(caller) && (readOnly ==> value == 0)
      modifies this`world
      ensures Valid() && Covered() && Follows(old(world), world, readOnly)
      ensures world == (if old(world).Exist(addr) then old(world) else old(world).CreateAccount(addr)).Transfer(caller, addr, value)
      ensures world.Code(addr) == old(world).Code(addr)
    {
      if !world.Exist(addr) {
        CreateAccountFollows(world, addr, Clears(table));
        world := world.CreateAccount(addr);
      } else {
        FollowsItself(world, readOnly);
      }
      TransferFollows(world, caller, addr, value, Clears(table));
      FollowsTransitive(old(world), world, world.Transfer(caller, addr, value), readOnly);
      world := world.Transfer(caller, addr, value);
    }

    method CallCode(caller: Address, addr: Address, input: Slice, gas: Uint64, value: Word, jumpdests: Jumpdests)
      returns (ret: Slice, left: Uint64, err: Error)
      requires Valid() && Covered() && jumpdests.Valid()
      modifies this, jumpdests
      ensures Valid() && Kept() && jumpdests.Valid()
      ensures CallDone(old(world), gas, left, err)
      ensures err == DepthExceeded <==> depth > 1024
      ensures err == InsufficientBalance <==> depth <= 1024 && old(world).Balance(caller) < value
      ensures depth <= 1024 && value <= old(world).Balance(caller) && addr !in precompiles && old(world).Code(addr) == [] ==>
        Idle(ret, gas, left, err) && world == old(world)
      ensures err == Panicked ==> Explained(caller, old(world))
      decreases gas, 5
    {
      if depth > 1024 {
        return [], gas, DepthExceeded;
      }
      if world.Balance(caller) < value {
        return [], gas, InsufficientBalance;
      }
      var snapshot := world;
      ret, left, err := Enter(addr, caller, input, gas, false, jumpdests);
      left := Finish(snapshot, left, err);
    }

    method DelegateCall(caller: Address, addr: Address, input: Slice, gas: Uint64, jumpdests: Jumpdests)
      returns (ret: Slice, left: Uint64, err: Error)
      requires Valid() && Covered() && jumpdests.Valid()
      modifies this, jumpdests
      ensures Valid() && Kept() && jumpdests.Valid()
      ensures CallDone(old(world), gas, left, err)
      ensures err != InsufficientBalance && (err == DepthExceeded <==> depth > 1024)
      ensures depth <= 1024 && addr !in precompiles && old(world).Code(addr) == [] ==>
        Idle(ret, gas, left, err) && world == old(world)
      ensures err == Panicked ==> Explained(caller, old(world))
      decreases gas, 5
    {
      if depth > 1024 {
        return [], gas, DepthExceeded;
      }
      var snapshot := world;
      ret, left, err := Enter(addr, caller, input, gas, false, jumpdests);
      left := Finish(snapshot, left, err);
    }

    /** A static call leaves balances, nonces, code, storage and logs as they were, whatever it runs. */
    method StaticCall(caller: Address, addr: Address, input: Slice, gas: Uint64, jumpdests: Jumpdests)
      returns (ret: Slice, left: Uint64, err: Error)
      requires Valid() && Covered() && jumpdests.Valid()
      modifies this, jumpdests
      ensures Valid() && Kept() && jumpdests.Valid()
      ensures CallDone(old(world), gas, left, err)
      ensures err != InsufficientBalance && (err == DepthExceeded <==> depth > 1024)
      ensures depth <= 1024 && addr !in precompiles && old(world).Code(addr) == [] ==>
        Idle(ret, gas, left, err) && world == old(world).AddBalance(addr, 0)
      ensures err != Panicked ==> SameState(old(world), world)
      ensures err == Panicked ==> Explained(addr, old(world))
      decreases gas, 5
    {
      if depth > 1024 {
        return [], gas, DepthExceeded;
      }
      var snapshot := world;
      CoversFrame(world, world.AddBalance(addr, 0), Clears(table));
      world := world.AddBalance(addr, 0);
      ghost var entered := world;
      ret, left, err := Enter(addr, addr, input, gas, true, jumpdests);
      if err == NoError {
        FollowsTransitive(snapshot, entered, world, true);
      }
      left := Finish(snapshot, left, err);
    }

    /** create. The new address comes from hashing and is a parameter here. Unless the init code succeeded, at
        most the creator's nonce has changed, except that before Homestead a creation that cannot pay for its
        code keeps its effects. */
    method Create(caller: Address, address: Address, code: Slice, salted: bool, gas: Uint64, value: Word, jumpdests: Jumpdests)
      returns (ret: Slice, left: Uint64, err: Error)
      requires Valid() && Covered() && jumpdests.Valid() && !readOnly
      modifies this, jumpdests
      ensures Valid() && Kept() && jumpdests.Valid() && left <= gas
      ensures err != Panicked ==> Sound(old(world), false)
      ensures (err != NoError && err != Panicked) && (homestead || err != CodeStoreOutOfGas) ==>
        world == old(world) || world == old(world).SetNonce(caller, Wrap(old(world).Nonce(caller) as int + 1))
      ensures err == Panicked ==> created
      ensures err == DepthExceeded <==> depth > 1024
      ensures err == InsufficientBalance <==> depth <= 1024 && old(world).Balance(caller) < value
      ensures depth <= 1024 && value <= old(world).Balance(caller) ==>
        (err == NonceOverflow <==> old(world).Nonce(caller) == MAX_UINT64)
      ensures err == NoError ==> world.Code(address) == ret && MayDeploy(ret)
      decreases gas, 6
    {
      hide TableOk, Follows, Clears, MayDeploy, CallsList, StoreUsesList, UsesAccessLists;
      FollowsItself(world, false);
      if depth > 1024 {
        return [], gas, DepthExceeded;
      }
      if world.Balance(caller) < value {
        return [], gas, InsufficientBalance;
      }
      var nonce := world.Nonce(caller);
      var bumped := Wrap(nonce as int + 1);
      if bumped < nonce {
        return [], gas, NonceOverflow;
      }
      SetNonceFollows(world, caller, bumped, Clears(table));
      world := world.SetNonce(caller, bumped);
      ghost var counted := world;
      ret, left, err := Endow(caller, address, code, salted, gas, value, jumpdests);
      if err != Panicked {
        FollowsTransitive(old(world), counted, world, false);
      }
    }

    /** The middle of create, once the creator's nonce is up: nothing may be at the address yet. */
    method Endow(caller: Address, address: Address, code: Slice, salted: bool, gas: Uint64, value: Word, jumpdests: Jumpdests)
      returns (ret: Slice, left: Uint64, err: Error)
      requires Valid() && Covered() && jumpdests.Valid() && !readOnly && depth <= 1024
      requires value <= world.Balance(caller)
      modifies this, jumpdests
      ensures Valid() && Kept() && jumpdests.Valid() && left <= gas
      ensures err != Panicked ==> Sound(old(world), false)
      ensures (err != NoError && err != Panicked) && (homestead || err != CodeStoreOutOfGas) ==> world == old(world)
      ensures err == Panicked ==> created
      ensures InFrame(err) || err == CodeStoreOutOfGas
      ensures err == NoError ==> world.Code(address) == ret && MayDeploy(ret)
      decreases gas, 5, 1
    {
      if world.Nonce(address) != 0 || world.Code(address) != [] {
        FollowsItself(world, false);
        return [], 0, AddressCollision;
      }
      var snapshot := world;
      EndowFollows(world, caller, address, value, Clears(table));
      world := world.CreateAccount(address).Transfer(caller, address, value);
      ret, left, err := Deploy(snapshot, address, code, salted, gas, jumpdests);
    }

    /** The rest of create: run the init code, store what it returns, or go back to the snapshot. */
    method Deploy(snapshot: World, address: Address, code: Slice, salted: bool, gas: Uint64, jumpdests: Jumpdests)
      returns (ret: Slice, left: Uint64, err: Error)
      requires Valid() && Covered() && jumpdests.Valid() && !readOnly && depth <= 1024
      requires snapshot.Consistent() && snapshot.Covers(Clears(table)) && Follows(snapshot, world, false)
      modifies this, jumpdests
      ensures Valid() && Kept() && jumpdests.Valid() && left <= gas
      ensures err != Panicked ==> Sound(snapshot, false)
      ensures (err != NoError && err != Panicked) && (homestead || err != CodeStoreOutOfGas) ==> world == snapshot
      ensures err == Panicked ==> created
      ensures InFrame(err) || err == CodeStoreOutOfGas
      ensures err == NoError ==> world.Code(address) == ret && MayDeploy(ret)
      decreases gas, 5, 0
    {
      var contract := new Contract(address, code, if salted then HashOf(code) else NoHash, [], gas, jumpdests);
      created := true;
      ret, err := Initialise(snapshot, contract, address);
      if err == Panicked {
        return ret, 0, err;
      }
      left := contract.gas;
      if err != NoError && (homestead || err != CodeStoreOutOfGas) {
        FollowsItself(snapshot, false);
        world := snapshot;
        if err != Reverted {
          left := 0;
        }
      }
    }

    /** The init code runs and what it returns is stored. */
    method Initialise(ghost snapshot: World, contract: Contract, address: Address) returns (ret: Slice, err: Error)
      requires Valid() && Covered() && contract.Valid() && !readOnly && depth <= 1024
      requires Follows(snapshot, world, false)
      modifies this, contract, contract.jumpdests
      ensures Valid() && Kept() && contract.Valid() && contract.gas <= old(contract.gas)
      ensures err == NoError || err == CodeStoreOutOfGas ==> Sound(snapshot, false)
      ensures InFrame(err) || err == CodeStoreOutOfGas
      ensures err == NoError ==> world.Code(address) == ret && MayDeploy(ret)
      decreases contract.gas, 4
    {
      ghost var entered := world;
      ghost var fees, size;
      ret, err, fees, size := Run(contract, false);
      if err == NoError {
        FollowsTransitive(snapshot, entered, world, false);
        ghost var ran := world;
        err := StoreCode(contract, address, ret);
        FollowsTransitive(snapshot, ran, world, false);
      }
    }

    /** Code that a creation may leave. */
    predicate MayDeploy(code: Slice)
    {
      |code| <= 24576 && !(|code| >= 1 && code[0] == 0xEF && london)
    }

    /** The end of a successful creation: size limit, reserved first byte and the price of the code. */
    method StoreCode(contract: Contract, address: Address, ret: Slice) returns (err: Error)
      requires Valid() && Covered()
      modifies this`world, contract`gas
      ensures Valid() && contract.gas <= old(contract.gas) && Sound(old(world), false)
      ensures err == NoError || err == MaxCodeSizeExceeded || err == InvalidCode || err == CodeStoreOutOfGas
      ensures err == if |ret| > 24576 then MaxCodeSizeExceeded
                     else if |ret| >= 1 && ret[0] == 0xEF && london then InvalidCode
                     else if old(contract.gas) < 200 * |ret| then CodeStoreOutOfGas else NoError
      ensures err == NoError ==> world == old(world).SetCode(address, ret) && contract.gas == old(contract.gas) - 200 * |ret|
      ensures err != NoError ==> world == old(world) && contract.gas == old(contract.gas)
    {
      FollowsItself(world, false);
      if |ret| > 24576 {
        return MaxCodeSizeExceeded;
      }
      if |ret| >= 1 && ret[0] == 0xEF && london {
        return InvalidCode;
      }
      var paid := contract.UseGas(Wrap(|ret| * 200));
      if !paid {
        return CodeStoreOutOfGas;
      }
      CoversFrame(world, world.SetCode(address, ret), Clears(table));
      world := world.SetCode(address, ret);
      err := NoError;
    }

    // ----- the run loop -----

    /** opCreate and opCreate2. `before` is the gas the frame had when the instruction began. */
    method OpCreate(salted: bool, contract: Contract, stack: Stack, mem: Memory, ghost before: nat)
      returns (res: Slice, err: Error, ghost address: Address, ghost suberr: Error)
      requires Valid() && Covered() && Ready(Exec.Create(salted), contract, stack, mem)
      requires contract.gas < before
      modifies this, contract`gas, contract.jumpdests, stack
      ensures Valid() && Kept() && contract.Valid()
      ensures (err == NoError || err == WriteProtection || err == Panicked) && (err == WriteProtection <==> readOnly)
      ensures contract.gas < before
      ensures err == NoError ==> Sound(old(world), readOnly)
      ensures err == NoError ==> |stack.data| + (if salted then 3 else 2) == |old(stack.data)|
      ensures err == NoError ==>
        && stack.data == old(stack.data)[..|old(stack.data)| - Pops(Exec.Create(salted))]
             + [if suberr == NoError || (suberr == CodeStoreOutOfGas && !salted && !homestead) then address else 0]
        && (suberr == NoError ==> MayDeploy(world.Code(address)))
        && res == returnData && (suberr != Reverted ==> res == [])
      ensures err == Panicked ==> created
      decreases before, 0
    {
      assert contract.Valid() && |stack.data| >= Pops(Exec.Create(salted));
      hide TableOk, Follows, CallsList, StoreUsesList, UsesAccessLists, Clears, Ready, MayDeploy;
      res, address, suberr := [], 0, NoError;
      if readOnly {
        return [], WriteProtection, 0, NoError;
      }
      var value, input := PopCreate(salted, contract, stack, mem);
      var addr, ret, failure := RunCreate(salted, contract, value, input, before);
      address, suberr := addr, failure;
      if failure == Panicked {
        return [], Panicked, addr, failure;
      }
      var failed := if salted then failure != NoError
                    else (homestead && failure == CodeStoreOutOfGas) || (failure != NoError && failure != CodeStoreOutOfGas);
      stack.Push(if failed then 0 else addr);
      returnData := if failure == Reverted then ret else [];
      return returnData, NoError, addr, failure;
    }

    /** The creation itself, with all but one 64th of the gas since EIP-150; what it leaves comes back. */
    method RunCreate(salted: bool, contract: Contract, value: Word, input: Slice, ghost before: nat)
      returns (addr: Address, ret: Slice, failure: Error)
      requires Valid() && Covered() && contract.Valid() && !readOnly && contract.gas < before
      modifies this, contract`gas, contract.jumpdests
      ensures Valid() && Kept() && contract.Valid() && contract.gas < before
      ensures failure != Panicked ==> Sound(old(world), false)
      ensures failure == NoError ==> MayDeploy(world.Code(addr))
      ensures failure == Panicked ==> created
      decreases before, 0, 0
    {
      hide TableOk, Follows, CallsList, StoreUsesList, UsesAccessLists, Clears, MayDeploy;
      var gas := contract.gas;
      if eip150 || salted {
        gas := gas - gas / 64;
      }
      var paid := contract.UseGas(gas);
      addr :| 0 <= addr < TWO_160;
      var left;
      ret, left, failure := Create(contract.self, addr, input, salted, gas, value, contract.jumpdests);
      contract.gas := Wrap(contract.gas + left);
    }

    /** What a call that finds no code leaves of the state. */
    function Reached(kind: CallKind, w: World, self: Address, addr: Address, value: Word): World
      requires kind == CallOp ==> value <= w.Balance(self)
    {
      match kind
      case CallOp => Arrival(w, self, addr, value, false)
      case CallCodeOp | DelegateOp => w
      case StaticOp => w.AddBalance(addr, 0)
    }

    /** How the kinds of call differ: which of them look at depth and balance, that a static one leaves the state alone,
        and what they do where there is no code. */
    ghost predicate Answered(kind: CallKind, before: World, self: Address, addr: Address, gas: Uint64, value: Word,
                             ret: Slice, left: Uint64, err: Error)
      reads this
    {
      && (err == DepthExceeded <==> depth > 1024)
      && (err == InsufficientBalance <==>
            depth <= 1024 && (kind == CallOp || kind == CallCodeOp) && before.Balance(self) < value)
      && (kind == StaticOp && err != Panicked ==> SameState(before, world))
      && (err != DepthExceeded && err != InsufficientBalance && addr !in precompiles && before.Code(addr) == [] ==>
            Idle(ret, gas, left, err) && world == Reached(kind, before, self, addr, value))
    }

    method CallAs(kind: CallKind, self: Address, addr: Address, args: Slice, gas: Uint64, value: Word, jumpdests: Jumpdests)
      returns (ret: Slice, left: Uint64, err: Error)
      requires Valid() && Covered() && jumpdests.Valid()
      requires kind == CallOp && readOnly ==> value == 0
      modifies this, jumpdests
      ensures Valid() && Kept() && jumpdests.Valid()
      ensures CallDone(old(world), gas, left, err)
      ensures err != Panicked ==> Sound(old(world), readOnly)
      ensures err == Panicked ==> Explained(self, old(world)) || Explained(addr, old(world))
      ensures Answered(kind, old(world), self, addr, gas, value, ret, left, err)
      decreases gas, 6
    {
      match kind {
        case CallOp => ret, left, err := Call(self, addr, args, gas, value, jumpdests);
        case CallCodeOp => ret, left, err := CallCode(self, addr, args, gas, value, jumpdests);
        case DelegateOp => ret, left, err := DelegateCall(self, addr, args, gas, jumpdests);
        case StaticOp => ret, left, err := StaticCall(self, addr, args, gas, jumpdests);
      }
      if err != NoError && err != Panicked {
        FollowsItself(world, readOnly);
      }
    }

    /** opCall, opCallCode, opDelegateCall and opStaticCall. The callee starts with less gas than the frame had
        when the instruction began, and what it leaves does not make up for what the instruction cost. */
    method OpCall(kind: CallKind, contract: Contract, stack: Stack, mem: Memory, ghost before: nat)
      returns (res: Slice, err: Error, ghost suberr: Error)
      requires |stack.data| >= if kind == CallOp || kind == CallCodeOp then 7 else 6
      requires Valid() && Covered() && Ready(Exec.Call(kind), contract, stack, mem)
      requires contract.gas + callGasTemp + (if CallValue(kind, stack.data) != 0 then CALL_VALUE_TRANSFER else 0) < before
      requires before <= MAX_UINT64
      modifies this, contract`gas, contract.jumpdests, stack, mem`store
      ensures Valid() && Kept() && contract.Valid() && mem.Valid()
      ensures err == NoError || err == WriteProtection || err == Panicked
      ensures err == WriteProtection <==> kind == CallOp && readOnly && CallValue(kind, old(stack.data)) != 0
      ensures contract.gas < before
      ensures err == NoError ==> Sound(old(world), readOnly)
      ensures err == NoError ==>
        |stack.data| + (if kind == CallOp || kind == CallCodeOp then 6 else 5) == |old(stack.data)|
      ensures err == NoError ==>
        && stack.data == old(stack.data)[..|old(stack.data)| - Pops(Exec.Call(kind))] + [if suberr == NoError then 1 else 0]
        && returnData == res && (suberr != NoError ==> world == old(world))
        && Received(old(mem.store), mem.store, kind, old(stack.data), if suberr == NoError || suberr == Reverted then res else [])
      ensures err == Panicked ==>
        Explained(contract.self, old(world)) || Explained(ToAddress(old(stack.Back(1))), old(world))
      decreases before, 0
    {
      assert contract.Valid() && mem.Valid();
      hide TableOk, Follows, Ready, Received, CallsList, StoreUsesList, UsesAccessLists, Clears;
      suberr := NoError;
      var c := PopCall(kind, contract, stack, mem);
      if kind == CallOp && readOnly && c.value != 0 {
        return [], WriteProtection, NoError;
      }
      var gas := callGasTemp;
      if c.value != 0 {
        gas := Wrap(gas + CALL_STIPEND);
      }
      var left, failure;
      res, left, failure := CallAs(kind, contract.self, c.addr, c.args, gas, c.value, contract.jumpdests);
      suberr := failure;
      if failure == Panicked {
        return [], Panicked, suberr;
      }
      Deliver(kind, failure, res, c, stack, mem, old(stack.data));
      contract.gas := Wrap(contract.gas + left);
      returnData := res;
      err := NoError;
    }

    /** One instruction, paid for. */
    method Execute(e: Exec, contract: Contract, stack: Stack, mem: Memory, pc: Uint64, ghost before: nat)
      returns (next: Uint64, res: Slice, err: Error)
      requires Valid() && Ready(e, contract, stack, mem)
      requires FallsThrough(contract.code, pc, e)
      requires (e.Dup? || e.Swap? ==> e.n >= 1) && (e.Push? ==> e.size <= 32)
      requires !e.SStore? ==> Covered()
      requires e.SStore? ==>
        world.SetState(Slot(contract.self, stack.Back(0)), stack.Back(1)).Covers(Clears(table))
      requires contract.gas <= before <= MAX_UINT64 && (!Halts(e) ==> contract.gas < before)
      requires e.Call? ==>
        contract.gas + callGasTemp + (if CallValue(e.kind, stack.data) != 0 then CALL_VALUE_TRANSFER else 0) < before
      modifies this, contract, contract.jumpdests, stack, mem
      ensures Valid() && Kept() && contract.Valid() && mem.Valid()
      ensures contract.gas <= before && InFrame(err)
      ensures err == NoError ==> contract.gas < before
      ensures err == NoError || err == StopToken ==> Sound(old(world), readOnly)
      ensures err == NoError ==> |stack.data| == |old(stack.data)| - Pops(e) + Pushes(e)
      ensures err == NoError ==> AtInstruction(contract.code, Wrap(next + 1))
      ensures err == Panicked ==>
        || Explained(contract.self, old(world))
        || (e.Call? && Explained(ToAddress(old(stack.Back(1))), old(world)))
      ensures !e.Create? && !e.Call? ==>
        Executed(e, contract, pc, old(world), world, old(returnData), old(stack.data), old(mem.store), stack.data, mem.store,
                next, res, err)
      decreases before, 1, 1
    {
      hide Executed, AtInstruction, Ready, Follows;
      if e.Create? || e.Call? {
        next := pc;
        res, err := ExecuteCalls(e, contract, stack, mem, pc, before);
      } else {
        next, res, err := ExecutePlain(e, contract, stack, mem, pc);
      }
    }

    /** The instructions that run other code. */
    method ExecuteCalls(e: Exec, contract: Contract, stack: Stack, mem: Memory, pc: Uint64, ghost before: nat)
      returns (res: Slice, err: Error)
      requires Valid() && Ready(e, contract, stack, mem) && (e.Create? || e.Call?)
      requires FallsThrough(contract.code, pc, e) && Covered()
      requires contract.gas < before <= MAX_UINT64
      requires e.Call? ==>
        contract.gas + callGasTemp + (if CallValue(e.kind, stack.data) != 0 then CALL_VALUE_TRANSFER else 0) < before
      modifies this, contract, contract.jumpdests, stack, mem
      ensures Valid() && Kept() && contract.Valid() && mem.Valid()
      ensures contract.gas <= before && InFrame(err)
      ensures err == NoError ==> contract.gas < before
      ensures err == NoError || err == StopToken ==> Sound(old(world), readOnly)
      ensures err == NoError ==> |stack.data| == |old(stack.data)| - Pops(e) + Pushes(e)
      ensures err == NoError ==> AtInstruction(contract.code, Wrap(pc + 1))
      ensures err == Panicked ==>
        || Explained(contract.self, old(world))
        || (e.Call? && Explained(ToAddress(old(stack.Back(1))), old(world)))
      decreases before, 1, 0
    {
      assert contract.Valid() && mem.Valid() && |stack.data| >= Pops(e);
      CallShape(e);
      hide TableOk, Follows, CallsList, StoreUsesList, UsesAccessLists, Clears, Ready, AtInstruction, Received, MayDeploy;
      hide Pops, Pushes;
      if e.Create? {
        ghost var address, suberr;
        res, err, address, suberr := OpCreate(e.salted, contract, stack, mem, before);
      } else {
        ghost var suberr;
        res, err, suberr := OpCall(e.kind, contract, stack, mem, before);
      }
    }

    /** All others. */
    method ExecutePlain(e: Exec, contract: Contract, stack: Stack, mem: Memory, pc: Uint64)
      returns (next: Uint64, res: Slice, err: Error)
      requires Valid() && Ready(e, contract, stack, mem) && !e.Create? && !e.Call?
      requires FallsThrough(contract.code, pc, e)
      requires (e.Dup? || e.Swap? ==> e.n >= 1) && (e.Push? ==> e.size <= 32)
      requires !e.SStore? ==> Covered()
      requires e.SStore? ==>
        world.SetState(Slot(contract.self, stack.Back(0)), stack.Back(1)).Covers(Clears(table))
      modifies this, contract, contract.jumpdests, stack, mem
      ensures Kept() && contract.gas <= old(contract.gas)
      ensures Plain(e, contract, mem, next, |old(stack.data)|, |stack.data|, err)
      ensures err == NoError || err == StopToken ==> Sound(old(world), readOnly)
      ensures Executed(e, contract, pc, old(world), world, old(returnData), old(stack.data), old(mem.store), stack.data, mem.store,
                      next, res, err)
    {
      if !e.SStore? && !e.Log? && !e.SelfDestruct? {
        Kinds(e);
      }
      hide Executed, Plain, Ready, Follows, TableOk, UsesAccessLists, Clears, FallsThrough, IsLocal;
      if e.SStore? || e.Log? || e.SelfDestruct? {
        next, res := pc, [];
        err := ExecuteWrite(e, contract, stack, mem, pc);
      } else {
        FollowsItself(world, readOnly);
        next, res, err := ExecuteOwn(e, contract, stack, mem, pc);
      }
    }

    /** Those that leave the state alone; what REVERT returns is also what the frame last received. */
    method ExecuteOwn(e: Exec, contract: Contract, stack: Stack, mem: Memory, pc: Uint64)
      returns (next: Uint64, res: Slice, err: Error)
      requires IsLocal(e) || e.SLoad? || e.ExtCodeCopy? || e.ReturnDataCopy?
      requires Valid() && Ready(e, contract, stack, mem) && FallsThrough(contract.code, pc, e)
      requires (e.Dup? || e.Swap? ==> e.n >= 1) && (e.Push? ==> e.size <= 32)
      modifies this`returnData, stack, mem`store, contract`analysis, contract.jumpdests
      ensures Plain(e, contract, mem, next, |old(stack.data)|, |stack.data|, err)
      ensures returnData == if err == Reverted then res else old(returnData)
      ensures Executed(e, contract, pc, world, world, old(returnData), old(stack.data), old(mem.store), stack.data, mem.store,
                      next, res, err)
    {
      hide Plain, Executed, Ready, FallsThrough;
      if IsLocal(e) {
        next, res, err := ExecuteInside(e, contract, stack, mem, pc);
      } else {
        next, res := pc, [];
        err := ExecuteRead(e, contract, stack, mem, pc);
      }
    }

    method ExecuteInside(e: Exec, contract: Contract, stack: Stack, mem: Memory, pc: Uint64)
      returns (next: Uint64, res: Slice, err: Error)
      requires IsLocal(e) && Valid() && Ready(e, contract, stack, mem) && FallsThrough(contract.code, pc, e)
      requires (e.Dup? || e.Swap? ==> e.n >= 1) && (e.Push? ==> e.size <= 32)
      modifies this`returnData, stack, mem`store, contract`analysis, contract.jumpdests
      ensures Plain(e, contract, mem, next, |old(stack.data)|, |stack.data|, err)
      ensures returnData == if err == Reverted then res else old(returnData)
      ensures Executed(e, contract, pc, world, world, old(returnData), old(stack.data), old(mem.store), stack.data, mem.store,
                      next, res, err)
    {
      next, res, err := ExecuteLocal(e, contract, stack, mem, pc);
      if err == Reverted {
        returnData := res;
      }
    }

    /** The memory a table entry asks for, in whole words. */
    method MemoryFor(m: MemorySize, stack: Stack) returns (size: Uint64, ok: bool)
      requires StackDeepEnough(m, stack.data)
      ensures ok <==> !MemSize(m, stack.data).1 && RoundUp(MemSize(m, stack.data).0) <= MAX_UINT64
      ensures ok ==> size == RoundUp(MemSize(m, stack.data).0)
    {
      var need := MemSize(m, stack.data);
      if need.1 {
        return 0, false;
      }
      assert ToWordSize(need.0) == Words(need.0);
      var words := SafeMul(ToWordSize(need.0), 32);
      return words.0, !words.1;
    }

    /** One turn of the interpreter loop. A turn that goes on has cost the frame gas, gas that calls handed back
        included, and leaves the stack within its limit, the memory in whole words that are paid for, the
        program counter at an instruction and the refund counter covering every cleared slot. */
    method Step(contract: Contract, stack: Stack, mem: Memory, pc: Uint64) returns (next: Uint64, res: Slice, err: Error)
      requires Valid() && Covered() && contract.Valid() && mem.Valid()
      requires |stack.data| <= STACK_LIMIT && AtInstruction(contract.code, pc)
      modifies this, contract, contract.jumpdests, stack, mem
      ensures Valid() && Kept() && contract.Valid()
      ensures contract.gas <= old(contract.gas) && InFrame(err)
      ensures err == NoError ==> contract.gas < old(contract.gas)
      ensures err == NoError || err == StopToken || err == Reverted ==> mem.Valid()
      ensures err == NoError ==> |stack.data| <= STACK_LIMIT && AtInstruction(contract.code, next)
      ensures err == NoError || err == StopToken ==> Sound(old(world), readOnly)
      ensures err == Panicked ==> Explained(contract.self, old(world))
      decreases contract.gas, 2, 0
    {
      hide Paid, DynamicVerdict, Executed;
      ghost var before := contract.gas;
      next, res := pc, [];
      var op := table[contract.GetOp(pc)];
      EntryFacts(table, contract.GetOp(pc), eip150);
      err := Charge(op, contract, stack, mem);
      if err != NoError {
        return;
      }
      FetchFallsThrough(contract.code, pc, op.exec);
      ghost var charged := world;
      next, res, err := Execute(op.exec, contract, stack, mem, pc, before);
      next := Wrap(next + 1);
      if err == NoError || err == StopToken {
        FollowsTransitive(old(world), charged, world, readOnly);
      }
    }

    /** An instruction is about to run: its operands and its memory are there, and it is paid for. */
    ghost predicate Prepared(op: Operation, contract: Contract, stack: Stack, mem: Memory, gas: int)
      reads this, contract, contract.jumpdests, stack, mem
    {
      Ready(op.exec, contract, stack, mem) && Armed(op.gas, contract.self, stack.data, gas - contract.gas)
    }

    /** The first half of a turn: the stack has what the instruction needs and room for what it leaves, its gas
        is paid, and the memory it touches is there. */
    method Charge(op: Operation, contract: Contract, stack: Stack, mem: Memory) returns (err: Error)
      requires Valid() && Covered() && contract.Valid() && mem.Valid()
      requires EntryOk(op) && (op.minStack <= |stack.data| ==> GasOk(op.gas, |stack.data|, Clears(table), eip150))
      modifies this`world, this`callGasTemp, contract`gas, mem
      ensures Valid() && contract.Valid() && Follows(old(world), world, true)
      ensures |stack.data| < op.minStack ==> err == StackUnderflow
      ensures |stack.data| >= op.minStack && |stack.data| > op.maxStack ==> err == StackOverflow
      ensures op.minStack <= |stack.data| <= op.maxStack ==>
        err == if old(contract.gas) < op.constantGas then OutOfGas
               else DynamicVerdict(op, old(world), eip150, contract.self, stack.data,
                                   old(contract.gas) - op.constantGas, |old(mem.store)|)
      ensures contract.gas <= old(contract.gas) && InFrame(err)
      ensures err == NoError ==>
        Paid(op, old(world), eip150, contract.self, stack.data, old(contract.gas) - op.constantGas, |old(mem.store)|,
             contract.gas, |mem.store|)
      ensures err == NoError ==> Prepared(op, contract, stack, mem, old(contract.gas) - op.constantGas)
    {
      hide DynamicVerdict, Paid, Armed, Ready, Follows, TableOk, Clears, UsesAccessLists, GasOk;
      FollowsItself(world, true);
      if |stack.data| < op.minStack {
        return StackUnderflow;
      } else if |stack.data| > op.maxStack {
        return StackOverflow;
      }
      var paid := contract.UseGas(op.constantGas);
      if paid {
        ghost var rest := contract.gas;
        err := ChargeDynamic(op, contract, stack, mem);
        assert rest == old(contract.gas) - op.constantGas;
      } else {
        err := OutOfGas;
      }
    }

    /** The dynamic gas and the memory. */
    method ChargeDynamic(op: Operation, contract: Contract, stack: Stack, mem: Memory) returns (err: Error)
      requires Valid() && Covered() && contract.Valid() && mem.Valid()
      requires EntryOk(op) && op.minStack <= |stack.data| && GasOk(op.gas, |stack.data|, Clears(table), eip150)
      modifies this`world, this`callGasTemp, contract`gas, mem
      ensures Valid() && contract.Valid() && Follows(old(world), world, true)
      ensures err == DynamicVerdict(op, old(world), eip150, contract.self, stack.data, old(contract.gas), |old(mem.store)|)
      ensures contract.gas <= old(contract.gas)
      ensures err == NoError ==>
        Paid(op, old(world), eip150, contract.self, stack.data, old(contract.gas), |old(mem.store)|, contract.gas, |mem.store|)
      ensures err == NoError ==> Prepared(op, contract, stack, mem, old(contract.gas))
    {
      FollowsItself(world, true);
      DeepEnough(op, stack.data);
      if op.gas == NoGas {
        return NoError;
      }
      var memorySize, ok := MemoryFor(op.memory, stack);
      if !ok {
        return GasUintOverflow;
      }
      err := PayDynamic(op, contract, stack, mem, memorySize);
    }

    method PayDynamic(op: Operation, contract: Contract, stack: Stack, mem: Memory, memorySize: Uint64) returns (err: Error)
      requires Valid() && Covered() && contract.Valid() && mem.Valid()
      requires EntryOk(op) && op.minStack <= |stack.data| && GasOk(op.gas, |stack.data|, Clears(table), eip150)
      requires !MemSize(op.memory, stack.data).1 && memorySize == RoundUp(MemSize(op.memory, stack.data).0)
      modifies this`world, this`callGasTemp, contract`gas, mem
      ensures Valid() && contract.Valid() && Follows(old(world), world, true)
      ensures err == DynamicVerdict(op, old(world), eip150, contract.self, stack.data, old(contract.gas), |old(mem.store)|)
      ensures contract.gas <= old(contract.gas)
      ensures err == NoError ==>
        Paid(op, old(world), eip150, contract.self, stack.data, old(contract.gas), |old(mem.store)|, contract.gas, |mem.store|)
      ensures err == NoError ==> Prepared(op, contract, stack, mem, old(contract.gas))
    {
      assert Inspects(op.gas) <= |stack.data|;
      hide EntryOk, DynamicVerdict, Paid, StackDeepEnough, Pops, Touches, MemSize, Reachable;
      hide TableOk, Clears, UsesAccessLists, Follows, GasOk, Armed;
      var cost;
      cost, err := Meter(op, contract, stack, mem, memorySize);
      if err == NoError {
        var paid := PayAndGrow(contract, mem, cost, memorySize);
        if paid {
          MemoryThere(op, stack.data, |mem.store|);
        } else {
          err := OutOfGas;
        }
      }
    }

    /** The gas function's answer, and what it means for the verdict. */
    method Meter(op: Operation, contract: Contract, stack: Stack, mem: Memory, memorySize: Uint64)
      returns (cost: Uint64, err: Error)
      requires Valid() && Covered() && mem.Valid()
      requires EntryOk(op) && op.minStack <= |stack.data| && GasOk(op.gas, |stack.data|, Clears(table), eip150)
      requires !MemSize(op.memory, stack.data).1 && memorySize == RoundUp(MemSize(op.memory, stack.data).0)
      modifies this`world, this`callGasTemp, contract`gas, mem`lastGasCost, mem`fees
      ensures Valid() && Follows(old(world), world, true) && contract.gas <= old(contract.gas)
      ensures err == NoError || err == OutOfGas || err == Panicked
      ensures DynamicVerdict(op, old(world), eip150, contract.self, stack.data, old(contract.gas), |mem.store|) ==
        if err == NoError && cost > contract.gas then OutOfGas else err
      ensures err == NoError ==> contract.gas == old(contract.gas) && mem.Charged(memorySize)
      ensures err == NoError && cost <= contract.gas ==>
        Paid(op, old(world), eip150, contract.self, stack.data, contract.gas, |mem.store|, contract.gas - cost,
             Max(|mem.store|, memorySize))
      ensures err == NoError ==> Armed(op.gas, contract.self, stack.data, cost)
    {
      EntryMemory(op, stack.data);
      hide EntryOk, DynamicVerdict, Paid, Owed, PriceIs, Panics, StackDeepEnough, Pops, Touches, MemSize;
      hide TableOk, Clears, UsesAccessLists, Follows, GasOk, Armed;
      cost, err := DynamicGas(op.gas, contract, stack, mem, memorySize);
      if err == Panicked {
        DecidesPanic(op, old(world), eip150, contract.self, stack.data, old(contract.gas), |mem.store|);
      } else {
        Decides(op, old(world), eip150, contract.self, stack.data, old(contract.gas), |mem.store|, memorySize, cost, err == NoError);
      }
    }

    /** The loop of Run: a step at a time until one of them ends the frame. */
    method Loop(contract: Contract) returns (ret: Slice, err: Error, ghost fees: nat, ghost size: nat)
      requires Valid() && Covered() && contract.Valid() && 1 <= depth <= 1025
      requires AtInstruction(contract.code, 0)
      modifies this, contract, contract.jumpdests
      ensures Valid() && Kept() && contract.Valid()
      ensures contract.gas <= old(contract.gas)
      ensures err == NoError ==> Sound(old(world), readOnly)
      ensures err == Panicked ==> Explained(contract.self, old(world))
      ensures InFrame(err) && err != StopToken
      ensures err == NoError || err == Reverted ==> fees == MemFee(size / 32)
      decreases contract.gas, 2, 1
    {
      hide TableOk, UsesAccessLists, CallsList, StoreUsesList, Clears, MemFee, AtInstruction;
      FollowsItself(world, readOnly);
      ret, err := [], NoError;
      var mem := new Memory();
      var stack := new Stack();
      var pc: Uint64 := 0;
      while err == NoError
        invariant Valid() && contract.Valid()
        invariant depth == old(depth) && readOnly == old(readOnly) && (old(created) ==> created)
        invariant contract.gas <= old(contract.gas) && InFrame(err)
        invariant err == NoError || err == StopToken ==> Sound(old(world), readOnly)
        invariant err == NoError || err == StopToken || err == Reverted ==> mem.Valid()
        invariant err == NoError ==> |stack.data| <= STACK_LIMIT && AtInstruction(contract.code, pc)
        invariant err == Panicked ==> Explained(contract.self, old(world))
        decreases if err == NoError then 1 else 0, contract.gas
      {
        ghost var previous := world;
        pc, ret, err := Step(contract, stack, mem, pc);
        if err == NoError || err == StopToken {
          FollowsTransitive(old(world), previous, world, readOnly);
        }
      }
      if err == StopToken {
        err := NoError;
      }
      fees, size := mem.fees, |mem.store|;
    }

    /** Run: the frame of one contract. All that is charged for memory on the way adds up to the price of the size it
        ends with. */
    method Run(contract: Contract, isStatic: bool) returns (ret: Slice, err: Error, ghost fees: nat, ghost size: nat)
      requires Valid() && Covered() && contract.Valid() && depth <= 1024
      modifies this, contract, contract.jumpdests
      ensures Valid() && Kept() && contract.Valid()
      ensures contract.gas <= old(contract.gas)
      ensures err == NoError ==> Sound(old(world), old(readOnly) || isStatic)
      ensures err == Panicked ==> Explained(contract.self, old(world))
      ensures InFrame(err) && err != StopToken
      ensures err == NoError || err == Reverted ==> fees == MemFee(size / 32)
      ensures contract.code == [] ==> Idle(ret, old(contract.gas), contract.gas, err) && world == old(world)
      decreases contract.gas, 3
    {
      assert AtInstruction(contract.code, 0);
      hide TableOk, UsesAccessLists, CallsList, StoreUsesList, Clears, Follows, MemFee, AtInstruction;
      depth := depth + 1;
      var protects := isStatic && !readOnly;
      if protects {
        readOnly := true;
      }
      returnData := [];
      FollowsItself(world, readOnly);
      ret, err, fees, size := [], NoError, 0, 0;
      if contract.code != [] {
        ret, err, fees, size := Loop(contract);
      }
      depth := depth - 1;
      if protects {
        readOnly := false;
      }
    }
  }

  datatype CallOperands = CallOperands(addr: Address, value: Word, args: Slice, retOffset: Uint64, retSize: Uint64)

  /** The bytes a call brings back into the area its operands name: as many as there are and fit. */
  ghost predicate Received(store: Slice, store': Slice, kind: CallKind, data: seq<Word>, bytes: Slice)
    requires |data| >= if kind == CallOp || kind == CallCodeOp then 7 else 6
  {
    var i := if kind == CallOp || kind == CallCodeOp then 5 else 4;
    var offset, size := Low64(BackOf(data, i)), BackOf(data, i + 1);
    |store'| == |store| && forall k :: 0 <= k < |store| ==>
      store'[k] == if offset <= k < offset + Min(size, |bytes|) then bytes[k - offset] else store[k]
  }

  /** The operands of a call, taken off the stack, with the arguments read from memory. */
  method PopCall(kind: CallKind, contract: Contract, stack: Stack, mem: Memory) returns (c: CallOperands)
    requires |stack.data| >= if kind == CallOp || kind == CallCodeOp then 7 else 6
    requires Ready(Exec.Call(kind), contract, stack, mem)
    modifies stack
    ensures stack.data == old(stack.data)[..|old(stack.data)| - Pops(Exec.Call(kind))]
    ensures |stack.data| + (if kind == CallOp || kind == CallCodeOp then 7 else 6) == |old(stack.data)|
    ensures c.addr == ToAddress(old(stack.Back(1))) && c.value == CallValue(kind, old(stack.data))
    ensures InBounds(c.retOffset, c.retSize, |mem.store|)
    ensures var i := if kind == CallOp || kind == CallCodeOp then 3 else 2;
      && |c.args| == old(stack.Back(i + 1))
      && (forall k :: 0 <= k < |c.args| ==> c.args[k] == mem.store[old(stack.Back(i)) + k])
      && c.retSize == old(stack.Back(i + 3)) && c.retOffset == Low64(old(stack.Back(i + 2)))
  {
    var i := if kind == CallOp || kind == CallCodeOp then 3 else 2;
    var inOffset, inSize, retOffset, retSize := stack.Back(i), stack.Back(i + 1), stack.Back(i + 2), stack.Back(i + 3);
    c := CallOperands(ToAddress(stack.Back(1)), CallValue(kind, stack.data),
                      mem.Read(Low64(inOffset), Low64(inSize)), Low64(retOffset), Low64(retSize));
    OpPure(stack, i + 4, 0);
  }

  /** The log an instruction leaves: topics from the stack, data from memory. */
  function LogOf(self: Address, topics: nat, data: seq<Word>, store: Slice): LogEntry
    requires |data| >= topics + 2 && InBounds(BackOf(data, 0), BackOf(data, 1), |store|)
  {
    LogEntry(self, seq(topics, k requires 0 <= k < topics => BackOf(data, 2 + k)),
        if BackOf(data, 1) == 0 then [] else store[BackOf(data, 0)..BackOf(data, 0) + BackOf(data, 1)])
  }

  /** The operands of a log, taken off the stack, with the data read from memory. */
  method PopLog(self: Address, topics: nat, stack: Stack, mem: Memory) returns (l: LogEntry)
    requires |stack.data| >= topics + 2 && mem.Valid() && Fits(stack.Back(0), stack.Back(1), |mem.store|)
    modifies stack
    ensures l == LogOf(self, topics, old(stack.data), mem.store)
    ensures stack.data == old(stack.data)[..|old(stack.data)| - topics - 2]
  {
    ghost var data := stack.data;
    var start := stack.Pop();
    var size := stack.Pop();
    var list := [];
    for i := 0 to topics
      invariant stack.data == data[..|data| - 2 - i]
      invariant |list| == i && forall k :: 0 <= k < i ==> list[k] == BackOf(data, 2 + k)
    {
      var topic := stack.Pop();
      list := list + [topic];
    }
    assert list == seq(topics, k requires 0 <= k < topics => BackOf(data, 2 + k));
    l := LogEntry(self, list, mem.Read(Low64(start), Low64(size)));
  }

  /** What an instruction that reaches the state leaves of state, stack and memory. */
  ghost predicate StateEffect(e: Exec, self: Address, w: World, w': World, received: Slice, data: seq<Word>, store: Slice,
                              data': seq<Word>, store': Slice)
    requires |data| >= Pops(e) && StackDeepEnough(Touches(e), data) && Reachable(Touches(e), data, |store|)
  {
    var rest := data[..|data| - Pops(e)];
    match e
    case SLoad => w' == w && data' == rest + [w.State(Slot(self, BackOf(data, 0)))] && store' == store
    case ExtCodeCopy =>
      && w' == w && data' == rest
      && Copied(store, store', BackOf(data, 1), BackOf(data, 2), BackOf(data, 3), w.Code(ToAddress(BackOf(data, 0))))
    case ReturnDataCopy =>
      w' == w && data' == rest && Copied(store, store', BackOf(data, 0), BackOf(data, 1), BackOf(data, 2), received)
    case SStore => w' == w.SetState(Slot(self, BackOf(data, 0)), BackOf(data, 1)) && data' == rest && store' == store
    case Log(n) => w' == w.AddLog(LogOf(self, n, data, store)) && data' == rest && store' == store
    case SelfDestruct =>
      && w' == w.AddBalance(ToAddress(BackOf(data, 0)), w.Balance(self)).Suicide(self)
      && data' == rest && store' == store
    case _ => true
  }

  /** The operands of a creation, taken off the stack, with the init code read from memory. */
  method PopCreate(salted: bool, contract: Contract, stack: Stack, mem: Memory) returns (value: Word, input: Slice)
    requires Ready(Exec.Create(salted), contract, stack, mem)
    modifies stack
    ensures stack.data == old(stack.data)[..|old(stack.data)| - Pops(Exec.Create(salted))]
    ensures |stack.data| + (if salted then 4 else 3) == |old(stack.data)|
    ensures value == old(stack.Back(0)) && |input| == old(stack.Back(2))
    ensures forall k :: 0 <= k < |input| ==> input[k] == mem.store[old(stack.Back(1)) + k]
  {
    value := stack.Back(0);
    input := mem.Read(Low64(stack.Back(1)), Low64(stack.Back(2)));
    OpPure(stack, if salted then 4 else 3, 0);
  }

  /** What an instruction that neither calls nor creates has done, of whichever kind it is. */
  ghost predicate Executed(e: Exec, contract: Contract, pc: nat, w: World, w': World, received: Slice, data: seq<Word>,
                          store: Slice, data': seq<Word>, store': Slice, next: Uint64, res: Slice, err: Error)
  {
    && |data| >= Pops(e) && StackDeepEnough(Touches(e), data) && Reachable(Touches(e), data, |store|)
    && (e.Dup? || e.Swap? ==> e.n >= 1)
    && (IsLocal(e) && !e.Jump? && !e.JumpI? ==> Effect(e, contract, pc, data, store, data', store', res))
    && (err == NoError ==> Goes(e, contract.code, pc, data, next))
    && (!IsLocal(e) && (err == NoError || err == StopToken) ==>
          StateEffect(e, contract.self, w, w', received, data, store, data', store'))
  }

  /** Instructions that neither call nor create nor write to the state read it or stay in their frame. */
  lemma Kinds(e: Exec)
    requires !e.Create? && !e.Call? && !e.SStore? && !e.Log? && !e.SelfDestruct?
    ensures IsLocal(e) || e.SLoad? || e.ExtCodeCopy? || e.ReturnDataCopy?
  {
  }

  lemma CallShape(e: Exec)
    requires e.Create? || e.Call?
    ensures Pushes(e) == 1
    ensures Pops(e) == if e.Create? then if e.salted then 4 else 3 else if e.kind == CallOp || e.kind == CallCodeOp then 7 else 6
  {
  }

  /** Takes the dynamic gas and, if it is there, makes room. */
  method PayAndGrow(contract: Contract, mem: Memory, cost: Uint64, size: Uint64) returns (paid: bool)
    requires contract.Valid() && mem.Charged(size)
    modifies contract`gas, mem`store
    ensures contract.Valid() && (paid <==> cost <= old(contract.gas))
    ensures contract.gas == if paid then old(contract.gas) - cost else old(contract.gas)
    ensures paid ==> mem.Valid() && |mem.store| == Max(|old(mem.store)|, size)
  {
    paid := contract.UseGas(cost);
    if paid {
      mem.Resize(size);
    }
  }

  /** The end of a call instruction: the flag goes on the stack and what came back into memory. */
  method Deliver(kind: CallKind, failure: Error, res: Slice, c: CallOperands, stack: Stack, mem: Memory, ghost data: seq<Word>)
    requires |data| >= (if kind == CallOp || kind == CallCodeOp then 7 else 6) && mem.Valid()
    requires var i := if kind == CallOp || kind == CallCodeOp then 5 else 4;
      c.retOffset == Low64(BackOf(data, i)) && c.retSize == BackOf(data, i + 1)
    requires InBounds(c.retOffset, c.retSize, |mem.store|)
    modifies stack, mem`store
    ensures mem.Valid() && stack.data == old(stack.data) + [if failure == NoError then 1 else 0]
    ensures Received(old(mem.store), mem.store, kind, data, if failure == NoError || failure == Reverted then res else [])
  {
    stack.Push(if failure == NoError then 1 else 0);
    if failure == NoError || failure == Reverted {
      mem.Set(c.retOffset, c.retSize, res);
    }
  }

  /** What the table guarantees about the entry the loop fetched. */
  lemma EntryFacts(jt: JumpTable, op: Byte, eip150: bool)
    requires TableOk(jt) && (UsesAccessLists(jt) ==> eip150)
    ensures SlotOk(op, jt[op])
    ensures forall depth: nat :: jt[op].minStack <= depth ==> GasOk(jt[op].gas, depth, Clears(jt), eip150)
    ensures jt[op].gas.Store? ==> op == SSTORE
  {
    assert SlotOk(op, jt[op]);
    if jt[op].exec.SStore? {
      assert op == SSTORE;
    }
  }

  lemma DeepEnough(op: Operation, data: seq<Word>)
    requires EntryOk(op) && |data| >= op.minStack
    ensures StackDeepEnough(op.memory, data)
  {
  }

  /** How a frame without code ends. */
  predicate Idle(ret: Slice, gas: nat, left: nat, err: Error)
  {
    ret == [] && left == gas && err == NoError
  }

  /** The state a called account finds: created if it has to be, and paid. Nothing happens when an account that
      does not exist is sent nothing. */
  function Arrival(w: World, caller: Address, addr: Address, value: nat, precompiled: bool): World
    requires value <= w.Balance(caller)
  {
    if !w.Exist(addr) && !precompiled && value == 0 then w
    else (if w.Exist(addr) then w else w.CreateAccount(addr)).Transfer(caller, addr, value)
  }

  /** Errors a frame can end with: a call is refused before there is a frame, and code is stored after it. */
  predicate InFrame(err: Error)
  {
    match err
    case DepthExceeded | InsufficientBalance | CodeStoreOutOfGas | NonceOverflow => false
    case _ => true
  }

  lemma FollowsItself(w: World, readOnly: bool)
    requires w.Consistent()
    ensures Follows(w, w, readOnly)
  {
  }

  method OpExtCodeCopy(stack: Stack, mem: Memory, code: Slice)
    requires |stack.data| >= 4 && mem.Valid() && Fits(stack.Back(1), stack.Back(3), |mem.store|)
    modifies stack, mem`store
    ensures mem.Valid() && stack.data == old(stack.data)[..|old(stack.data)| - 4]
    ensures Copied(old(mem.store), mem.store, old(stack.Back(1)), old(stack.Back(2)), old(stack.Back(3)), code)
  {
    CopyToMemory(mem, stack.Back(1), stack.Back(2), stack.Back(3), code);
    OpPure(stack, 4, 0);
  }

  /** opReturnDataCopy refuses to read past the data of the last call. */
  method OpReturnDataCopy(stack: Stack, mem: Memory, data: Slice) returns (err: Error)
    requires |stack.data| >= 3 && mem.Valid() && Fits(stack.Back(0), stack.Back(2), |mem.store|)
    modifies stack, mem`store
    ensures mem.Valid() && stack.data == old(stack.data)[..|old(stack.data)| - 3]
    ensures err == if old(stack.Back(1)) + old(stack.Back(2)) <= |data| then NoError else ReturnDataOutOfBounds
    ensures err == NoError ==>
      Copied(old(mem.store), mem.store, old(stack.Back(0)), old(stack.Back(1)), old(stack.Back(2)), data)
  {
    var memOffset := stack.Pop();
    var dataOffset := stack.Pop();
    var length := stack.Pop();
    if !IsUint64(dataOffset) {
      return ReturnDataOutOfBounds;
    }
    var end := WrapWord(dataOffset + length);
    if !IsUint64(end) || |data| < end {
      return ReturnDataOutOfBounds;
    }
    var offset64, length64 := Low64(memOffset), Low64(length);
    mem.Set(offset64, length64, data[dataOffset..end]);
    err := NoError;
  }

  predicate StoreUsesList(jt: JumpTable)
  {
    jt[SSTORE].gas.Store? && UsesAccessList(jt[SSTORE].gas.schedule)
  }

  /** Calls put their target in the access list whenever SSTORE looks there. */
  ghost predicate CallsList(jt: JumpTable)
  {
    StoreUsesList(jt) ==> forall i :: 0 <= i < 256 && jt[i].gas.CallGas? ==> jt[i].gas.access
  }

  /** What a gas function needs of the frame it is called in. */
  ghost predicate GasOk(g: DynamicGas, depth: nat, clears: nat, eip150: bool)
  {
    && Inspects(g) <= depth
    && (g.Store? ==> Known(g.schedule) && g.schedule.clears == clears)
    && (g.CallGas? && g.access ==> eip150)
    && (g.LogData? ==> g.topics <= 4)
    && (g.ExpBytes? ==> g.perByte <= 50)
  }

  /** gasExpFrontier and gasExpEIP158. */
  method ExpGas(perByte: nat, exponent: Word) returns (cost: Uint64)
    requires perByte <= 50
    ensures cost == perByte * ByteLength(exponent) + 10
  {
    ExponentBytes(exponent);
    ProductMonotone(ByteLength(exponent), perByte, 50);
    var sum := SafeAdd(perByte * ByteLength(exponent), 10);
    cost := sum.0;
  }

  /** The value operand of a call, for the kinds that have one. */
  function CallValue(kind: CallKind, data: seq<Word>): Word
    requires |data| >= if kind == CallOp || kind == CallCodeOp then 3 else 0
  {
    if kind == CallOp || kind == CallCodeOp then BackOf(data, 2) else 0
  }
}
