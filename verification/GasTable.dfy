/** The gas functions that do not touch memory: the 63/64 rule of calls, storage writes and account access. */
module GasTable {
  import opened Numbers
  import opened StorageGas
  import opened StateDB
  import opened JumpTables

  const CALL_NEW_ACCOUNT: nat := 25000
  const CALL_VALUE_TRANSFER: nat := 9000
  const CALL_STIPEND: nat := 2300
  const COLD_ACCOUNT: nat := 2600
  const WARM_READ: nat := 100
  /** What a cold call pays on top of the warm price charged as constant gas. */
  const COLD_CALL: nat := COLD_ACCOUNT - WARM_READ
  const CREATE_BY_SELFDESTRUCT: nat := 25000
  const SELFDESTRUCT_REFUND: nat := 24000
  const SELFDESTRUCT_EIP150: nat := 5000

  /** Everything a call pays before its own gas: account creation, value transfer and memory. */
  const MAX_CALL_BASE: nat := CALL_NEW_ACCOUNT + CALL_VALUE_TRANSFER + 0x80_0003_0000_0000

  /** EIP-150: all but one 64th. */
  function AllBut64th(n: nat): nat { n - n / 64 }

  /** callGas: the gas given to a call. The subtraction is unchecked and wraps when the base cost exceeds
      the gas there is; `ok` is false on a request above 64 bits under the old rules. */
  function CallGas(eip150: bool, available: Uint64, base: Uint64, request: Word): (r: (Uint64, bool))
  {
    if eip150 then
      var rest := Wrap(available - base);
      var gas := rest - rest / 64;
      if !IsUint64(request) || gas < request then (gas, true) else (request, true)
    else if !IsUint64(request) then (0, false)
    else (request, true)
  }

  /** With the base cost covered, a call gets what it asked for up to all but one 64th of the rest. */
  lemma CallGasIsMinimum(available: Uint64, base: Uint64, request: Word)
    requires base <= available
    ensures CallGas(true, available, base, request) == (Min(request, AllBut64th(available - base)), true)
  {
  }

  /** When the subtraction wraps, the sum that is charged stays above the gas there is, and it stays far
      enough below 2^64 that adding the cold-access cost unchecked does not wrap either: the charge fails
      as it should. */
  lemma WrappedCallIsRefused(available: Uint64, base: Uint64, request: Word)
    requires available < base <= MAX_CALL_BASE
    ensures var total := base + CallGas(true, available, base, request).0;
      total > available && total + COLD_CALL <= MAX_UINT64
  {
    var rest := Wrap(available - base);
    assert rest == TWO_64 + available - base;
    assert rest / 64 >= (TWO_64 - MAX_CALL_BASE) / 64;
  }

  /** Under EIP-150 the unchecked addition of the cold-access cost never wraps. */
  lemma ColdSumFits(available: Uint64, base: Uint64, request: Word)
    requires base <= MAX_CALL_BASE && available + COLD_CALL <= MAX_UINT64
    ensures base + CallGas(true, available, base, request).0 + COLD_CALL <= MAX_UINT64
  {
    if base <= available {
      CallGasIsMinimum(available, base, request);
    } else {
      WrappedCallIsRefused(available, base, request);
    }
  }

  /** A cold call priced by makeCallVariantGasCallEIP2929 that the caller's gas covers after wrap-around
      although the true sum exceeds it. */
  ghost predicate WrongCharge(eip150: bool, available: Uint64, base: Uint64, request: Word)
  {
    && base <= MAX_CALL_BASE && available + COLD_CALL <= MAX_UINT64
    && var r := CallGas(eip150, available, base, request);
      && r.1 && base + r.0 <= MAX_UINT64
      && Wrap(base + r.0 + COLD_CALL) <= available + COLD_CALL < base + r.0 + COLD_CALL
  }

  /** The access-list wrapper prices every call soundly exactly when the rules of EIP-150 are on: without
      them a request of 2^64 - 1 gas is charged 2499. */
  lemma WrapperSoundIffEip150(eip150: bool)
    ensures (forall available: Uint64, base: Uint64, request: Word :: !WrongCharge(eip150, available, base, request)) <==> eip150
  {
    if eip150 {
      forall available: Uint64, base: Uint64, request: Word
        ensures !WrongCharge(eip150, available, base, request)
      {
        if base <= MAX_CALL_BASE && available + COLD_CALL <= MAX_UINT64 {
          ColdSumFits(available, base, request);
        }
      }
    } else {
      assert WrongCharge(eip150, 100000, 0, MAX_UINT64);
    }
  }

  /** The part of a call's base cost that does not depend on memory. */
  function CallSurcharge(w: World, kind: CallKind, addr: Address, value: Word): (c: nat)
    ensures c <= CALL_NEW_ACCOUNT + CALL_VALUE_TRANSFER
    ensures (kind == CallOp || kind == CallCodeOp) && value != 0 ==> c >= CALL_VALUE_TRANSFER
  {
    (if kind == CallOp && !w.Exist(addr) then CALL_NEW_ACCOUNT else 0)
    + (if (kind == CallOp || kind == CallCodeOp) && value != 0 then CALL_VALUE_TRANSFER else 0)
  }

  /** The gas a call gets: all it asks for under the old rules, and since EIP-150 at most all but one 64th of
      what its base cost leaves. */
  function CallShare(eip150: bool, available: nat, base: nat, request: Word): nat
  {
    if !eip150 then request else if base <= available then Min(request, AllBut64th(available - base)) else 0
  }

  datatype CallPrice = CallPrice(cost: Uint64, share: Uint64, ok: bool)

  /** The common tail of the call gas functions: base cost, the call's own share, and their sum, with the
      additions checked. */
  function PriceCall(eip150: bool, available: Uint64, surcharge: nat, memoryGas: Uint64, request: Word): (p: CallPrice)
    requires surcharge <= CALL_NEW_ACCOUNT + CALL_VALUE_TRANSFER && memoryGas <= 0x80_0003_0000_0000
    ensures p.ok ==> p.cost == surcharge + memoryGas + p.share
    ensures p.ok && p.cost <= available <==>
      surcharge + memoryGas + CallShare(eip150, available, surcharge + memoryGas, request) <= available
    ensures p.ok && p.cost <= available ==> p.share == CallShare(eip150, available, surcharge + memoryGas, request)
    ensures p.ok && eip150 && available + COLD_CALL <= MAX_UINT64 ==> p.cost + COLD_CALL <= MAX_UINT64
  {
    var base := SafeAdd(surcharge, memoryGas);
    var share := CallGas(eip150, available, base.0, request);
    var sum := SafeAdd(base.0, share.0);
    assert eip150 && base.0 <= available ==> share.0 == Min(request, AllBut64th(available - base.0)) by {
      if eip150 && base.0 <= available { CallGasIsMinimum(available, base.0, request); }
    }
    assert eip150 && base.0 > available ==> base.0 + share.0 > available by {
      if eip150 && base.0 > available { WrappedCallIsRefused(available, base.0, request); }
    }
    assert eip150 && available + COLD_CALL <= MAX_UINT64 ==> base.0 + share.0 + COLD_CALL <= MAX_UINT64 by {
      if eip150 && available + COLD_CALL <= MAX_UINT64 { ColdSumFits(available, base.0, request); }
    }
    CallPrice(sum.0, share.0, !base.1 && share.1 && !sum.1)
  }

  // ----- state-dependent gas -----

  datatype Outcome = Charged(world: World, cost: nat) | Refused | Fault

  /** EIP-2200 and later refuse a write when little gas is left. */
  predicate HasSentry(s: Schedule) { s != EIP1283 }

  predicate UsesAccessList(s: Schedule) { s == EIP2929 || s == EIP3529 }

  /** gasSStore, gasSStoreEIP2200 and makeGasSStoreFunc. */
  function StoreGas(s: Schedule, w: World, gasLeft: nat, slot: Slot, value: Word): Outcome
    requires w.Covers(s.clears)
  {
    StoreCovers(w, slot, value, s);
    var c := Price(s, w.Committed(slot), w.State(slot), value);
    var w' := w.AddRefund(c.add).SubRefund(c.sub);
    if HasSentry(s) && gasLeft <= SENTRY then Refused
    else if !UsesAccessList(s) || slot in w.accessSlots then Charged(w', c.gas)
    else if slot.addr !in w.accessAddrs then Fault
    else Charged(w'.AddSlotToAccessList(slot), c.gas + COLD_SLOAD)
  }

  /** What a write costs: its price, and once the surcharge of a cold slot. */
  function StorePrice(s: Schedule, w: World, slot: Slot, value: Word): nat
  {
    Price(s, w.Committed(slot), w.State(slot), value).gas
    + (if UsesAccessList(s) && slot !in w.accessSlots then COLD_SLOAD else 0)
  }

  lemma PriceBounds(s: Schedule, original: Word, current: Word, value: Word)
    requires Known(s)
    ensures s.noop <= Price(s, original, current, value).gas <= 20000
  {
  }

  lemma AccessKeepsCleared(w: World, slot: Slot, value: Word)
    ensures w.AddSlotToAccessList(slot).SetState(slot, value).Cleared() == w.SetState(slot, value).Cleared()
  {
  }

  /** A charged write leaves the state as it was, holds the counter ready for the write to happen, and
      costs at least the no-op price. */
  lemma StoreGasSound(s: Schedule, w: World, gasLeft: nat, slot: Slot, value: Word)
    requires w.Covers(s.clears) && Known(s)
    ensures var r := StoreGas(s, w, gasLeft, slot, value);
      r.Charged? ==>
        && s.noop <= r.cost <= 22100 && r.cost == StorePrice(s, w, slot, value)
        && SameState(w, r.world) && r.world.existing == w.existing && w.accessAddrs <= r.world.accessAddrs
        && r.world.SetState(slot, value).Covers(s.clears)
  {
    StoreCovers(w, slot, value, s);
    PriceBounds(s, w.Committed(slot), w.State(slot), value);
    var c := Price(s, w.Committed(slot), w.State(slot), value);
    AccessKeepsCleared(w.AddRefund(c.add).SubRefund(c.sub), slot, value);
  }

  /** A write panics exactly when access lists are in use and neither the slot nor the contract's own
      address ever got into one. */
  lemma StorePanicsIff(s: Schedule, w: World, gasLeft: nat, slot: Slot, value: Word)
    requires w.Covers(s.clears)
    ensures StoreGas(s, w, gasLeft, slot, value).Fault? <==>
      UsesAccessList(s) && gasLeft > SENTRY && slot !in w.accessSlots && slot.addr !in w.accessAddrs
  {
  }

  /** The account-access functions only move addresses and slots into the access list and add refunds. */
  ghost predicate OnlyTouches(v: World, w: World)
  {
    && SameState(v, w) && v.existing == w.existing && v.committed == w.committed && w.refund >= v.refund
    && v.accessAddrs <= w.accessAddrs
  }

  lemma TouchCovers(v: World, w: World, clears: nat)
    requires OnlyTouches(v, w) && v.Covers(clears)
    ensures w.Covers(clears)
  {
    CoversFrame(v, w, clears);
  }

  /** gasSLoadEIP2929. */
  function SLoadGas(w: World, slot: Slot): (r: Outcome)
    ensures r.Charged? && OnlyTouches(w, r.world) && slot in r.world.accessSlots
    ensures r.cost == if slot in w.accessSlots then WARM_READ else COLD_SLOAD
  {
    if slot in w.accessSlots then Charged(w, WARM_READ) else Charged(w.AddSlotToAccessList(slot), COLD_SLOAD)
  }

  /** gasEip2929AccountCheck: the part above the warm price. */
  function AccountGas(w: World, a: Address): (r: Outcome)
    ensures r.Charged? && OnlyTouches(w, r.world) && a in r.world.accessAddrs
    ensures r.cost == if a in w.accessAddrs then 0 else COLD_CALL
  {
    if a in w.accessAddrs then Charged(w, 0) else Charged(w.AddAddressToAccessList(a), COLD_CALL)
  }

  /** gasSelfdestruct. */
  function SelfDestructGas(w: World, eip150: bool, self: Address, beneficiary: Address): (r: Outcome)
    ensures r.Charged? && OnlyTouches(w, r.world) && r.cost <= SELFDESTRUCT_EIP150 + CREATE_BY_SELFDESTRUCT
  {
    var cost := if !eip150 then 0
                else SELFDESTRUCT_EIP150 + (if w.Exist(beneficiary) then 0 else CREATE_BY_SELFDESTRUCT);
    Charged(if self in w.suicided then w else w.AddRefund(SELFDESTRUCT_REFUND), cost)
  }

  /** makeSelfdestructGasFn. */
  function SelfDestructGas2929(w: World, refunds: bool, self: Address, beneficiary: Address): (r: Outcome)
    ensures r.Charged? && OnlyTouches(w, r.world) && r.cost <= COLD_ACCOUNT + CREATE_BY_SELFDESTRUCT
  {
    var cold := beneficiary !in w.accessAddrs;
    var w1 := if cold then w.AddAddressToAccessList(beneficiary) else w;
    var cost := (if cold then COLD_ACCOUNT else 0)
                + (if w.Empty(beneficiary) && w.Balance(self) != 0 then CREATE_BY_SELFDESTRUCT else 0);
    Charged(if refunds && self !in w.suicided then w1.AddRefund(SELFDESTRUCT_REFUND) else w1, cost)
  }

  /** The number of bytes of an exponent. */
  function ByteLength(w: Word): nat
  {
    if w == 0 then 0 else 1 + ByteLength(w / 256)
  }

  lemma {:induction false} ByteLengthBound(w: nat, n: nat, bound: nat)
    requires w < TWO_256 && w < bound && bound == Pow256(n)
    ensures ByteLength(w) <= n
    decreases n
  {
    if n > 0 && w > 0 {
      ByteLengthBound(w / 256, n - 1, Pow256(n - 1));
    }
  }

  function Pow256(n: nat): nat { if n == 0 then 1 else 256 * Pow256(n - 1) }

  lemma Pow256Step(n: nat)
    ensures Pow256(n + 8) == TWO_64 * Pow256(n)
  {
    assert Pow256(n + 2) == 256 * Pow256(n + 1) == 0x1_0000 * Pow256(n);
    assert Pow256(n + 4) == 256 * Pow256(n + 3) == 0x1_0000 * Pow256(n + 2);
    assert Pow256(n + 6) == 256 * Pow256(n + 5) == 0x1_0000 * Pow256(n + 4);
    assert Pow256(n + 8) == 256 * Pow256(n + 7) == 0x1_0000 * Pow256(n + 6);
  }

  lemma ExponentBytes(w: Word)
    ensures ByteLength(w) <= 32
  {
    Pow256Step(0);
    Pow256Step(8);
    Pow256Step(16);
    Pow256Step(24);
    ByteLengthBound(w, 32, TWO_256);
  }
}
