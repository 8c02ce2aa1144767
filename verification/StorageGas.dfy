/** Net gas metering of SSTORE: gasSStore (EIP-1283), gasSStoreEIP2200 and makeGasSStoreFunc
    (EIP-2929 and EIP-3529) differ only in their prices, so they share one decision tree. */
module StorageGas {
  import opened Numbers

  datatype Schedule = Schedule(
    noop: nat,        // current == value, or the slot is already dirty
    init: nat,        // clean zero slot
    clean: nat,       // clean non-zero slot
    clears: nat,      // refund for clearing a slot that was non-zero at the start
    resetZero: nat,   // refund for restoring an original zero
    resetOther: nat)  // refund for restoring an original non-zero value

  const EIP1283 := Schedule(200, 20000, 5000, 15000, 19800, 4800)
  const EIP2200 := Schedule(800, 20000, 5000, 15000, 20000 - 800, 5000 - 800)
  const EIP2929 := Schedule(100, 20000, 5000 - 2100, 15000, 20000 - 100, 5000 - 2100 - 100)
  const EIP3529 := Schedule(100, 20000, 5000 - 2100, 5000 - 2100 + 1900, 20000 - 100, 5000 - 2100 - 100)

  const COLD_SLOAD: nat := 2100
  const SENTRY: nat := 2300

  /** The four price lists the instruction tables use. */
  predicate Known(s: Schedule) { s == EIP1283 || s == EIP2200 || s == EIP2929 || s == EIP3529 }

  /** Gas charged and change of the refund counter for one write. */
  datatype Charge = Charge(gas: nat, add: nat, sub: nat)

  function Price(s: Schedule, original: Word, current: Word, value: Word): (c: Charge)
  {
    if current == value then Charge(s.noop, 0, 0)
    else if original == current then
      if original == 0 then Charge(s.init, 0, 0)
      else if value == 0 then Charge(s.clean, s.clears, 0)
      else Charge(s.clean, 0, 0)
    else
      var sub := if original != 0 && current == 0 then s.clears else 0;
      var cleared := if original != 0 && current != 0 && value == 0 then s.clears else 0;
      var reset := if original != value then 0 else if original == 0 then s.resetZero else s.resetOther;
      Charge(s.noop, cleared + reset, sub)
  }

  /** Whether a slot counts as cleared: non-zero when the transaction began, zero now. */
  predicate IsCleared(original: Word, current: Word) { original != 0 && current == 0 }

  /** The clearing refund is held exactly while the slot is cleared: what a write adds to the counter
      beyond what it takes away never falls short of the change in the number of cleared slots. */
  lemma ClearingRefundFollowsSlot(s: Schedule, original: Word, current: Word, value: Word)
    ensures var c := Price(s, original, current, value);
      && (c.sub > 0 ==> IsCleared(original, current) && !IsCleared(original, value) && c.sub == s.clears)
      && (IsCleared(original, value) && !IsCleared(original, current) ==> c.sub == 0 && c.add >= s.clears)
      && (IsCleared(original, current) && !IsCleared(original, value) ==> c.sub == s.clears)
      && (IsCleared(original, value) == IsCleared(original, current) ==> c.sub == 0)
  {
  }

  /** What a slot standing at `current` has cost net of refunds, beyond the no-op price per write. */
  function Potential(s: Schedule, original: Word, current: Word): int
  {
    if current == original then 0
    else if original == 0 then s.init - s.noop
    else if current == 0 then s.clean - s.noop - s.clears
    else s.clean - s.noop
  }

  /** Gas charged minus refunds granted over a sequence of writes to one slot. */
  function NetCost(s: Schedule, original: Word, current: Word, values: seq<Word>): int
    decreases |values|
  {
    if values == [] then 0
    else
      var c := Price(s, original, current, values[0]);
      c.gas - c.add + c.sub + NetCost(s, original, values[0], values[1..])
  }

  function Final(current: Word, values: seq<Word>): Word
  {
    if values == [] then current else values[|values| - 1]
  }

  /** Over any sequence of writes to one slot the net cost is the no-op price per write plus a
      potential that depends only on where the slot started and where it ended. */
  lemma {:induction false} NetCostTelescopes(s: Schedule, original: Word, current: Word, values: seq<Word>)
    requires Known(s)
    ensures NetCost(s, original, current, values)
      == |values| * s.noop + Potential(s, original, Final(current, values)) - Potential(s, original, current)
    decreases |values|
  {
    if values != [] {
      NetCostTelescopes(s, original, values[0], values[1..]);
      assert Final(current, values) == Final(values[0], values[1..]);
      assert |values| * s.noop == s.noop + |values[1..]| * s.noop;
    }
  }

  /** One EIP-2929 write: the slot is added to the access list, and a cold slot costs 2100 more. */
  function ColdPrice(s: Schedule, warm: bool, original: Word, current: Word, value: Word): Charge
  {
    var c := Price(s, original, current, value);
    if warm then c else c.(gas := c.gas + COLD_SLOAD)
  }

  function ColdNetCost(s: Schedule, warm: bool, original: Word, current: Word, values: seq<Word>): int
    decreases |values|
  {
    if values == [] then 0
    else
      var c := ColdPrice(s, warm, original, current, values[0]);
      c.gas - c.add + c.sub + ColdNetCost(s, true, original, values[0], values[1..])
  }

  /** With access lists the same law holds plus exactly one cold charge, paid by the first write if
      the slot was not yet in the list. */
  lemma {:induction false} ColdNetCostTelescopes(s: Schedule, warm: bool, original: Word, current: Word, values: seq<Word>)
    requires Known(s)
    ensures ColdNetCost(s, warm, original, current, values)
      == |values| * s.noop + Potential(s, original, Final(current, values)) - Potential(s, original, current)
         + (if warm || values == [] then 0 else COLD_SLOAD)
  {
    if values != [] {
      WarmIsPlain(s, original, values[0], values[1..]);
      NetCostTelescopes(s, original, current, values);
    }
  }

  lemma {:induction false} WarmIsPlain(s: Schedule, original: Word, current: Word, values: seq<Word>)
    ensures ColdNetCost(s, true, original, current, values) == NetCost(s, original, current, values)
    decreases |values|
  {
    if values != [] {
      WarmIsPlain(s, original, values[0], values[1..]);
    }
  }

  /** Resetting a slot to its original value leaves only the no-op price per write: no sequence of
      writes that ends where it began can be cheaper or dearer. */
  lemma RoundTripCostsNoops(s: Schedule, original: Word, values: seq<Word>)
    requires Known(s)
    requires values != [] && values[|values| - 1] == original
    ensures NetCost(s, original, original, values) == |values| * s.noop
  {
    NetCostTelescopes(s, original, original, values);
  }
}
