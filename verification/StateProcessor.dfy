/** Processing the transactions of a block one after the other. */
module StateProcessor {
  import opened Options
  import opened Numbers
  import opened Contracts
  import opened StateDB
  import opened JumpTables
  import opened Machine
  import opened StateTransition

  datatype Receipt = Receipt(gasUsed: Uint64, cumulative: Uint64)

  /** Gas used by the first n receipts. */
  function GasUpTo(receipts: seq<Receipt>, n: nat): nat
    requires n <= |receipts|
  {
    if n == 0 then 0 else GasUpTo(receipts, n - 1) + receipts[n - 1].gasUsed
  }

  lemma {:induction false} GasUpToPrefix(a: seq<Receipt>, b: seq<Receipt>, n: nat)
    requires n <= |a| && a <= b
    ensures GasUpTo(a, n) == GasUpTo(b, n)
  {
    if n > 0 {
      GasUpToPrefix(a, b, n - 1);
    }
  }

  /** What each unit of gas takes out of circulation: the base fee, once there is one. */
  function BurntPerGas(baseFee: Option<nat>): nat { if baseFee.Some? then baseFee.value else 0 }

  /** The price of a transaction splits into the coinbase's tip and what is burnt. */
  lemma PriceSplits(tx: Transaction, baseFee: Option<nat>, env: BlockEnv)
    requires baseFee.Some? ==> env.baseFee == baseFee.value && FeeCheck(env, AsMessage(tx, baseFee)) == Applied
    ensures var m := AsMessage(tx, baseFee);
      m.gasPrice - EffectiveTip(baseFee.Some?, env, m) == BurntPerGas(baseFee)
  {
    if baseFee.Some? {
      BaseFeeIsBurnt(tx, env);
    }
  }

  lemma Accumulates(used: nat, gas: nat, fee: nat)
    ensures (used + gas) * fee == used * fee + gas * fee
  {
  }

  /** Each receipt carries its own gas and the running total. */
  ghost predicate Totalled(receipts: seq<Receipt>, txs: seq<Transaction>)
  {
    |receipts| <= |txs| && forall k :: 0 <= k < |receipts| ==>
      receipts[k].gasUsed <= txs[k].gas && receipts[k].cumulative == GasUpTo(receipts, k + 1)
  }

  lemma TotalledStep(receipts: seq<Receipt>, txs: seq<Transaction>, gas: Uint64, used: Uint64)
    requires Totalled(receipts, txs) && |receipts| < |txs| && gas <= txs[|receipts|].gas
    requires used == GasUpTo(receipts, |receipts|) + gas
    ensures var more := receipts + [Receipt(gas, used)];
      Totalled(more, txs) && used == GasUpTo(more, |more|)
  {
    var more := receipts + [Receipt(gas, used)];
    forall k | 0 <= k <= |receipts|
      ensures GasUpTo(receipts, k) == GasUpTo(more, k)
    {
      GasUpToPrefix(receipts, more, k);
    }
  }

  /** Process: on success every transaction has a receipt with the running total, the gas left in the pool and
      the gas used make up the block's limit, and the ether in the state has shrunk by at least the base fee on
      all gas used. The limit also bounds the counter, so it cannot wrap, and the pool never overflows. */
  method Process(evm: EVM, txs: seq<Transaction>, baseFee: Option<nat>, env: BlockEnv, gasLimit: Uint64)
    returns (receipts: seq<Receipt>, used: Uint64, left: Uint64, ok: bool)
    requires evm.Valid() && evm.Covered() && evm.depth == 0 && !evm.readOnly
    requires evm.london == baseFee.Some? && (baseFee.Some? ==> env.baseFee == baseFee.value)
    modifies evm
    ensures ok ==> |receipts| == |txs| && left + used == gasLimit && used == GasUpTo(receipts, |receipts|)
    ensures ok ==> Totalled(receipts, txs)
    ensures ok ==> evm.world.Ether() + used * BurntPerGas(baseFee) <= old(evm.world).Ether()
  {
    receipts, used, ok := [], 0, true;
    var gp := new GasPool(gasLimit);
    for i := 0 to |txs|
      invariant evm.Valid() && evm.Covered() && evm.depth == 0 && !evm.readOnly
      invariant gp.gas + used == gasLimit && |receipts| == i && used == GasUpTo(receipts, i)
      invariant Totalled(receipts, txs)
      invariant evm.world.Ether() + used * BurntPerGas(baseFee) <= old(evm.world).Ether()
    {
      var gas, err := ApplyTransaction(evm, gp, txs[i], baseFee, env);
      if err != Applied {
        return [], 0, gp.gas, false;
      }
      Accumulates(used, gas, BurntPerGas(baseFee));
      used := used + gas;
      TotalledStep(receipts, txs, gas, used);
      receipts := receipts + [Receipt(gas, used)];
    }
    left := gp.gas;
  }

  /** A settled transition of a transaction burns the base fee on the gas used. */
  lemma Burns(st: StateTransition, start: World, ran: World, after: World, gas: nat, tx: Transaction, baseFee: Option<nat>)
    requires gas <= st.msg.gas && st.Settled(start, ran, after, gas) && st.msg == AsMessage(tx, baseFee)
    requires st.evm.london == baseFee.Some? && (baseFee.Some? ==> st.env.baseFee == baseFee.value)
    requires baseFee.Some? ==> FeeCheck(st.env, st.msg) == Applied
    ensures after.Ether() + gas * BurntPerGas(baseFee) <= start.Ether()
  {
    PriceSplits(tx, baseFee, st.env);
  }

  /** applyTransaction: one transition, after which the state is finalised. */
  method ApplyTransaction(evm: EVM, gp: GasPool, tx: Transaction, baseFee: Option<nat>, env: BlockEnv)
    returns (gas: Uint64, err: TxError)
    requires evm.Valid() && evm.Covered() && evm.depth == 0 && !evm.readOnly
    requires evm.london == baseFee.Some? && (baseFee.Some? ==> env.baseFee == baseFee.value)
    modifies evm, gp
    ensures err == Applied ==> evm.Valid() && evm.Covered() && evm.depth == 0 && !evm.readOnly
    ensures err == Applied ==> gas <= tx.gas && gp.gas + gas == old(gp.gas)
    ensures err == Applied ==> evm.world.Ether() + gas * BurntPerGas(baseFee) <= old(evm.world).Ether()
  {
    var st := new StateTransition(gp, evm, AsMessage(tx, baseFee), env);
    ghost var bought, ran;
    gas, err, bought, ran := st.TransitionDb();
    if err == Applied {
      Burns(st, old(evm.world), ran, evm.world, gas, tx, baseFee);
      FinaliseEther(evm.world);
      FinaliseCovers(evm.world, Clears(evm.table));
      evm.world := evm.world.Finalise();
    }
  }
}
