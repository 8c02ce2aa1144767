/** Applying transactions to the state: buying gas, running the machine, refunding, and paying the coinbase. */
module StateTransition {
  import opened Options
  import opened Numbers
  import opened Contracts
  import opened JumpTables
  import opened StateDB
  import opened Instructions
  import opened Machine

  const TX_GAS: nat := 21000
  const TX_GAS_CREATION: nat := 53000
  const TX_DATA_NONZERO: nat := 68
  const TX_DATA_ZERO: nat := 4
  const ACCESS_LIST_ADDRESS: nat := 2400
  const ACCESS_LIST_KEY: nat := 1900

  /** The gas left in a block. */
  class GasPool {
    var gas: Uint64

    constructor (limit: Uint64)
      ensures gas == limit
    {
      gas := limit;
    }

    /** AddGas panics when the sum leaves 64 bits. */
    method AddGas(amount: Uint64)
      requires gas + amount <= MAX_UINT64
      modifies this
      ensures gas == old(gas) + amount
    {
      gas := gas + amount;
    }

    method SubGas(amount: Uint64) returns (ok: bool)
      modifies this
      ensures ok <==> amount <= old(gas)
      ensures gas == if ok then old(gas) - amount else old(gas)
    {
      if gas < amount {
        return false;
      }
      gas := gas - amount;
      return true;
    }
  }

  datatype Message = Message(
    from: Address, to: Option<Address>, nonce: Uint64, gas: Uint64,
    gasPrice: nat, gasFeeCap: nat, gasTipCap: nat, value: Word, data: Slice,
    listedAddresses: nat, listedKeys: nat, isFake: bool)

  datatype Transaction = Transaction(
    from: Address, to: Option<Address>, nonce: Uint64, gas: Uint64,
    feeCap: nat, tipCap: nat, value: Word, data: Slice, listedAddresses: nat, listedKeys: nat)

  /** AsMessage: with a base fee the price paid is the tip on top of it, capped. */
  function AsMessage(tx: Transaction, baseFee: Option<nat>): (m: Message)
    ensures m.gasPrice <= m.gasFeeCap && m.gas == tx.gas && m.from == tx.from
  {
    var price := match baseFee case None => tx.feeCap case Some(b) => Min(tx.tipCap + b, tx.feeCap);
    Message(tx.from, tx.to, tx.nonce, tx.gas, price, tx.feeCap, tx.tipCap, tx.value, tx.data,
            tx.listedAddresses, tx.listedKeys, false)
  }

  datatype TxError =
    | Applied | NonceTooHigh | NonceTooLow | NonceMax | SenderNoEOA | TipAboveFeeCap | FeeTooHigh | FeeCapTooLow
    | InsufficientFunds | GasLimitReached | IntrinsicOverflow | IntrinsicTooLow | InsufficientForTransfer | Crashed
    | NegativeBalance

  // ----- intrinsic gas -----

  function NonZeros(data: seq<Byte>): (n: nat)
    ensures n <= |data|
  {
    if data == [] then 0 else NonZeros(data[..|data| - 1]) + if data[|data| - 1] != 0 then 1 else 0
  }

  /** What a transaction pays before it runs, exactly. */
  function DataCost(data: seq<Byte>, creation: bool, homestead: bool): nat
  {
    (if creation && homestead then TX_GAS_CREATION else TX_GAS)
    + TX_DATA_NONZERO * NonZeros(data) + TX_DATA_ZERO * (|data| - NonZeros(data))
  }

  /** The intrinsic gas, as far as 64 bits hold it. */
  function Intrinsic(m: Message, creation: bool, homestead: bool): Uint64
  {
    Wrap(DataCost(m.data, creation, homestead) + ACCESS_LIST_ADDRESS * m.listedAddresses + ACCESS_LIST_KEY * m.listedKeys)
  }

  /** The division the source uses to look for overflow before multiplying. */
  lemma OverflowTest(gas: Uint64, price: nat, n: nat)
    requires price == TX_DATA_NONZERO || price == TX_DATA_ZERO
    ensures (MAX_UINT64 - gas) / price < n <==> gas + n * price > MAX_UINT64
  {
  }

  /** IntrinsicGas. The part for data is checked for overflow, the part for the access list is not. */
  method IntrinsicGas(m: Message, creation: bool, homestead: bool) returns (gas: Uint64, ok: bool)
    ensures ok <==> DataCost(m.data, creation, homestead) <= MAX_UINT64
    ensures ok ==> gas == Intrinsic(m, creation, homestead)
  {
    gas := if creation && homestead then TX_GAS_CREATION else TX_GAS;
    if |m.data| > 0 {
      var nz := 0;
      for i := 0 to |m.data|
        invariant nz == NonZeros(m.data[..i])
      {
        assert m.data[..i + 1][..i] == m.data[..i];
        if m.data[i] != 0 {
          nz := nz + 1;
        }
      }
      assert m.data[..|m.data|] == m.data;
      OverflowTest(gas, TX_DATA_NONZERO, nz);
      if (MAX_UINT64 - gas) / TX_DATA_NONZERO < nz {
        return 0, false;
      }
      gas := gas + nz * TX_DATA_NONZERO;
      var z := |m.data| - nz;
      OverflowTest(gas, TX_DATA_ZERO, z);
      if (MAX_UINT64 - gas) / TX_DATA_ZERO < z {
        return 0, false;
      }
      gas := gas + z * TX_DATA_ZERO;
    }
    gas := Wrap(gas + ACCESS_LIST_ADDRESS * m.listedAddresses + ACCESS_LIST_KEY * m.listedKeys);
    ok := true;
  }

  // ----- prices -----

  /** The block-level settings a transition depends on. */
  datatype BlockEnv = BlockEnv(coinbase: Address, baseFee: nat, noBaseFee: bool)

  /** Whether preCheck skips the fee-cap rules: base fees switched off and both caps zero. */
  predicate SkipsFeeCheck(env: BlockEnv, m: Message)
  {
    env.noBaseFee && m.gasFeeCap == 0 && m.gasTipCap == 0
  }

  /** The fee-cap rules of preCheck after London. */
  function FeeCheck(env: BlockEnv, m: Message): TxError
  {
    if SkipsFeeCheck(env, m) then Applied
    else if m.gasFeeCap >= TWO_256 || m.gasTipCap >= TWO_256 then FeeTooHigh
    else if m.gasFeeCap < m.gasTipCap then TipAboveFeeCap
    else if m.gasFeeCap < env.baseFee then FeeCapTooLow
    else Applied
  }

  /** A message that may buy its gas: its nonce is next and its sender has no code, unless it is only a call; its
      fees are in order; and the sender's balance and the block's gas cover the most it can cost. */
  predicate MayBuy(m: Message, w: World, london: bool, env: BlockEnv, pool: nat)
  {
    && (m.isFake || (w.Nonce(m.from) == m.nonce < MAX_UINT64 && w.Code(m.from) == []))
    && (london ==> FeeCheck(env, m) == Applied)
    && m.gas * m.gasFeeCap + m.value <= w.Balance(m.from)
    && m.gas <= pool
  }

  /** Its gas pays for its data. */
  predicate CoversData(m: Message, homestead: bool)
  {
    DataCost(m.data, m.to.None?, homestead) <= MAX_UINT64 && Intrinsic(m, m.to.None?, homestead) <= m.gas
  }

  /** The coinbase's share of the gas price. */
  function EffectiveTip(london: bool, env: BlockEnv, m: Message): int
  {
    if london then Min(m.gasTipCap, m.gasFeeCap - env.baseFee) else m.gasPrice
  }

  /** After preCheck the coinbase is never charged, except exactly when the fee rules were skipped under a
      base fee that is not zero: then the tip is minus the base fee. */
  lemma TipNegativeIff(env: BlockEnv, m: Message)
    requires FeeCheck(env, m) == Applied
    ensures EffectiveTip(true, env, m) < 0 <==> SkipsFeeCheck(env, m) && env.baseFee > 0
    ensures SkipsFeeCheck(env, m) ==> EffectiveTip(true, env, m) == 0 - env.baseFee
  {
  }

  /** Under EIP-1559 pricing the sender pays the base fee on top of what the coinbase gets, to the unit. */
  lemma BaseFeeIsBurnt(tx: Transaction, env: BlockEnv)
    requires FeeCheck(env, AsMessage(tx, Some(env.baseFee))) == Applied
    ensures var m := AsMessage(tx, Some(env.baseFee));
      m.gasPrice - EffectiveTip(true, env, m) == env.baseFee
  {
  }

  /** An amount of gas at a price. */
  function Cost(gas: nat, price: nat): nat { gas * price }

  /** The sender has the gas back that was not used. */
  function Refunded(w: World, m: Message, used: nat): World
    requires used <= m.gas
  {
    w.AddBalance(m.from, Cost(m.gas - used, m.gasPrice))
  }

  predicate MayReward(w: World, coinbase: Address, reward: int)
  {
    reward >= 0 || -reward <= w.Balance(coinbase)
  }

  /** AddBalance with the amount the source passes, which may be negative. */
  function Rewarded(w: World, coinbase: Address, reward: int): World
    requires MayReward(w, coinbase, reward)
  {
    if reward >= 0 then w.AddBalance(coinbase, reward) else w.SubBalance(coinbase, -reward)
  }

  /** The refund cap: half of the gas used, a fifth of it after EIP-3529. */
  function RefundQuotient(london: bool): nat { if london then 5 else 2 }

  /** The largest refund: the counter, up to a fraction of the gas used. */
  function Refund(used: nat, london: bool, counter: nat): (r: nat)
    ensures r <= counter && r * RefundQuotient(london) <= used
    ensures r < counter ==> (r + 1) * RefundQuotient(london) > used
  {
    var cap := used / RefundQuotient(london);
    if cap > counter then counter else cap
  }

  // ----- one transaction -----

  class StateTransition {
    const gp: GasPool
    const evm: EVM
    const msg: Message
    const env: BlockEnv
    var gas: Uint64
    var initialGas: Uint64

    constructor (gp: GasPool, evm: EVM, msg: Message, env: BlockEnv)
      ensures this.gp == gp && this.evm == evm && this.msg == msg && this.env == env
      ensures gas == 0 && initialGas == 0
    {
      this.gp, this.evm, this.msg, this.env := gp, evm, msg, env;
      gas, initialGas := 0, 0;
    }

    /** A machine at rest and a message whose price is within its cap. */
    ghost predicate Ready()
      reads this, evm
    {
      && evm.Valid() && evm.Covered() && evm.depth == 0 && !evm.readOnly
      && gas == 0
      && msg.gasPrice <= msg.gasFeeCap
    }

    /** buyGas: the balance has to cover the fee cap and the value, and only the price is taken. */
    method BuyGas() returns (err: TxError)
      requires Ready()
      modifies this, gp, evm`world
      ensures err == Applied || err == InsufficientFunds || err == GasLimitReached
      ensures err == InsufficientFunds <==>
        old(evm.world).Balance(msg.from) < msg.gas * msg.gasFeeCap + msg.value
      ensures err == GasLimitReached ==> old(gp.gas) < msg.gas
      ensures err != Applied ==> evm.world == old(evm.world) && gp.gas == old(gp.gas)
      ensures err == Applied ==>
        && gas == initialGas == msg.gas && gp.gas + msg.gas == old(gp.gas)
        && msg.gas * msg.gasPrice <= old(evm.world).Balance(msg.from)
        && evm.world == old(evm.world).SubBalance(msg.from, msg.gas * msg.gasPrice)
    {
      var mgval := msg.gas * msg.gasPrice;
      var balanceCheck := msg.gas * msg.gasFeeCap + msg.value;
      ProductMonotone(msg.gas, msg.gasPrice, msg.gasFeeCap);
      if evm.world.Balance(msg.from) < balanceCheck {
        return InsufficientFunds;
      }
      var ok := gp.SubGas(msg.gas);
      if !ok {
        return GasLimitReached;
      }
      gas := Wrap(gas + msg.gas);
      initialGas := msg.gas;
      evm.world := evm.world.SubBalance(msg.from, mgval);
      err := Applied;
    }

    /** preCheck: nonce, sender, fees, and then the purchase of gas. */
    method PreCheck() returns (err: TxError)
      requires Ready()
      modifies this, gp, evm`world
      ensures err == Applied ==>
        && gas == initialGas == msg.gas && gp.gas + msg.gas == old(gp.gas)
        && msg.gas * msg.gasPrice <= old(evm.world).Balance(msg.from)
        && evm.world == old(evm.world).SubBalance(msg.from, msg.gas * msg.gasPrice)
      ensures err == Applied <==> MayBuy(msg, old(evm.world), evm.london, env, old(gp.gas))
      ensures err == NonceTooHigh <==> !msg.isFake && old(evm.world).Nonce(msg.from) < msg.nonce
      ensures err == NonceTooLow <==> !msg.isFake && old(evm.world).Nonce(msg.from) > msg.nonce
      ensures err != Applied ==> evm.world == old(evm.world) && gp.gas == old(gp.gas)
      ensures err != Crashed && err != NegativeBalance
    {
      if !msg.isFake {
        var nonce := evm.world.Nonce(msg.from);
        if nonce < msg.nonce {
          return NonceTooHigh;
        } else if nonce > msg.nonce {
          return NonceTooLow;
        } else if Wrap(nonce as int + 1) < nonce {
          return NonceMax;
        }
        if evm.world.Code(msg.from) != [] {
          return SenderNoEOA;
        }
      }
      if evm.london && FeeCheck(env, msg) != Applied {
        return FeeCheck(env, msg);
      }
      err := BuyGas();
    }

    /** A message to an account without code. */
    predicate PlainTransfer(w: World)
    {
      msg.to.Some? && msg.to.value !in evm.precompiles && w.Code(msg.to.value) == []
    }

    /** What such a message does to the state: the sender's nonce goes up and the value arrives. */
    function Transferred(w: World): World
      requires PlainTransfer(w) && msg.value <= w.Balance(msg.from)
    {
      Arrival(w.SetNonce(msg.from, Wrap(w.Nonce(msg.from) as int + 1)), msg.from, msg.to.value, msg.value, false)
    }

    /** A run can only have panicked in a write of a contract that is in no access list: because a contract was
        created in the run, because calls do not make entries, or because the message's target had none. */
    ghost predicate CrashExplained(w: World)
      reads evm
    {
      || evm.created || !CallsList(evm.table)
      || (StoreUsesList(evm.table) && msg.to.Some? && msg.to.value !in w.accessAddrs)
    }

    /** Intrinsic gas, the transfer check and the run. */
    method Execute() returns (err: TxError)
      requires evm.Valid() && evm.Covered() && evm.depth == 0 && !evm.readOnly
      modifies this, evm
      ensures evm.Valid() && evm.depth == 0 && !evm.readOnly && gas <= old(gas) && initialGas == old(initialGas)
      ensures err == Crashed ==> CrashExplained(old(evm.world))
      ensures err != NegativeBalance
      ensures err == Applied || err == Crashed <==>
        && old(gas) >= Intrinsic(msg, msg.to.None?, evm.homestead) && DataCost(msg.data, msg.to.None?, evm.homestead) <= MAX_UINT64
        && msg.value <= old(evm.world).Balance(msg.from)
      ensures err == Applied ==> evm.Sound(old(evm.world), false)
      ensures (err == Applied || err == Crashed) && PlainTransfer(old(evm.world)) ==>
        && err == Applied && gas == old(gas) - Intrinsic(msg, false, evm.homestead)
        && evm.world == Transferred(old(evm.world))
    {
      var intrinsic, ok := IntrinsicGas(msg, msg.to.None?, evm.homestead);
      if !ok {
        return IntrinsicOverflow;
      }
      if gas < intrinsic {
        return IntrinsicTooLow;
      }
      gas := gas - intrinsic;
      if msg.value > 0 && evm.world.Balance(msg.from) < msg.value {
        return InsufficientForTransfer;
      }
      err := RunMessage();
    }

    /** The run itself: a creation, or a call after the sender's nonce has gone up. */
    method RunMessage() returns (err: TxError)
      requires evm.Valid() && evm.Covered() && evm.depth == 0 && !evm.readOnly
      modifies this`gas, evm
      ensures evm.Valid() && evm.depth == 0 && !evm.readOnly && gas <= old(gas) && (err == Applied || err == Crashed)
      ensures err == Crashed ==> CrashExplained(old(evm.world))
      ensures err == Applied ==> evm.Sound(old(evm.world), false)
      ensures PlainTransfer(old(evm.world)) && msg.value <= old(evm.world).Balance(msg.from) ==>
        err == Applied && gas == old(gas) && evm.world == Transferred(old(evm.world))
    {
      evm.created := false;
      if msg.to.Some? {
        err := SendMessage();
        return;
      }
      var jumpdests := new Jumpdests();
      var address: Address :| 0 <= address < TWO_160;
      var ret, left, vmerr := evm.Create(msg.from, address, msg.data, false, gas, msg.value, jumpdests);
      gas, err := left, if vmerr == Panicked then Crashed else Applied;
    }

    method SendMessage() returns (err: TxError)
      requires evm.Valid() && evm.Covered() && evm.depth == 0 && !evm.readOnly && msg.to.Some?
      modifies this`gas, evm
      ensures evm.Valid() && evm.depth == 0 && !evm.readOnly && gas <= old(gas) && (err == Applied || err == Crashed)
      ensures err == Crashed ==> CrashExplained(old(evm.world))
      ensures err == Applied ==> evm.Sound(old(evm.world), false)
      ensures PlainTransfer(old(evm.world)) && msg.value <= old(evm.world).Balance(msg.from) ==>
        err == Applied && gas == old(gas) && evm.world == Transferred(old(evm.world))
    {
      var bumped := Wrap(evm.world.Nonce(msg.from) as int + 1);
      SetNonceFollows(evm.world, msg.from, bumped, Clears(evm.table));
      evm.world := evm.world.SetNonce(msg.from, bumped);
      ghost var entered := evm.world;
      var jumpdests := new Jumpdests();
      var ret, left, vmerr := evm.Call(msg.from, msg.to.value, msg.data, gas, msg.value, jumpdests);
      gas := left;
      if vmerr == Panicked {
        return Crashed;
      }
      if vmerr != NoError {
        FollowsItself(evm.world, false);
      }
      FollowsTransitive(old(evm.world), entered, evm.world, false);
      err := Applied;
    }

    /** refundGas: part of the gas used comes back, capped; the rest of the gas is paid out and returned to the
        block. The pool cannot overflow: it only gets back part of what this transaction took. */
    method RefundGas()
      requires gas <= initialGas && gp.gas + initialGas <= MAX_UINT64
      modifies this`gas, gp, evm`world
      ensures gas == old(gas) + Refund(initialGas - old(gas), evm.london, old(evm.world).refund) <= initialGas
      ensures gp.gas == old(gp.gas) + gas
      ensures evm.world == old(evm.world).AddBalance(msg.from, Cost(gas, msg.gasPrice))
    {
      gas := gas + Refund(initialGas - gas, evm.london, evm.world.refund);
      var remaining := Cost(gas, msg.gasPrice);
      evm.world := evm.world.AddBalance(msg.from, remaining);
      gp.AddGas(gas);
    }

    /** The end of a transition: the sender gets the unused gas back, the coinbase its reward. A negative reward that
        the coinbase cannot pay would leave it with a negative balance; that is where the model stops. */
    method PayOut() returns (used: Uint64, ok: bool)
      requires gas <= initialGas == msg.gas && gp.gas + initialGas <= MAX_UINT64
      modifies this`gas, gp, evm`world
      ensures used <= msg.gas && gp.gas + used == old(gp.gas) + msg.gas
      ensures used == msg.gas - old(gas) - Refund(msg.gas - old(gas), evm.london, old(evm.world).refund)
      ensures ok <==> MayReward(Refunded(old(evm.world), msg, used), env.coinbase, used * EffectiveTip(evm.london, env, msg))
      ensures ok ==>
        evm.world == Rewarded(Refunded(old(evm.world), msg, used), env.coinbase, used * EffectiveTip(evm.london, env, msg))
      ensures old(evm.world).Consistent() ==> evm.world.Consistent()
    {
      RefundGas();
      used := initialGas - gas;
      var reward := used * EffectiveTip(evm.london, env, msg);
      ok := MayReward(evm.world, env.coinbase, reward);
      if ok {
        evm.world := Rewarded(evm.world, env.coinbase, reward);
      }
    }

    /** The states before the purchase of gas, after it, and after the run: the price of all the gas is taken, and
        the run changes only what it may; to an account without code, exactly nonce and balances. */
    ghost predicate Ran(start: World, bought: World, ran: World)
    {
      && msg.gas * msg.gasPrice <= start.Balance(msg.from)
      && bought == start.SubBalance(msg.from, msg.gas * msg.gasPrice)
      && Follows(bought, ran, false)
      && (PlainTransfer(bought) ==> msg.value <= bought.Balance(msg.from) && ran == Transferred(bought))
    }

    /** TransitionDb. Conservation: the block's gas pool loses exactly the gas used; the sender pays the gas used
        at the gas price, the coinbase gets the gas used at the effective tip, and apart from that the world
        only changed as running the message may change it, which never creates ether. Where the tip is negative the
        coinbase pays; it ends below zero exactly when the fee rules were skipped and it has too little. */
    method TransitionDb() returns (used: Uint64, err: TxError, ghost bought: World, ghost ran: World)
      requires Ready()
      modifies this, gp, evm
      ensures err == Applied ==> evm.Valid() && evm.depth == 0 && !evm.readOnly
      ensures err == Applied || err == Crashed || err == NegativeBalance <==>
        MayBuy(msg, old(evm.world), evm.london, env, old(gp.gas)) && CoversData(msg, evm.homestead)
      ensures err == Crashed ==> CrashExplained(old(evm.world)) && !PlainTransfer(old(evm.world))
      ensures err == Applied || err == NegativeBalance ==>
        && used <= msg.gas && gp.gas + used == old(gp.gas) && Ran(old(evm.world), bought, ran)
        && (err == NegativeBalance <==> Indebted(ran, used))
      ensures err == Applied ==> Settled(old(evm.world), ran, evm.world, used)
      ensures (err == Applied || err == NegativeBalance) && PlainTransfer(old(evm.world)) ==>
        var spent := Intrinsic(msg, false, evm.homestead);
        PlainTransfer(bought) && used == spent - Refund(spent, evm.london, bought.refund)
    {
      hide TableOk;
      used := 0;
      err, bought, ran := BuyAndRun();
      if err == Applied {
        used, err := Settle(old(evm.world), bought);
      }
    }

    /** The end of a transition that ran, and what it has moved since the start. */
    method Settle(ghost start: World, ghost bought: World) returns (used: Uint64, err: TxError)
      requires gas <= initialGas == msg.gas && gp.gas + initialGas <= MAX_UINT64
      requires Ran(start, bought, evm.world) && (evm.london ==> FeeCheck(env, msg) == Applied)
      modifies this`gas, gp, evm`world
      ensures evm.world.Consistent()
      ensures used <= msg.gas && gp.gas + used == old(gp.gas) + msg.gas
      ensures used == msg.gas - old(gas) - Refund(msg.gas - old(gas), evm.london, old(evm.world).refund)
      ensures err == Applied || err == NegativeBalance
      ensures err == NegativeBalance <==> Indebted(old(evm.world), used)
      ensures err == Applied ==> Settled(start, old(evm.world), evm.world, used)
    {
      ghost var ran := evm.world;
      var ok;
      used, ok := PayOut();
      DebitIff(evm.london, env, msg, Refunded(ran, msg, used), used);
      if !ok {
        return used, NegativeBalance;
      }
      Conserved(start, ran, msg, env.coinbase, used, EffectiveTip(evm.london, env, msg));
      err := Applied;
    }

    /** The coinbase has less than the base fee it would have to pay, which only a skipped fee check lets happen. */
    ghost predicate Indebted(ran: World, used: nat)
      requires used <= msg.gas
    {
      evm.london && SkipsFeeCheck(env, msg) && Refunded(ran, msg, used).Balance(env.coinbase) < used * env.baseFee
    }

    /** What a settled transition has moved: the coinbase's balance by exactly the gas used at the tip, and out of the
        state at least what the price exceeds the tip by. */
    ghost predicate Settled(start: World, ran: World, after: World, used: nat)
      requires used <= msg.gas
    {
      var tip, refunded := EffectiveTip(evm.london, env, msg), Refunded(ran, msg, used);
      && MayReward(refunded, env.coinbase, used * tip) && after == Rewarded(refunded, env.coinbase, used * tip)
      && after.Balance(env.coinbase) == refunded.Balance(env.coinbase) + used * tip
      && after.Ether() <= start.Ether() - used * (msg.gasPrice - tip)
    }

    /** The checks, the purchase of gas and the run. */
    method BuyAndRun() returns (err: TxError, ghost bought: World, ghost ran: World)
      requires Ready()
      modifies this, gp, evm
      ensures err == Applied ==> evm.Valid() && evm.depth == 0 && !evm.readOnly && evm.world == ran
      ensures err == Applied ==> gas <= initialGas == msg.gas && gp.gas + msg.gas == old(gp.gas)
      ensures err == Applied ==> Ran(old(evm.world), bought, ran)
      ensures err == Applied && PlainTransfer(old(evm.world)) ==>
        PlainTransfer(bought) && gas == msg.gas - Intrinsic(msg, false, evm.homestead)
      ensures err == Applied || err == Crashed <==>
        MayBuy(msg, old(evm.world), evm.london, env, old(gp.gas)) && CoversData(msg, evm.homestead)
      ensures err == Crashed ==> CrashExplained(old(evm.world)) && !PlainTransfer(old(evm.world))
      ensures err != NegativeBalance
    {
      hide TableOk;
      bought, ran := evm.world, evm.world;
      err := PreCheck();
      if err != Applied {
        return;
      }
      bought := evm.world;
      assert PlainTransfer(bought) == PlainTransfer(old(evm.world));
      CoversFrame(old(evm.world), bought, Clears(evm.table));
      ProductMonotone(msg.gas, msg.gasPrice, msg.gasFeeCap);
      err := Execute();
      ran := evm.world;
    }
  }

  lemma Conserved(start: World, ran: World, m: Message, coinbase: Address, used: nat, tip: int)
    requires used <= m.gas && m.gas * m.gasPrice <= start.Balance(m.from)
    requires ran.Ether() <= start.SubBalance(m.from, m.gas * m.gasPrice).Ether()
    requires MayReward(Refunded(ran, m, used), coinbase, used * tip)
    ensures var after := Rewarded(Refunded(ran, m, used), coinbase, used * tip);
      && after.Balance(coinbase) == Refunded(ran, m, used).Balance(coinbase) + used * tip
      && after.Ether() <= start.Ether() - used * (m.gasPrice - tip)
  {
    FeeSplit(m.gas, used, m.gasPrice, tip);
    SubBalanceEther(start, m.from, m.gas * m.gasPrice);
    AddBalanceEther(ran, m.from, Cost(m.gas - used, m.gasPrice));
    RewardedEther(Refunded(ran, m, used), coinbase, used * tip);
  }

  lemma RewardedEther(w: World, coinbase: Address, reward: int)
    requires MayReward(w, coinbase, reward)
    ensures Rewarded(w, coinbase, reward).Ether() == w.Ether() + reward
    ensures Rewarded(w, coinbase, reward).Balance(coinbase) == w.Balance(coinbase) + reward
  {
    if reward >= 0 {
      AddBalanceEther(w, coinbase, reward);
    } else {
      SubBalanceEther(w, coinbase, -reward);
    }
  }

  /** After the fee rules, a reward cannot be paid out exactly when they were skipped and the coinbase has less than
      the base fee on the gas used. */
  lemma DebitIff(london: bool, env: BlockEnv, m: Message, w: World, used: nat)
    requires london ==> FeeCheck(env, m) == Applied
    ensures !MayReward(w, env.coinbase, used * EffectiveTip(london, env, m)) <==>
      london && SkipsFeeCheck(env, m) && w.Balance(env.coinbase) < used * env.baseFee
  {
    var tip := EffectiveTip(london, env, m);
    if london {
      TipNegativeIff(env, m);
    }
    if tip >= 0 {
      ProductMonotone(used, 0, tip);
    } else {
      assert used * tip == -(used * env.baseFee);
    }
  }

  /** A call with zero caps and nothing else to it, to an account without code, base fees switched off and a base fee of
      one: it passes the fee rules and runs, and a coinbase without ether cannot pay the base fee on the gas used. */
  method DebtExample(st: StateTransition) returns (used: Uint64, err: TxError)
    requires st.Ready() && st.evm.london && st.env.noBaseFee && st.env.baseFee == 1
    requires Empty(st.msg) && st.msg.isFake && 21000 <= st.msg.gas <= st.gp.gas
    requires st.PlainTransfer(st.evm.world) && st.evm.world.Balance(st.env.coinbase) == 0
    modifies st, st.gp, st.evm
    ensures err == NegativeBalance
  {
    ghost var bought, ran;
    EmptyCosts(st.msg, st.evm.homestead);
    ghost var start := st.evm.world;
    used, err, bought, ran := st.TransitionDb();
    if err == Applied || err == NegativeBalance {
      NothingMoves(st, start, bought, ran, used, st.env.coinbase);
    }
  }

  predicate Empty(m: Message)
  {
    && m.gasFeeCap == m.gasTipCap == m.gasPrice == 0 && m.value == 0 && m.data == []
    && m.listedAddresses == m.listedKeys == 0
  }

  lemma EmptyCosts(m: Message, homestead: bool)
    requires Empty(m)
    ensures DataCost(m.data, false, homestead) == Intrinsic(m, false, homestead) == 21000
  {
  }

  lemma NothingMoves(st: StateTransition, start: World, bought: World, ran: World, used: nat, a: Address)
    requires st.Ran(start, bought, ran) && st.PlainTransfer(bought) && Empty(st.msg) && used <= st.msg.gas
    ensures Refunded(ran, st.msg, used).Balance(a) == start.Balance(a)
  {
  }

  lemma FeeSplit(gas: nat, used: nat, price: nat, tip: int)
    requires used <= gas
    ensures gas * price - (gas - used) * price - used * tip == used * (price - tip)
  {
    assert (gas - used) * price == gas * price - used * price;
    assert used * (price - tip) == used * price - used * tip;
  }
}
