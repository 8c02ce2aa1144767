/** The account state a virtual machine runs on. Every component is journalled by the original's
    state database, so taking a snapshot is keeping a value of this record and reverting is putting
    it back: storage, balances, access lists and the refund counter return together. */
module StateDB {
  import opened Numbers
  import Sums
  import opened StorageGas

  datatype Slot = Slot(addr: Address, key: Word)

  datatype LogEntry = LogEntry(addr: Address, topics: seq<Word>, data: seq<Byte>)

  datatype World = World(
    balances: map<Address, nat>,
    nonces: map<Address, Uint64>,
    code: map<Address, Slice>,
    storage: map<Slot, Word>,
    committed: map<Slot, Word>,
    existing: set<Address>,
    suicided: set<Address>,
    logs: seq<LogEntry>,
    refund: nat,
    accessAddrs: set<Address>,
    accessSlots: set<Slot>)
  {
    function Balance(a: Address): nat { if a in balances then balances[a] else 0 }

    function Nonce(a: Address): Uint64 { if a in nonces then nonces[a] else 0 }

    function Code(a: Address): Slice { if a in code then code[a] else [] }

    function State(s: Slot): Word { if s in storage then storage[s] else 0 }

    function Committed(s: Slot): Word { if s in committed then committed[s] else 0 }

    predicate Exist(a: Address) { a in existing }

    predicate Empty(a: Address) { Balance(a) == 0 && Nonce(a) == 0 && Code(a) == [] }

    /** Adding nothing only touches the account. */
    function AddBalance(a: Address, v: nat): World
    {
      var w := this.(existing := existing + {a});
      if v == 0 then w else w.(balances := balances[a := Balance(a) + v])
    }

    function SubBalance(a: Address, v: nat): World
      requires v <= Balance(a)
    {
      var w := this.(existing := existing + {a});
      if v == 0 then w else w.(balances := balances[a := Balance(a) - v])
    }

    /** Transfer in blockchain/evm.go. */
    function Transfer(from: Address, to: Address, v: nat): World
      requires v <= Balance(from)
    {
      SubBalance(from, v).AddBalance(to, v)
    }

    function AddLog(l: LogEntry): World { this.(logs := logs + [l]) }

    function SetNonce(a: Address, n: Uint64): World
    {
      this.(existing := existing + {a}, nonces := nonces[a := n])
    }

    function SetCode(a: Address, c: Slice): World
    {
      this.(existing := existing + {a}, code := code[a := c])
    }

    function SetState(s: Slot, v: Word): World
    {
      this.(existing := existing + {s.addr}, storage := storage[s := v])
    }

    /** A fresh account object: the balance is carried over, everything else starts empty. */
    function CreateAccount(a: Address): World
    {
      this.(existing := existing + {a},
            nonces := nonces - {a},
            code := code - {a},
            storage := map s | s in storage && s.addr != a :: storage[s],
            committed := map s | s in committed && s.addr != a :: committed[s],
            suicided := suicided - {a})
    }

    /** Marks the account and clears its balance. */
    function Suicide(a: Address): World
    {
      if a !in existing then this
      else this.(suicided := suicided + {a}, balances := balances[a := 0])
    }

    function AddRefund(v: nat): World { this.(refund := refund + v) }

    /** The original panics when the counter would go below zero. */
    function SubRefund(v: nat): World
      requires v <= refund
    {
      this.(refund := refund - v)
    }

    function AddAddressToAccessList(a: Address): World { this.(accessAddrs := accessAddrs + {a}) }

    function AddSlotToAccessList(s: Slot): World
    {
      this.(accessAddrs := accessAddrs + {s.addr}, accessSlots := accessSlots + {s})
    }

    /** End of a transaction: what was written becomes the committed state, the refund counter
        starts anew, and self-destructed accounts disappear. */
    function Finalise(): World
    {
      var live := map s | s in storage && s.addr !in suicided :: storage[s];
      this.(balances := balances - suicided, nonces := nonces - suicided, code := code - suicided,
            storage := live, committed := live, existing := existing - suicided,
            suicided := {}, refund := 0)
    }

    /** Only existing accounts hold anything. */
    ghost predicate Consistent()
    {
      && balances.Keys <= existing && nonces.Keys <= existing && code.Keys <= existing
      && suicided <= existing
      && (forall s :: s in storage ==> s.addr in existing)
    }

    ghost function Ether(): nat { Sums.Total(balances) }

    /** Slots that were non-zero when the transaction began and are zero now. */
    ghost function Cleared(): set<Slot>
    {
      set s | s in committed && IsCleared(committed[s], State(s))
    }

    /** The refund counter covers one clearing refund for every cleared slot. */
    ghost predicate Covers(clears: nat) { refund >= clears * |Cleared()| }
  }

  ghost predicate SameState(v: World, w: World)
  {
    && v.balances == w.balances && v.nonces == w.nonces && v.code == w.code
    && v.storage == w.storage && v.suicided == w.suicided && v.logs == w.logs
  }

  /** How an execution may change the world: ether is never created, the access list only grows, and under
      write protection balances, nonces, code, storage and logs stay as they are. */
  ghost predicate Follows(v: World, w: World, readOnly: bool)
  {
    && w.Consistent()
    && w.Ether() <= v.Ether()
    && v.accessAddrs <= w.accessAddrs
    && (readOnly ==> SameState(v, w))
  }

  lemma AddBalanceEther(w: World, a: Address, v: nat)
    ensures w.AddBalance(a, v).Ether() == w.Ether() + v
  {
    Sums.TotalUpdate(w.balances, a, w.Balance(a) + v);
  }

  lemma SubBalanceEther(w: World, a: Address, v: nat)
    requires v <= w.Balance(a)
    ensures w.SubBalance(a, v).Ether() == w.Ether() - v
  {
    Sums.TotalUpdate(w.balances, a, w.Balance(a) - v);
  }

  /** SELFDESTRUCT moves the balance and then clears the account; naming itself burns it. */
  lemma SuicideEther(w: World, a: Address, beneficiary: Address)
    requires w.Consistent()
    ensures w.AddBalance(beneficiary, w.Balance(a)).Suicide(a).Ether()
      == w.Ether() - (if beneficiary == a then w.Balance(a) else 0)
  {
    AddBalanceEther(w, beneficiary, w.Balance(a));
    var x := w.AddBalance(beneficiary, w.Balance(a));
    Sums.TotalUpdate(x.balances, a, 0);
  }

  /** What the slots and the counter do not see leaves the counter covering. */
  lemma CoversFrame(v: World, w: World, clears: nat)
    requires v.Covers(clears)
    requires w.storage == v.storage && w.committed == v.committed && w.refund >= v.refund
    ensures w.Covers(clears)
  {
    assert v.Cleared() == w.Cleared();
  }

  /** A transfer moves ether; of nothing, it only touches the accounts. */
  lemma TransferFollows(w: World, from: Address, to: Address, v: nat, clears: nat)
    requires w.Consistent() && w.Covers(clears) && v <= w.Balance(from)
    ensures w.Transfer(from, to, v).Ether() == w.Ether()
    ensures Follows(w, w.Transfer(from, to, v), v == 0) && w.Transfer(from, to, v).Covers(clears)
  {
    SubBalanceEther(w, from, v);
    AddBalanceEther(w.SubBalance(from, v), to, v);
    CoversFrame(w, w.Transfer(from, to, v), clears);
  }

  lemma SelfDestructFollows(w: World, a: Address, beneficiary: Address, clears: nat)
    requires w.Consistent() && w.Covers(clears)
    ensures var x := w.AddBalance(beneficiary, w.Balance(a)).Suicide(a);
      Follows(w, x, false) && x.Covers(clears)
  {
    SuicideEther(w, a, beneficiary);
    CoversFrame(w, w.AddBalance(beneficiary, w.Balance(a)).Suicide(a), clears);
  }

  lemma CreateAccountFollows(w: World, a: Address, clears: nat)
    requires w.Consistent() && w.Covers(clears)
    ensures Follows(w, w.CreateAccount(a), !w.Exist(a)) && w.CreateAccount(a).Covers(clears)
  {
    CreateAccountCovers(w, a, clears);
    if !w.Exist(a) {
      CreateAccountFresh(w, a);
    }
  }

  lemma SetNonceFollows(w: World, a: Address, n: Uint64, clears: nat)
    requires w.Consistent() && w.Covers(clears)
    ensures Follows(w, w.SetNonce(a, n), false) && w.SetNonce(a, n).Consistent() && w.SetNonce(a, n).Covers(clears)
  {
    CoversFrame(w, w.SetNonce(a, n), clears);
  }

  /** A new account, endowed by its creator. */
  lemma EndowFollows(w: World, from: Address, a: Address, v: nat, clears: nat)
    requires w.Consistent() && w.Covers(clears) && v <= w.Balance(from)
    ensures var x := w.CreateAccount(a).Transfer(from, a, v);
      Follows(w, x, false) && x.Covers(clears)
  {
    CreateAccountFollows(w, a, clears);
    TransferFollows(w.CreateAccount(a), from, a, v, clears);
  }

  lemma FollowsTransitive(u: World, v: World, w: World, readOnly: bool)
    requires Follows(u, v, readOnly) && Follows(v, w, readOnly)
    ensures Follows(u, w, readOnly)
  {
  }

  /** An account object created anew holds no cleared slot, so the counter still covers the rest. */
  lemma CreateAccountCovers(w: World, a: Address, clears: nat)
    requires w.Covers(clears)
    ensures w.CreateAccount(a).Covers(clears)
  {
    Sums.SubsetSize(w.CreateAccount(a).Cleared(), w.Cleared());
    ProductMonotone(clears, |w.CreateAccount(a).Cleared()|, |w.Cleared()|);
  }

  lemma CreateAccountFresh(w: World, a: Address)
    requires w.Consistent() && !w.Exist(a)
    ensures SameState(w, w.CreateAccount(a))
  {
    assert w.CreateAccount(a).storage == w.storage;
  }

  lemma ProductMonotone(k: nat, m: nat, n: nat)
    requires m <= n
    ensures k * m <= k * n
  {
  }

  lemma OneElementApart<T>(a: set<T>, b: set<T>, x: T)
    requires forall y :: y != x ==> (y in a <==> y in b)
    ensures |b| == |a| + (if x in b then 1 else 0) - (if x in a then 1 else 0)
  {
    assert a - {x} == b - {x};
    assert |a - {x}| == |a| - (if x in a then 1 else 0);
    assert |b - {x}| == |b| - (if x in b then 1 else 0);
  }

  /** A write changes the number of cleared slots only through the slot it writes. */
  lemma StoreCleared(w: World, s: Slot, value: Word)
    ensures |w.SetState(s, value).Cleared()|
      == |w.Cleared()| + (if IsCleared(w.Committed(s), value) then 1 else 0)
                       - (if IsCleared(w.Committed(s), w.State(s)) then 1 else 0)
  {
    var w' := w.SetState(s, value);
    forall t | t != s
      ensures t in w.Cleared() <==> t in w'.Cleared()
    {
      assert w'.State(t) == w.State(t);
    }
    assert w'.State(s) == value;
    OneElementApart(w.Cleared(), w'.Cleared(), s);
  }

  lemma CoverStep(p: Schedule, refund: nat, n: nat, original: Word, current: Word, value: Word)
    requires refund >= p.clears * n
    requires IsCleared(original, current) ==> n > 0
    ensures var c := Price(p, original, current, value);
      var m := n + (if IsCleared(original, value) then 1 else 0) - (if IsCleared(original, current) then 1 else 0);
      c.sub <= refund && refund + c.add - c.sub >= p.clears * m
  {
    ClearingRefundFollowsSlot(p, original, current, value);
    if n > 0 {
      assert p.clears * n == p.clears * (n - 1) + p.clears;
    }
    assert p.clears * (n + 1) == p.clears * n + p.clears;
  }

  /** Charging a write keeps the counter covering the slots as they will be after the write, and what
      the charge takes from the counter is always there. */
  lemma StoreCovers(w: World, s: Slot, value: Word, p: Schedule)
    requires w.Covers(p.clears)
    ensures var c := Price(p, w.Committed(s), w.State(s), value);
      && c.sub <= w.refund
      && w.AddRefund(c.add).SubRefund(c.sub).SetState(s, value).Covers(p.clears)
  {
    var c := Price(p, w.Committed(s), w.State(s), value);
    StoreCleared(w, s, value);
    if IsCleared(w.Committed(s), w.State(s)) {
      assert s in w.Cleared();
    }
    CoverStep(p, w.refund, |w.Cleared()|, w.Committed(s), w.State(s), value);
    assert w.AddRefund(c.add).SubRefund(c.sub).SetState(s, value).Cleared() == w.SetState(s, value).Cleared();
  }

  /** Deleting self-destructed accounts loses whatever they were sent after their destruction. */
  lemma FinaliseEther(w: World)
    requires w.Consistent()
    ensures w.Finalise().Consistent() && w.Finalise().Ether() <= w.Ether()
  {
    Sums.TotalShrinks(w.balances, w.suicided);
  }

  /** A transaction starts with nothing cleared and an empty counter. */
  lemma FinaliseCovers(w: World, clears: nat)
    ensures w.Finalise().Covers(clears)
  {
    assert w.Finalise().Cleared() == {};
  }
}
