/** The pool's set of known transactions with its slot count, and the virtual nonces. */
module TxLookups {
  import opened Numbers
  import opened Sums
  import opened TxLists
  import opened TxPricedLists

  ghost function Slots(txs: set<Tx>): nat
  {
    Total(map tx | tx in txs :: NumSlots(tx))
  }

  lemma SlotsAdd(txs: set<Tx>, tx: Tx)
    requires tx !in txs
    ensures Slots(txs + {tx}) == Slots(txs) + NumSlots(tx)
  {
    var m := map t | t in txs :: NumSlots(t);
    TotalUpdate(m, tx, NumSlots(tx));
    assert (map t | t in txs + {tx} :: NumSlots(t)) == m[tx := NumSlots(tx)];
  }

  lemma SlotsRemove(txs: set<Tx>, tx: Tx)
    requires tx in txs
    ensures Slots(txs - {tx}) == Slots(txs) - NumSlots(tx)
  {
    SlotsAdd(txs - {tx}, tx);
    assert txs - {tx} + {tx} == txs;
  }

  class TxLookup {
    var locals: set<Tx>
    var remotes: set<Tx>
    var slots: int

    /** The slot count is that of the transactions held. */
    ghost predicate Valid()
      reads this
    {
      locals !! remotes && slots == Slots(locals + remotes)
    }

    function Known(): set<Tx>
      reads this
    {
      locals + remotes
    }

    constructor ()
      ensures Valid() && Known() == {}
    {
      locals, remotes, slots := {}, {}, 0;
      new;
      assert (map tx | tx in locals + remotes :: NumSlots(tx)) == map[];
    }

    method Add(tx: Tx, local: bool)
      requires Valid() && tx !in Known()
      modifies this
      ensures Valid() && Known() == old(Known()) + {tx}
      ensures remotes == if local then old(remotes) else old(remotes) + {tx}
    {
      SlotsAdd(Known(), tx);
      slots := slots + NumSlots(tx);
      if local {
        locals := locals + {tx};
      } else {
        remotes := remotes + {tx};
      }
      assert Known() == old(Known()) + {tx};
    }

    method Remove(tx: Tx)
      requires Valid()
      modifies this
      ensures Valid() && Known() == old(Known()) - {tx} && remotes == old(remotes) - {tx}
    {
      if tx !in locals && tx !in remotes {
        return;
      }
      SlotsRemove(Known(), tx);
      slots := slots - NumSlots(tx);
      locals, remotes := locals - {tx}, remotes - {tx};
      assert Known() == old(Known()) - {tx};
    }

    /** The transactions of local accounts stop being remote. */
    method RemoteToLocals(accounts: set<Address>) returns (migrated: nat)
      requires Valid()
      modifies this
      ensures Valid() && Known() == old(Known())
      ensures remotes == set tx | tx in old(remotes) && tx.sender !in accounts
      ensures migrated == |old(remotes)| - |remotes|
    {
      var moved := set tx | tx in remotes && tx.sender in accounts;
      SplitsBySender(remotes, moved, accounts);
      locals, remotes := locals + moved, remotes - moved;
      migrated := |moved|;
      assert Known() == old(Known());
    }
  }

  lemma SplitsBySender(txs: set<Tx>, moved: set<Tx>, accounts: set<Address>)
    requires moved == set tx | tx in txs && tx.sender in accounts
    ensures txs - moved == set tx | tx in txs && tx.sender !in accounts
    ensures moved + (txs - moved) == txs && |txs - moved| == |txs| - |moved|
  {
    assert moved + (txs - moved) == txs;
  }

  /** The virtual nonces as a value. */
  datatype Nonces = Nonces(own: map<Address, nat>, base: map<Address, nat>)
  {
    function Of(addr: Address): nat { if addr in own then own[addr] else NonceOf(base, addr) }
  }

  ghost predicate SameNonces(v: Nonces, v': Nonces)
  {
    forall a :: v'.Of(a) == v.Of(a)
  }

  class TxNoncer {
    const fallback: map<Address, nat>
    var nonces: map<Address, nat>

    constructor (fallback: map<Address, nat>)
      ensures this.fallback == fallback && nonces == map[]
    {
      this.fallback, nonces := fallback, map[];
    }

    function View(): Nonces
      reads this
    {
      Nonces(nonces, fallback)
    }

    /** Remembers what it falls back on, so a look changes no answer. */
    method Get(addr: Address) returns (nonce: nat)
      modifies this
      ensures nonce == View().Of(addr) && SameNonces(old(View()), View())
    {
      if addr !in nonces {
        nonces := nonces[addr := NonceOf(fallback, addr)];
      }
      nonce := nonces[addr];
    }

    method Set(addr: Address, nonce: nat)
      modifies this
      ensures forall a :: View().Of(a) == if a == addr then nonce else old(View()).Of(a)
    {
      nonces := nonces[addr := nonce];
    }

    method SetIfLower(addr: Address, nonce: nat)
      modifies this
      ensures forall a :: View().Of(a) == if a == addr && nonce < old(View()).Of(a) then nonce else old(View()).Of(a)
    {
      if addr !in nonces {
        nonces := nonces[addr := NonceOf(fallback, addr)];
      }
      if nonces[addr] <= nonce {
        return;
      }
      nonces := nonces[addr := nonce];
    }

    method SetAll(all: map<Address, nat>)
      modifies this
      ensures forall a :: View().Of(a) == if a in all then all[a] else NonceOf(fallback, a)
    {
      nonces := all;
    }
  }

  function NonceOf(nonces: map<Address, nat>, addr: Address): nat
  {
    if addr in nonces then nonces[addr] else 0
  }
}
