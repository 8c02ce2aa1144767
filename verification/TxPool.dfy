/** The transaction pool: pending and queued lists per account, kept in step with the lookup, the price heaps and the
    virtual nonces. A list is represented by its contents; TxLists.TxList shows that the lists' own operations come
    to the operations on contents used here. */
module TxPools {
  import opened Options
  import opened Numbers
  import Sums
  import opened TxLists
  import opened TxPricedLists
  import opened TxLookups

  type Accounts = map<Address, Items>

  ghost predicate InLists(lists: Accounts, tx: Tx)
  {
    tx.sender in lists && Holds(lists[tx.sender], tx)
  }

  ghost predicate HasNonce(lists: Accounts, a: Address, n: nat)
  {
    a in lists && n in lists[a]
  }

  /** The contents belong to one account. */
  ghost predicate Owned(items: Items, a: Address)
  {
    Keyed(items) && forall n :: n in items ==> items[n].sender == a
  }

  /** No list is empty, and each holds transactions of its own account under their nonces. */
  ghost predicate WellKept(lists: Accounts)
  {
    forall a :: a in lists ==> lists[a] != map[] && Owned(lists[a], a)
  }

  function Get(lists: Accounts, a: Address): Items
  {
    if a in lists then lists[a] else map[]
  }

  /** No other account's list differs. */
  ghost predicate OnlyAt(before: Accounts, after: Accounts, a: Address)
  {
    forall b :: b != a ==> Get(after, b) == Get(before, b)
  }

  /** Replaces a list; an empty one is deleted. */
  function Store(lists: Accounts, a: Address, items: Items): (r: Accounts)
    ensures forall b :: b in r <==> if b == a then items != map[] else b in lists
    ensures forall b :: b in r ==> r[b] == if b == a then items else lists[b]
  {
    if items == map[] then lists - {a} else lists[a := items]
  }

  /** The known transactions are those in the lists and, of account `a`, those in `rest` that are just being moved;
      every one is in one place, and no account has a nonce both pending and queued. */
  ghost predicate Partition(pending: Accounts, queue: Accounts, known: set<Tx>, a: Address, rest: Items)
  {
    && WellKept(pending) && WellKept(queue) && Owned(rest, a)
    && (forall b, n {:trigger HasNonce(pending, b, n), HasNonce(queue, b, n)} ::
          !(HasNonce(pending, b, n) && HasNonce(queue, b, n)))
    && (forall tx {:trigger tx in known} ::
          tx in known <==> InLists(pending, tx) || InLists(queue, tx) || (tx.sender == a && Holds(rest, tx)))
    && (forall n :: n in rest ==> !InLists(pending, rest[n]) && !InLists(queue, rest[n]))
  }

  /** None of the given nonces is in the account's list. */
  ghost predicate Clear(lists: Accounts, a: Address, rest: Items)
  {
    forall n :: n in rest ==> !HasNonce(lists, a, n)
  }

  ghost predicate PartOf(less: Items, items: Items)
  {
    forall n :: n in less ==> n in items && less[n] == items[n]
  }

  /** Exactly these transactions have gone from what was known. */
  ghost predicate Forgotten(before: set<Tx>, known: set<Tx>, gone: Items)
  {
    forall tx {:trigger tx in known} {:trigger tx in before} :: tx in known <==> tx in before && !Holds(gone, tx)
  }

  lemma Swap(pending: Accounts, queue: Accounts, known: set<Tx>, a: Address, rest: Items)
    requires Partition(pending, queue, known, a, rest)
    ensures Partition(queue, pending, known, a, rest)
  {
  }

  /** With nothing being moved the account does not matter. */
  lemma Settled(pending: Accounts, queue: Accounts, known: set<Tx>, a: Address, b: Address)
    requires Partition(pending, queue, known, a, map[])
    ensures Partition(pending, queue, known, b, map[])
  {
  }

  /** Cutting a list down sets the rest of it loose, clear of both lists. */
  lemma CutsLoose(p: Accounts, q: Accounts, known: set<Tx>, a: Address, kept: Items, rest: Items)
    requires Partition(p, q, known, a, map[]) && a in p
    requires PartOf(kept, p[a]) && rest == p[a] - kept.Keys
    ensures Partition(Store(p, a, kept), q, known, a, rest)
    ensures Clear(Store(p, a, kept), a, rest) && Clear(q, a, rest)
  {
    CutList(p, a, kept, rest);
    forall n | n in rest
      ensures !HasNonce(q, a, n) && !InLists(q, rest[n])
    {
      assert HasNonce(p, a, n);
    }
  }

  lemma CutList(p: Accounts, a: Address, kept: Items, rest: Items)
    requires WellKept(p) && a in p && PartOf(kept, p[a]) && rest == p[a] - kept.Keys
    ensures var r := Store(p, a, kept);
      && WellKept(r) && Owned(rest, a)
      && (forall tx :: InLists(p, tx) <==> InLists(r, tx) || (tx.sender == a && Holds(rest, tx)))
      && (forall b, n :: HasNonce(r, b, n) ==> HasNonce(p, b, n))
      && (forall n :: n in rest ==> HasNonce(p, a, n) && !HasNonce(r, a, n) && !InLists(r, rest[n]))
  {
  }

  /** A loose transaction dropped from the lookup is gone. */
  lemma Forgets(p: Accounts, q: Accounts, known: set<Tx>, a: Address, rest: Items, n: nat)
    requires Partition(p, q, known, a, rest) && n in rest
    ensures Partition(p, q, known - {rest[n]}, a, rest - {n})
  {
    forall tx
      ensures tx in known - {rest[n]} <==>
        InLists(p, tx) || InLists(q, tx) || (tx.sender == a && Holds(rest - {n}, tx))
    {
    }
  }

  /** A list with one transaction put in, in place of the one with its nonce if there is one. */
  function With(lists: Accounts, tx: Tx): Accounts
  {
    Store(lists, tx.sender, Get(lists, tx.sender)[tx.nonce := tx])
  }

  /** What is known once the transaction replaced, if any, is forgotten. */
  function Remaining(lists: Accounts, known: set<Tx>, tx: Tx): set<Tx>
  {
    if tx.sender in lists && tx.nonce in lists[tx.sender] then known - {lists[tx.sender][tx.nonce]} else known
  }

  lemma WithHolds(lists: Accounts, tx: Tx)
    requires WellKept(lists) && tx.nonce < MAX_UINT64
    ensures WellKept(With(lists, tx))
    ensures forall b, n :: HasNonce(With(lists, tx), b, n) <==> HasNonce(lists, b, n) || (b == tx.sender && n == tx.nonce)
    ensures forall t :: InLists(With(lists, tx), t) <==>
      t == tx || (InLists(lists, t) && !(t.sender == tx.sender && t.nonce == tx.nonce))
  {
    assert tx.nonce in Get(lists, tx.sender)[tx.nonce := tx];
  }

  /** A loose transaction put into a list; the one it replaces is forgotten. */
  lemma Lands(p: Accounts, q: Accounts, known: set<Tx>, rest: Items, tx: Tx)
    requires Partition(p, q, known, tx.sender, rest) && Holds(rest, tx) && !HasNonce(q, tx.sender, tx.nonce)
    ensures Partition(With(p, tx), q, Remaining(p, known, tx), tx.sender, rest - {tx.nonce})
  {
    WithHolds(p, tx);
    forall t
      ensures t in Remaining(p, known, tx) <==>
        InLists(With(p, tx), t) || InLists(q, t) || (t.sender == tx.sender && Holds(rest - {tx.nonce}, t))
    {
    }
  }

  /** The same for the queue, where the transaction may also be a new one. */
  lemma LandsInQueue(p: Accounts, q: Accounts, known: set<Tx>, rest: Items, tx: Tx, arrives: bool)
    requires Partition(p, q, known, tx.sender, rest) && !HasNonce(p, tx.sender, tx.nonce) && tx.nonce < MAX_UINT64
    requires if arrives then tx !in known && rest == map[] else Holds(rest, tx)
    ensures Partition(p, With(q, tx), Remaining(q, known, tx) + (if arrives then {tx} else {}), tx.sender, rest - {tx.nonce})
  {
    if arrives {
      Arrives(p, q, known, tx);
      Swap(p, q, known + {tx}, tx.sender, map[tx.nonce := tx]);
      Lands(q, p, known + {tx}, map[tx.nonce := tx], tx);
      assert Remaining(q, known + {tx}, tx) == Remaining(q, known, tx) + {tx};
      assert map[tx.nonce := tx] - {tx.nonce} == rest - {tx.nonce};
      Swap(With(q, tx), p, Remaining(q, known + {tx}, tx), tx.sender, rest - {tx.nonce});
    } else {
      Swap(p, q, known, tx.sender, rest);
      Lands(q, p, known, rest, tx);
      assert Remaining(q, known, tx) + {} == Remaining(q, known, tx);
      Swap(With(q, tx), p, Remaining(q, known, tx), tx.sender, rest - {tx.nonce});
    }
  }

  /** A transaction nobody knew joins those being moved. */
  lemma Arrives(p: Accounts, q: Accounts, known: set<Tx>, tx: Tx)
    requires Partition(p, q, known, tx.sender, map[]) && tx !in known && tx.nonce < MAX_UINT64
    ensures Partition(p, q, known + {tx}, tx.sender, map[tx.nonce := tx])
  {
  }

  /** A known transaction whose nonce is pending is the pending one; without it and those after it the rest is loose. */
  lemma RemovesPending(p: Accounts, q: Accounts, known: set<Tx>, tx: Tx)
    requires Partition(p, q, known, tx.sender, map[]) && tx in known && HasNonce(p, tx.sender, tx.nonce)
    ensures InLists(p, tx) && !InLists(q, tx)
    ensures var r := Store(p, tx.sender, Below(p[tx.sender], tx.nonce));
      var rest := From(p[tx.sender], tx.nonce + 1);
      Partition(r, q, known - {tx}, tx.sender, rest) && Clear(r, tx.sender, rest) && Clear(q, tx.sender, rest)
  {
    var list := p[tx.sender];
    CutsLoose(p, q, known, tx.sender, Below(list, tx.nonce), list - Below(list, tx.nonce).Keys);
    assert list - Below(list, tx.nonce).Keys == From(list, tx.nonce);
    Forgets(Store(p, tx.sender, Below(list, tx.nonce)), q, known, tx.sender, From(list, tx.nonce), tx.nonce);
    assert From(list, tx.nonce) - {tx.nonce} == From(list, tx.nonce + 1);
  }

  lemma RemovesQueued(p: Accounts, q: Accounts, known: set<Tx>, tx: Tx)
    requires Partition(p, q, known, tx.sender, map[]) && tx in known && !HasNonce(p, tx.sender, tx.nonce)
    ensures InLists(q, tx) && !InLists(p, tx)
    ensures Partition(p, Store(q, tx.sender, q[tx.sender] - {tx.nonce}), known - {tx}, tx.sender, map[])
  {
    var list := q[tx.sender];
    Swap(p, q, known, tx.sender, map[]);
    CutsLoose(q, p, known, tx.sender, list - {tx.nonce}, list - (list - {tx.nonce}).Keys);
    assert list - (list - {tx.nonce}).Keys == map[tx.nonce := tx];
    var r := Store(q, tx.sender, list - {tx.nonce});
    Forgets(r, p, known, tx.sender, map[tx.nonce := tx], tx.nonce);
    assert map[tx.nonce := tx] - {tx.nonce} == map[];
    Swap(r, p, known - {tx}, tx.sender, map[]);
  }

  datatype Config = Config(accountSlots: nat, globalSlots: nat, accountQueue: nat, globalQueue: nat, priceBump: nat)

  /** What the pool reads of the state at the head of the chain. */
  datatype State = State(nonces: map<Address, nat>, balances: map<Address, nat>, maxGas: nat)

  function BalanceOf(state: State, a: Address): nat
  {
    if a in state.balances then state.balances[a] else 0
  }

  /** Pending nonces are exactly those from the state nonce up to the virtual nonce. */
  ghost predicate Contiguous(pending: Accounts, start: nat, next: nat, a: Address)
  {
    start <= next && forall n: nat :: HasNonce(pending, a, n) <==> start <= n < next
  }

  /** Where that holds, the virtual nonce is the state nonce plus the number of pending transactions. */
  lemma {:induction false} IntervalLength(pending: Accounts, start: nat, next: nat, a: Address)
    requires Contiguous(pending, start, next, a)
    ensures next == start + |Get(pending, a)|
  {
    forall n: nat
      ensures n in Get(pending, a) <==> start <= n < next
    {
      assert HasNonce(pending, a, n) <==> n in Get(pending, a);
    }
    RangeLength(Get(pending, a), start, next);
  }

  lemma {:induction false} RangeLength(list: Items, start: nat, next: nat)
    requires start <= next && forall n: nat :: n in list <==> start <= n < next
    ensures |list| == next - start
    decreases next - start
  {
    if start == next {
      assert list == map[];
    } else {
      RangeLength(list - {start}, start + 1, next);
      assert (list - {start}).Keys == list.Keys - {start};
    }
  }

  /** Cutting a pending list at a nonce and lowering the virtual nonce to it keeps the interval of every account. */
  lemma CutContiguous(pending: Accounts, a: Address, n: nat, b: Address, start: nat, next: nat)
    requires HasNonce(pending, a, n) && Contiguous(pending, start, next, b)
    ensures Contiguous(Store(pending, a, Below(pending[a], n)), start, if b == a && n < next then n else next, b)
  {
    forall m: nat
      ensures HasNonce(Store(pending, a, Below(pending[a], n)), b, m) <==>
        HasNonce(pending, b, m) && !(b == a && m >= n)
    {
    }
  }

  /** What the state still admits of a queue: nothing too old and nothing unpayable. */
  function Current(list: Items, state: State, a: Address): Items
  {
    Payable(From(list, NonceOf(state.nonces, a)), BalanceOf(state, a), state.maxGas)
  }

  /** Nothing in a list is too old or unpayable. */
  ghost predicate Admitted(list: Items, state: State, a: Address)
  {
    && (forall n :: n in list ==> n >= NonceOf(state.nonces, a))
    && (forall n :: n in list ==> !Costly(list[n], BalanceOf(state, a), state.maxGas))
  }

  /** What demoteUnexecutables leaves of a pending list: transactions from the state nonce on, with nothing unpayable at
      or in front of any, and none at all if the state nonce itself is missing. */
  function Remains(list: Items, state: State, a: Address): Items
  {
    Executables(list, NonceOf(state.nonces, a), BalanceOf(state, a), state.maxGas)
  }

  function Executables(list: Items, nonce: nat, funds: nat, maxGas: nat): Items
  {
    var executable := Executable(From(list, nonce), funds, maxGas);
    if nonce in executable then executable else map[]
  }

  lemma RemainsAdmitted(list: Items, state: State, a: Address)
    ensures Admitted(Remains(list, state, a), state, a) && Remains(map[], state, a) == map[]
  {
    var current := From(list, NonceOf(state.nonces, a));
    AreExecutable(current, BalanceOf(state, a), state.maxGas);
    assert PartOf(Remains(list, state, a), current);
  }

  /** Too old, or unpayable: the only transactions demotion drops; all others go back to the queue. */
  predicate Stale(tx: Tx, state: State)
  {
    tx.nonce < NonceOf(state.nonces, tx.sender) || Costly(tx, BalanceOf(state, tx.sender), state.maxGas)
  }

  ghost predicate OnlyStaleLost(before: set<Tx>, known: set<Tx>, state: State)
  {
    known <= before && forall tx {:trigger tx in before} {:trigger tx in known} ::
      tx in before && tx !in known ==> Stale(tx, state)
  }

  /** Where pending nonces were an interval they still are. */
  ghost predicate Keeps(p: Accounts, v: Nonces, p': Accounts, v': Nonces, base: map<Address, nat>)
  {
    forall a {:trigger Contiguous(p', NonceOf(base, a), v'.Of(a), a)} ::
      Contiguous(p, NonceOf(base, a), v.Of(a), a) ==> Contiguous(p', NonceOf(base, a), v'.Of(a), a)
  }

  lemma KeepsTwice(p: Accounts, v: Nonces, p': Accounts, v': Nonces, p'': Accounts, v'': Nonces, base: map<Address, nat>)
    requires Keeps(p, v, p', v', base) && Keeps(p', v', p'', v'', base)
    ensures Keeps(p, v, p'', v'', base)
  {
    forall a | Contiguous(p, NonceOf(base, a), v.Of(a), a)
      ensures Contiguous(p'', NonceOf(base, a), v''.Of(a), a)
    {
      assert Contiguous(p', NonceOf(base, a), v'.Of(a), a);
    }
  }

  lemma KeepsSame(p: Accounts, v: Nonces, v': Nonces, base: map<Address, nat>)
    requires SameNonces(v, v')
    ensures Keeps(p, v, p, v', base)
  {
  }

  // ----- pending intervals across a reset -----

  /** Every nonce from the lowest up to this one is there. */
  ghost predicate Unbroken(list: Items, n: nat)
  {
    forall k, m :: k in list && k <= m <= n ==> m in list
  }

  /** The unbroken run from the lowest nonce. */
  ghost function Leading(list: Items): (r: Items)
    ensures forall n :: n in r <==> n in list && Unbroken(list, n)
    ensures forall n :: n in r ==> r[n] == list[n]
  {
    map n | n in list && Unbroken(list, n) :: list[n]
  }

  /** What promotion takes out of a queue: the unbroken run from the lowest nonce the state admits, if that is no later
      than the virtual nonce. */
  ghost function Promotes(queued: Items, start: nat, state: State, a: Address): (r: Items)
  {
    var current := Current(queued, state, a);
    if MayStart(current, start) then Leading(current) else map[]
  }

  /** That is what Ready hands out. */
  lemma PromotesRun(queued: Items, start: nat, state: State, a: Address, left: Items, ready: seq<Tx>)
    requires Keyed(queued) && Runs(Current(queued, state, a), left, ready)
    requires ready != [] <==> MayStart(Current(queued, state, a), start)
    ensures Current(queued, state, a) - left.Keys == Promotes(queued, start, state, a)
  {
    var current := Current(queued, state, a);
    ItemsOf(current, left, ready);
    if ready != [] {
      var end := ready[0].nonce + |ready|;
      assert Holds(current, ready[0]);
      forall n | n in current
        ensures Unbroken(current, n) <==> n < end
      {
        if n < end {
          forall k, m | k in current && k <= m <= n
            ensures m in current
          {
            assert m in current - left.Keys;
          }
        } else {
          assert ready[0].nonce in current && ready[0].nonce <= end <= n && end !in current;
        }
      }
    }
  }

  /** A list of pending transactions only loses its highest nonces, and a virtual nonce is at most lowered to one that
      was pending. */
  ghost predicate Shorter(p: Accounts, v: Nonces, p': Accounts, v': Nonces)
  {
    CutShort(p, p') && forall a :: v'.Of(a) <= v.Of(a) && (v'.Of(a) == v.Of(a) || HasNonce(p, a, v'.Of(a)))
  }

  ghost predicate CutShort(p: Accounts, p': Accounts)
  {
    && (forall a, n {:trigger HasNonce(p', a, n)} :: HasNonce(p', a, n) ==> HasNonce(p, a, n))
    && (forall a, m, n {:trigger HasNonce(p, a, m), HasNonce(p', a, n)} ::
          HasNonce(p', a, n) && HasNonce(p, a, m) && m <= n ==> HasNonce(p', a, m))
  }

  lemma ShorterTwice(p: Accounts, v: Nonces, p': Accounts, v': Nonces, p'': Accounts, v'': Nonces)
    requires Shorter(p, v, p', v') && Shorter(p', v', p'', v'')
    ensures Shorter(p, v, p'', v'')
  {
  }

  lemma CutShorter(p: Accounts, v: Nonces, v': Nonces, a: Address, n: nat)
    requires HasNonce(p, a, n)
    requires forall b :: v'.Of(b) == if b == a && n < v.Of(b) then n else v.Of(b)
    ensures Shorter(p, v, Store(p, a, Below(p[a], n)), v')
  {
    forall b, m: nat
      ensures HasNonce(Store(p, a, Below(p[a], n)), b, m) <==> HasNonce(p, b, m) && !(b == a && m >= n)
    {
    }
  }

  lemma CutKeeps(p: Accounts, v: Nonces, v': Nonces, a: Address, n: nat, base: map<Address, nat>)
    requires HasNonce(p, a, n)
    requires forall b :: v'.Of(b) == if b == a && n < v.Of(b) then n else v.Of(b)
    ensures Keeps(p, v, Store(p, a, Below(p[a], n)), v', base)
  {
    forall b | Contiguous(p, NonceOf(base, b), v.Of(b), b)
      ensures Contiguous(Store(p, a, Below(p[a], n)), NonceOf(base, b), v'.Of(b), b)
    {
      CutContiguous(p, a, n, b, NonceOf(base, b), v.Of(b));
    }
  }

  /** What is left of an interval of nonces after its highest have gone is an interval from the same start. */
  lemma {:induction false} InitialPart(p: Accounts, v: Nonces, p': Accounts, v': Nonces, a: Address, start: nat, next: nat,
                                       bound: nat) returns (end: nat)
    requires Shorter(p, v, p', v') && Contiguous(p, start, next, a) && start <= bound <= next
    requires forall n: nat :: HasNonce(p', a, n) ==> n < bound
    ensures start <= end <= bound && forall n: nat :: HasNonce(p', a, n) <==> start <= n < end
    decreases bound
  {
    if bound == start {
      end := start;
      forall n: nat
        ensures !HasNonce(p', a, n)
      {
        assert HasNonce(p', a, n) ==> HasNonce(p, a, n);
      }
    } else if HasNonce(p', a, bound - 1) {
      end := bound;
      forall n: nat
        ensures HasNonce(p', a, n) <==> start <= n < end
      {
        assert HasNonce(p, a, n) <==> start <= n < next;
      }
    } else {
      end := InitialPart(p, v, p', v', a, start, next, bound - 1);
    }
  }

  /** A reset opens a gap in an account's pending nonces: the state nonce has gone down to one that is queued and can be
      paid, the first pending transaction stays payable, and on the way to it a nonce is missing. */
  ghost predicate GapOpens(list: Items, queued: Items, start: nat, state: State, a: Address)
  {
    var nonce, current := NonceOf(state.nonces, a), Current(queued, state, a);
    && nonce < start && nonce in current
    && start in list && !Costly(list[start], BalanceOf(state, a), state.maxGas)
    && exists n :: nonce < n < start && n !in current
  }

  /** Promotion and demotion leave no gap between the state nonce and the last pending transaction. */
  ghost predicate Mended(list: Items, queued: Items, next: nat, state: State, a: Address)
  {
    Gapless(Remains(list + Promotes(queued, next, state, a), state, a), NonceOf(state.nonces, a))
  }

  /** Of a list without a gap, what demotion leaves has none. */
  lemma RemainsGapless(list: Items, nonce: nat, funds: nat, maxGas: nat)
    requires Gapless(From(list, nonce), nonce)
    ensures Gapless(Executables(list, nonce, funds, maxGas), nonce)
  {
    var current := From(list, nonce);
    var executable := Executable(current, funds, maxGas);
    forall m, n | m in executable && nonce <= n <= m
      ensures n in executable
    {
      assert !Blocked(current, m, funds, maxGas);
    }
  }

  /** What the queue may hold at promotion: nothing too old, nothing pending, nothing unpayable. */
  ghost predicate Waiting(current: Items, list: Items, nonce: nat, funds: nat, maxGas: nat)
  {
    forall n :: n in current ==> n >= nonce && n !in list && !Costly(current[n], funds, maxGas)
  }

  ghost predicate IsRange(list: Items, start: nat, end: nat)
  {
    start <= end && forall n: nat :: n in list <==> start <= n < end
  }

  /** An account whose pending nonces were an interval has one again after promotion and demotion, exactly unless the
      state nonce went down and a gap opens; so always when it did not go down. */
  lemma AfterReset(list: Items, queued: Items, start: nat, end: nat, next: nat, state: State, a: Address)
    requires IsRange(list, start, end) && forall n :: n in queued ==> n !in list
    requires var nonce := NonceOf(state.nonces, a);
      if nonce < start then next == nonce else next <= nonce || (next == end && nonce == start)
    ensures Mended(list, queued, next, state, a) <==> !GapOpens(list, queued, start, state, a)
  {
    var nonce, funds := NonceOf(state.nonces, a), BalanceOf(state, a);
    var current := Current(queued, state, a);
    assert Waiting(current, list, nonce, funds, state.maxGas);
    if nonce >= start {
      StaysGapless(list, current, start, end, nonce, next);
      RemainsGapless(list + Promotes(queued, next, state, a), nonce, funds, state.maxGas);
    } else if nonce in current {
      assert MayStart(current, next);
      if hole :| nonce < hole < start && hole !in current {
        HoleStays(list, current, start, end, nonce, funds, state.maxGas, hole);
      } else {
        ReachesList(list, current, start, end, nonce);
        RemainsGapless(list + Leading(current), nonce, funds, state.maxGas);
      }
    } else {
      assert !MayStart(current, next) && list + map[] == list;
      assert nonce !in list;
    }
  }

  lemma StaysGapless(list: Items, current: Items, start: nat, end: nat, nonce: nat, next: nat)
    requires IsRange(list, start, end) && start <= nonce && (next <= nonce || (next == end && nonce == start))
    requires forall n :: n in current ==> n >= nonce && n !in list
    ensures Gapless(From(list + (if MayStart(current, next) then Leading(current) else map[]), nonce), nonce)
  {
    if MayStart(current, next) {
      var k :| k in current && k <= next;
      forall m, n | m in list + Leading(current) && nonce <= n <= m
        ensures n in list + Leading(current)
      {
        if m in Leading(current) && n >= k {
          LeadsDown(current, k, m, n);
        }
      }
    } else {
      assert list + map[] == list;
    }
  }

  lemma LeadsDown(current: Items, k: nat, m: nat, n: nat)
    requires k in current && k <= n <= m && m in Leading(current)
    ensures n in Leading(current)
  {
    assert Unbroken(current, m);
    assert Unbroken(current, n);
  }

  /** The same for a reset pool, whose lists may have been cut short meanwhile. */
  lemma ResetAccount(p: Accounts, p': Accounts, q: Accounts, v: Nonces, start: nat, next: nat, state: State, a: Address)
    requires Contiguous(p, start, next, a) && Shorter(p, Nonces(map[], state.nonces), p', v)
    requires forall b, n :: !(HasNonce(p', b, n) && HasNonce(q, b, n))
    ensures Mended(Get(p', a), Get(q, a), v.Of(a), state, a) <==> !GapOpens(Get(p', a), Get(q, a), start, state, a)
  {
    var end := InitialPart(p, Nonces(map[], state.nonces), p', v, a, start, next, next);
    forall n: nat
      ensures n in Get(p', a) <==> start <= n < end
    {
      assert HasNonce(p', a, n) <==> n in Get(p', a);
    }
    forall n | n in Get(q, a)
      ensures n !in Get(p', a)
    {
      assert HasNonce(q, a, n);
    }
    AfterReset(Get(p', a), Get(q, a), start, end, v.Of(a), state, a);
  }

  /** With or without a new state. */
  lemma SettlesAccount(p: Accounts, v: Nonces, base: map<Address, nat>, p': Accounts, q: Accounts, v': Nonces, reset: bool,
                       state: State, a: Address)
    requires Contiguous(p, NonceOf(base, a), v.Of(a), a)
    requires forall b, n :: !(HasNonce(p', b, n) && HasNonce(q, b, n))
    requires if reset then Shorter(p, Nonces(map[], state.nonces), p', v') else p' == p && v' == v && base == state.nonces
    ensures Mended(Get(p', a), Get(q, a), v'.Of(a), state, a) <==>
      !GapOpens(Get(p', a), Get(q, a), NonceOf(base, a), state, a)
  {
    if reset {
      ResetAccount(p, p', q, v', NonceOf(base, a), v.Of(a), state, a);
    } else {
      forall n: nat
        ensures n in Get(p, a) <==> NonceOf(base, a) <= n < v.Of(a)
        ensures n in Get(q, a) ==> n !in Get(p, a)
      {
        assert HasNonce(p, a, n) <==> n in Get(p, a);
        assert HasNonce(q, a, n) <==> n in Get(q, a);
      }
      AfterReset(Get(p, a), Get(q, a), NonceOf(base, a), v.Of(a), v.Of(a), state, a);
    }
  }

  // ----- transactions that join the lists -----

  /** The lists and what is known. */
  datatype Lists = Lists(pending: Accounts, queue: Accounts, known: set<Tx>)

  /** A transaction on offer, and whether it passes the checks that do not depend on the pool. */
  datatype Offer = Offer(tx: Tx, basic: bool)

  /** What offers are measured by. */
  datatype Terms = Terms(state: State, locals: set<Address>, gasPrice: nat, config: Config)
  {
    /** validateTx. */
    predicate Accept(o: Offer, local: bool)
    {
      var tx := o.tx;
      && o.basic && tx.size <= TX_MAX_SIZE && tx.nonce < MAX_UINT64
      && tx.gas <= state.maxGas && tx.feeCap >= tx.tipCap && (local || tx.sender in locals || tx.tipCap >= gasPrice)
      && tx.nonce >= NonceOf(state.nonces, tx.sender) && tx.cost <= BalanceOf(state, tx.sender)
    }

    function Capacity(): nat { config.globalSlots + config.globalQueue }
  }

  /** A new transaction takes the place of a pending or queued one that it outbids, and otherwise waits in the queue. */
  function Placed(s: Lists, tx: Tx, priceBump: nat): Lists
  {
    if tx.nonce in Get(s.pending, tx.sender) then
      if Outbids(tx, Get(s.pending, tx.sender)[tx.nonce], priceBump)
      then Lists(With(s.pending, tx), s.queue, Remaining(s.pending, s.known, tx) + {tx}) else s
    else if tx.nonce !in Get(s.queue, tx.sender) || Outbids(tx, Get(s.queue, tx.sender)[tx.nonce], priceBump)
    then Lists(s.pending, With(s.queue, tx), Remaining(s.queue, s.known, tx) + {tx}) else s
  }

  /** What an offer makes of the lists once there is room for it. */
  function Joined(s: Lists, o: Offer, local: bool, t: Terms): Lists
  {
    if o.tx in s.known || !t.Accept(o, local) then s else Placed(s, o.tx, t.config.priceBump)
  }

  /** What a sequence of offers from the network makes of them, one after the other. */
  function JoinedAll(s: Lists, offers: seq<Offer>, t: Terms): Lists
  {
    if offers == [] then s
    else Joined(JoinedAll(s, offers[..|offers| - 1], t), offers[|offers| - 1], false, t)
  }

  function Offered(offers: seq<Offer>): set<Tx> { set o | o in offers :: o.tx }

  /** No eviction is needed for an offer. */
  ghost predicate HasRoom(s: Lists, o: Offer, local: bool, t: Terms)
  {
    o.tx in s.known || !t.Accept(o, local) || Slots(s.known) + NumSlots(o.tx) <= t.Capacity()
  }

  /** Nor for any of a sequence of them. */
  ghost predicate Roomy(s: Lists, offers: seq<Offer>, t: Terms)
  {
    forall i {:trigger offers[i]} :: 0 <= i < |offers| ==> HasRoom(JoinedAll(s, offers[..i], t), offers[i], false, t)
  }

  ghost function OfferedSlots(offers: seq<Offer>): nat
  {
    if offers == [] then 0 else OfferedSlots(offers[..|offers| - 1]) + NumSlots(offers[|offers| - 1].tx)
  }

  lemma SlotsAfter(lists: Accounts, known: set<Tx>, tx: Tx)
    ensures Slots(Remaining(lists, known, tx) + {tx}) <= Slots(known) + NumSlots(tx)
  {
    var rest := Remaining(lists, known, tx);
    if rest != known {
      SlotsRemove(known, lists[tx.sender][tx.nonce]);
    }
    if tx in rest {
      assert rest + {tx} == rest;
    } else {
      SlotsAdd(rest, tx);
    }
  }

  lemma OneSlots(s: Lists, o: Offer, local: bool, t: Terms)
    ensures Slots(Joined(s, o, local, t).known) <= Slots(s.known) + NumSlots(o.tx)
  {
    SlotsAfter(s.pending, s.known, o.tx);
    SlotsAfter(s.queue, s.known, o.tx);
  }

  /** Offers take up no more than their own slots. */
  lemma {:induction false} JoinedSlots(s: Lists, offers: seq<Offer>, t: Terms)
    ensures Slots(JoinedAll(s, offers, t).known) <= Slots(s.known) + OfferedSlots(offers)
    decreases |offers|
  {
    if offers != [] {
      JoinedSlots(s, offers[..|offers| - 1], t);
      OneSlots(JoinedAll(s, offers[..|offers| - 1], t), offers[|offers| - 1], false, t);
    }
  }

  /** Offers that all fit into the pool together need no eviction. */
  lemma FitTogether(s: Lists, offers: seq<Offer>, t: Terms)
    requires Slots(s.known) + OfferedSlots(offers) <= t.Capacity()
    ensures Roomy(s, offers, t)
  {
    forall i | 0 <= i < |offers|
      ensures HasRoom(JoinedAll(s, offers[..i], t), offers[i], false, t)
    {
      JoinedSlots(s, offers[..i], t);
      OfferedUpTo(offers, i + 1);
      assert offers[..i + 1][..i] == offers[..i];
    }
  }

  lemma {:induction false} OfferedUpTo(offers: seq<Offer>, i: nat)
    requires i <= |offers|
    ensures OfferedSlots(offers[..i]) <= OfferedSlots(offers)
    decreases |offers|
  {
    if i == |offers| {
      assert offers[..i] == offers;
    } else {
      OfferedUpTo(offers[..|offers| - 1], i);
      assert offers[..|offers| - 1][..i] == offers[..i];
    }
  }

  lemma JoinsNext(s: Lists, offers: seq<Offer>, t: Terms, i: nat)
    requires i < |offers|
    ensures JoinedAll(s, offers[..i + 1], t) == Joined(JoinedAll(s, offers[..i], t), offers[i], false, t)
  {
    assert offers[..i + 1][..i] == offers[..i];
  }

  function TermsOf(head: Head, locals: set<Address>, config: Config): Terms
  {
    Terms(head.state, locals, head.gasPrice, config)
  }

  /** A new head whose reinjected transactions need no eviction, and make lists in which no gap opens. */
  ghost predicate Heals(s: Lists, head: Head, t: Terms, start: nat, a: Address)
  {
    var joined := JoinedAll(s, head.reinject, t);
    && head.available && Roomy(s, head.reinject, t)
    && !GapOpens(Get(joined.pending, a), Get(joined.queue, a), start, t.state, a)
  }

  /** An account with nonces 5 and 6 pending and 3 queued, all payable, whose state nonce a reset puts back to 3, ends with
      3, 5 and 6 pending. */
  lemma GapExample(a: Address, three: Tx, five: Tx, six: Tx, state: State)
    requires three.nonce == 3 && five.nonce == 5 && six.nonce == 6 && NonceOf(state.nonces, a) == 3
    requires forall tx :: tx in {three, five, six} ==> !Costly(tx, BalanceOf(state, a), state.maxGas)
    ensures var list, queued := map[5 := five, 6 := six], map[3 := three];
      && GapOpens(list, queued, 5, state, a)
      && Remains(list + Promotes(queued, 3, state, a), state, a) == map[3 := three, 5 := five, 6 := six]
  {
    GapPromotes(a, three, state);
    var all := map[3 := three, 5 := five, 6 := six];
    assert map[5 := five, 6 := six] + map[3 := three] == all;
    AllRemain(all, state, a);
    assert 4 !in map[3 := three];
  }

  /** The same account again. If nonce 4 comes back with the reset there is no gap, although the lists before it have
      one. */
  lemma MendedExample(s: Lists, a: Address, three: Tx, four: Tx, five: Tx, six: Tx, t: Terms)
    requires Get(s.pending, a) == map[5 := five, 6 := six] && Get(s.queue, a) == map[3 := three] && four !in s.known
    requires three.nonce == 3 && five.nonce == 5 && six.nonce == 6 && NonceOf(t.state.nonces, a) == 3
    requires forall tx :: tx in {three, five, six} ==> !Costly(tx, BalanceOf(t.state, a), t.state.maxGas)
    requires four.nonce == 4 && four.sender == a && t.Accept(Offer(four, true), false)
    ensures GapOpens(Get(s.pending, a), Get(s.queue, a), 5, t.state, a)
    ensures var after := JoinedAll(s, [Offer(four, true)], t);
      && Get(after.queue, a) == map[3 := three, 4 := four]
      && !GapOpens(Get(after.pending, a), Get(after.queue, a), 5, t.state, a)
  {
    GapExample(a, three, five, six, t.state);
    QueuesOne(s, Offer(four, true), t);
    assert map[3 := three][4 := four] == map[3 := three, 4 := four];
    BothCurrent(a, three, four, t.state);
  }

  lemma BothCurrent(a: Address, three: Tx, four: Tx, state: State)
    requires NonceOf(state.nonces, a) == 3
    requires !Costly(three, BalanceOf(state, a), state.maxGas) && !Costly(four, BalanceOf(state, a), state.maxGas)
    ensures Current(map[3 := three, 4 := four], state, a) == map[3 := three, 4 := four]
  {
    AllCurrent(map[3 := three, 4 := four], state, a);
  }

  /** If nothing was queued and only nonce 3 comes back, the gap opens, although the lists before it have none. */
  lemma ReinjectedExample(s: Lists, a: Address, three: Tx, five: Tx, six: Tx, t: Terms)
    requires Get(s.pending, a) == map[5 := five, 6 := six] && Get(s.queue, a) == map[] && three !in s.known
    requires three.nonce == 3 && five.nonce == 5 && six.nonce == 6 && NonceOf(t.state.nonces, a) == 3
    requires forall tx :: tx in {five, six} ==> !Costly(tx, BalanceOf(t.state, a), t.state.maxGas)
    requires three.sender == a && t.Accept(Offer(three, true), false)
    ensures !GapOpens(Get(s.pending, a), Get(s.queue, a), 5, t.state, a)
    ensures var after := JoinedAll(s, [Offer(three, true)], t);
      && Get(after.queue, a) == map[3 := three]
      && GapOpens(Get(after.pending, a), Get(after.queue, a), 5, t.state, a)
  {
    GapExample(a, three, five, six, t.state);
    QueuesOne(s, Offer(three, true), t);
    var none: Items := map[];
    assert none[3 := three] == map[3 := three];
  }

  /** That gap at the reset itself: the account's pending nonces were an interval, and no longer are. */
  method GapAtReset(pool: TxPool, head: Head, a: Address, ghost three: Tx, ghost five: Tx, ghost six: Tx)
    requires pool.Valid() && pool.Interval(a) && NonceOf(pool.state.nonces, a) == 5
    requires Get(pool.pending, a) == map[5 := five, 6 := six] && Get(pool.queue, a) == map[] && three !in pool.all.Known()
    requires three.nonce == 3 && five.nonce == 5 && six.nonce == 6
    requires head.available && NonceOf(head.state.nonces, a) == 3 && head.reinject == [Offer(three, true)]
    requires forall tx :: tx in {five, six} ==> !Costly(tx, BalanceOf(head.state, a), head.state.maxGas)
    requires three.sender == a && TermsOf(head, pool.locals, pool.config).Accept(Offer(three, true), false)
    requires Roomy(pool.Contents(), head.reinject, TermsOf(head, pool.locals, pool.config))
    modifies pool, pool.all, pool.priced, pool.noncer
    ensures pool.Valid() && !pool.Interval(a)
  {
    ReinjectedExample(pool.Contents(), a, three, five, six, TermsOf(head, pool.locals, pool.config));
    var _, _ := pool.Resettle(head);
  }

  lemma QueuesOne(s: Lists, o: Offer, t: Terms)
    requires o.tx !in s.known && t.Accept(o, false)
    requires o.tx.nonce !in Get(s.pending, o.tx.sender) && o.tx.nonce !in Get(s.queue, o.tx.sender)
    ensures var after := JoinedAll(s, [o], t);
      after.pending == s.pending && Get(after.queue, o.tx.sender) == Get(s.queue, o.tx.sender)[o.tx.nonce := o.tx]
  {
    assert [o][..0] == [];
    assert JoinedAll(s, [o], t) == Joined(s, o, false, t);
    assert o.tx.nonce in Get(s.queue, o.tx.sender)[o.tx.nonce := o.tx];
  }

  lemma AllCurrent(list: Items, state: State, a: Address)
    requires Admitted(list, state, a)
    ensures Current(list, state, a) == list
  {
  }

  lemma GapPromotes(a: Address, three: Tx, state: State)
    requires three.nonce == 3 && NonceOf(state.nonces, a) == 3 && !Costly(three, BalanceOf(state, a), state.maxGas)
    ensures var queued := map[3 := three];
      Current(queued, state, a) == queued && Promotes(queued, 3, state, a) == queued
  {
    var queued := map[3 := three];
    assert Current(queued, state, a) == queued;
    assert 3 in queued && Unbroken(queued, 3) && MayStart(queued, 3);
  }

  /** A list that can all be paid stays, if it begins at the state nonce. */
  lemma AllRemain(list: Items, state: State, a: Address)
    requires NonceOf(state.nonces, a) in list && Admitted(list, state, a)
    ensures Remains(list, state, a) == list
  {
    assert From(list, NonceOf(state.nonces, a)) == list;
    assert Executable(list, BalanceOf(state, a), state.maxGas) == list;
  }

  /** With no nonce missing, a run from below either meets the list or, if that is empty, is all there is. */
  lemma ReachesList(list: Items, current: Items, start: nat, end: nat, nonce: nat)
    requires IsRange(list, start, end) && nonce < start && forall n :: nonce <= n < start ==> n in current
    requires forall n :: n in current ==> n >= nonce && n !in list
    ensures Gapless(From(list + Leading(current), nonce), nonce)
  {
    forall n | nonce <= n < start
      ensures n in Leading(current)
    {
      assert Unbroken(current, n);
    }
    forall m, n | m in list + Leading(current) && nonce <= n <= m
      ensures n in list + Leading(current)
    {
      if m in Leading(current) {
        LeadsDown(current, nonce, m, n);
      }
    }
  }

  /** A nonce that is missing below the list cuts the run short of it; the list then stays, and the gap with it, exactly
      if its first transaction can be paid. */
  lemma HoleStays(list: Items, current: Items, start: nat, end: nat, nonce: nat, funds: nat, maxGas: nat, hole: nat)
    requires IsRange(list, start, end) && Waiting(current, list, nonce, funds, maxGas)
    requires nonce < hole < start && nonce in current && hole !in current
    ensures Gapless(Executables(list + Leading(current), nonce, funds, maxGas), nonce) <==>
      !(start in list && !Costly(list[start], funds, maxGas))
  {
    RunComesFirst(list, current, start, end, nonce, funds, maxGas, hole);
    RunIsExecutable(list, current, start, end, nonce, funds, maxGas, hole);
    var both := From(list + Leading(current), nonce);
    if start in list && !Costly(list[start], funds, maxGas) {
      HoleOpens(both, list, start, nonce, funds, maxGas, hole);
    } else {
      OnlyRun(both, Executable(both, funds, maxGas), current, list, start, nonce);
    }
  }

  lemma HoleOpens(both: Items, list: Items, start: nat, nonce: nat, funds: nat, maxGas: nat, hole: nat)
    requires start in both && !Costly(both[start], funds, maxGas) && nonce < hole < start && hole !in both
    requires forall n :: n in both && n < start ==> !Costly(both[n], funds, maxGas)
    ensures !Gapless(Executable(both, funds, maxGas), nonce)
  {
    assert !Blocked(both, start, funds, maxGas);
    assert start in Executable(both, funds, maxGas) && hole !in Executable(both, funds, maxGas);
  }

  /** The run can be paid and ends before the missing nonce. */
  lemma RunComesFirst(list: Items, current: Items, start: nat, end: nat, nonce: nat, funds: nat, maxGas: nat, hole: nat)
    requires IsRange(list, start, end) && Waiting(current, list, nonce, funds, maxGas)
    requires nonce < hole < start && nonce in current && hole !in current
    ensures var run, both := Leading(current), From(list + Leading(current), nonce);
      && nonce in run && (forall n :: n in run ==> nonce <= n < hole && n in both)
      && (forall n :: n in both && n < start ==> n in run && !Costly(both[n], funds, maxGas))
      && (start in list ==> start in both && both[start] == list[start]) && hole !in both
  {
    assert Unbroken(current, nonce);
    forall n | n in Leading(current)
      ensures n < hole
    {
      assert Unbroken(current, n);
    }
  }

  /** So all of it can be executed, and nothing from the list on unless its first transaction can be paid. */
  lemma RunIsExecutable(list: Items, current: Items, start: nat, end: nat, nonce: nat, funds: nat, maxGas: nat, hole: nat)
    requires IsRange(list, start, end) && Waiting(current, list, nonce, funds, maxGas)
    requires nonce < hole < start && nonce in current && hole !in current
    ensures var run, both := Leading(current), From(list + Leading(current), nonce);
      && (forall n :: n in run ==> n in Executable(both, funds, maxGas))
      && ((start in list ==> Costly(list[start], funds, maxGas)) ==>
            forall n :: n in both && n >= start ==> n !in Executable(both, funds, maxGas))
  {
    RunComesFirst(list, current, start, end, nonce, funds, maxGas, hole);
    var both := From(list + Leading(current), nonce);
    hide Leading, From, Unbroken, Waiting;
    forall n | n in Leading(current)
      ensures !Blocked(both, n, funds, maxGas)
    {
    }
    forall n | n in both && n >= start && (start in list ==> Costly(list[start], funds, maxGas))
      ensures Blocked(both, n, funds, maxGas)
    {
    }
  }

  lemma OnlyRun(both: Items, executable: Items, current: Items, list: Items, start: nat, nonce: nat)
    requires forall n :: n in executable ==> n in both
    requires forall n :: n in Leading(current) ==> n in executable
    requires forall n :: n in both && n < start ==> n in Leading(current)
    requires forall n :: n in both && n >= start ==> n !in executable
    requires nonce in current
    ensures Gapless(executable, nonce)
  {
    forall m, n | m in executable && nonce <= n <= m
      ensures n in executable
    {
      LeadsDown(current, nonce, m, n);
    }
  }

  /** The middle of promoteExecutables: the lists of accounts already visited have what their queues had to give, the
      others are untouched. */
  ghost predicate Promoting(p: Accounts, q: Accounts, v: Nonces, p': Accounts, q': Accounts, v': Nonces,
                            done: set<Address>, state: State)
  {
    forall a {:trigger Get(p', a)} ::
      if a in done then Get(p', a) == Get(p, a) + Promotes(Get(q, a), v.Of(a), state, a)
      else Get(p', a) == Get(p, a) && Get(q', a) == Get(q, a) && v'.Of(a) == v.Of(a)
  }

  lemma PromotingStep(p: Accounts, q: Accounts, v: Nonces, p': Accounts, q': Accounts, v': Nonces, p'': Accounts,
                      q'': Accounts, v'': Nonces, done: set<Address>, state: State, a: Address)
    requires Promoting(p, q, v, p', q', v', done, state) && a !in done
    requires OnlyAt(p', p'', a) && OnlyAt(q', q'', a) && forall b :: b != a ==> v''.Of(b) == v'.Of(b)
    requires Get(p'', a) == Get(p', a) + Promotes(Get(q', a), v'.Of(a), state, a)
    ensures Promoting(p, q, v, p'', q'', v'', done + {a}, state)
  {
    forall b
      ensures if b in done + {a} then Get(p'', b) == Get(p, b) + Promotes(Get(q, b), v.Of(b), state, b)
              else Get(p'', b) == Get(p, b) && Get(q'', b) == Get(q, b) && v''.Of(b) == v.Of(b)
    {
      assert b == a || (Get(p'', b) == Get(p', b) && Get(q'', b) == Get(q', b));
    }
  }

  function Among(accounts: seq<Address>): set<Address> { set a | a in accounts }

  /** A queue that has been through promotion: nothing too old or unpayable, and not too long. */
  ghost predicate Fits(list: Items, state: State, a: Address, locals: set<Address>, cap: nat)
  {
    Admitted(list, state, a) && (a !in locals ==> |list| <= cap)
  }

  /** Promotion of one account: its pending list gains exactly what its queue has to give, and intervals stay. */
  ghost predicate OnePromoted(p: Accounts, q: Accounts, v: Nonces, p': Accounts, q': Accounts, v': Nonces, a: Address,
                              state: State, locals: set<Address>, cap: nat)
  {
    && Keeps(p, v, p', v', state.nonces)
    && OnlyAt(p, p', a) && OnlyAt(q, q', a) && Fits(Get(q', a), state, a, locals, cap)
    && Get(p', a) == Get(p, a) + Promotes(Get(q, a), v.Of(a), state, a)
    && forall b :: b != a ==> v'.Of(b) == v.Of(b)
  }

  /** Promotion of a list of accounts, each of which should be there once. */
  ghost predicate Promoted(p: Accounts, q: Accounts, v: Nonces, p': Accounts, q': Accounts, v': Nonces,
                           accounts: seq<Address>, state: State, locals: set<Address>, cap: nat)
  {
    && Keeps(p, v, p', v', state.nonces)
    && (forall a :: a in accounts ==> Fits(Get(q', a), state, a, locals, cap))
    && (Distinct(accounts) ==> Promoting(p, q, v, p', q', v', Among(accounts), state))
  }

  lemma NonePromoted(p: Accounts, q: Accounts, v: Nonces, state: State, locals: set<Address>, cap: nat)
    ensures Promoted(p, q, v, p, q, v, [], state, locals, cap)
  {
  }

  lemma PromotedStep(p: Accounts, q: Accounts, v: Nonces, p': Accounts, q': Accounts, v': Nonces, p'': Accounts,
                     q'': Accounts, v'': Nonces, accounts: seq<Address>, a: Address, state: State,
                     locals: set<Address>, cap: nat)
    requires Promoted(p, q, v, p', q', v', accounts, state, locals, cap)
    requires OnePromoted(p', q', v', p'', q'', v'', a, state, locals, cap)
    ensures Promoted(p, q, v, p'', q'', v'', accounts + [a], state, locals, cap)
  {
    hide Keeps, Promotes, Fits, Promoting;
    KeepsTwice(p, v, p', v', p'', v'', state.nonces);
    forall b | b in accounts + [a]
      ensures Fits(Get(q'', b), state, b, locals, cap)
    {
      assert b == a || Get(q'', b) == Get(q', b);
    }
    if Distinct(accounts + [a]) {
      assert Distinct(accounts) && a !in accounts by {
        DistinctStart(accounts, a);
      }
      PromotingStep(p, q, v, p', q', v', p'', q'', v'', Among(accounts), state, a);
      assert Among(accounts + [a]) == Among(accounts) + {a};
    }
  }

  lemma DistinctStart(accounts: seq<Address>, a: Address)
    requires Distinct(accounts + [a])
    ensures Distinct(accounts) && a !in accounts
  {
    var more := accounts + [a];
    assert forall i :: 0 <= i < |accounts| ==> more[i] == accounts[i];
    assert more[|accounts|] == a;
  }

  /** After the promotion of every account with a queue. */
  lemma AllGive(p: Accounts, q: Accounts, v: Nonces, p': Accounts, q': Accounts, v': Nonces, accounts: seq<Address>,
                state: State, locals: set<Address>, cap: nat)
    requires Promoted(p, q, v, p', q', v', accounts, state, locals, cap)
    requires Distinct(accounts) && forall a :: a in accounts <==> a in q
    ensures forall a {:trigger Get(p', a)} :: Get(p', a) == Get(p, a) + Promotes(Get(q, a), v.Of(a), state, a)
  {
    forall a
      ensures Get(p', a) == Get(p, a) + Promotes(Get(q, a), v.Of(a), state, a)
    {
      if a !in q {
        NothingToPromote(Get(p, a), v.Of(a), state, a);
      }
    }
  }

  /** An account without a queue has nothing to give. */
  lemma NothingToPromote(list: Items, start: nat, state: State, a: Address)
    ensures list + Promotes(map[], start, state, a) == list
  {
    assert Current(map[], state, a) == map[];
  }

  class TxPool {
    const config: Config
    const all: TxLookup
    const priced: TxPricedList
    var noncer: TxNoncer
    var pending: Accounts
    var queue: Accounts
    var state: State
    var locals: set<Address>
    var changes: nat
    /** What Discard has taken off the price heaps and is about to be removed. */
    ghost var evicting: set<Tx>

    /** Everything known is in exactly one list, except what is being moved; the slot count is right; and every live
        remote transaction is in a price heap. */
    ghost predicate Consistent(a: Address, rest: Items)
      reads this`pending, this`queue, this`evicting, all, priced
    {
      Covered() && Partition(pending, queue, all.Known(), a, rest)
    }

    ghost predicate Covered()
      reads this`evicting, all, priced
    {
      all.Valid() && priced.Valid() && forall tx :: tx in all.remotes ==> priced.Tracks(tx) || tx in evicting
    }

    ghost predicate Valid()
      reads this`pending, this`queue, this`evicting, this`noncer, this`state, all, priced
    {
      Consistent(0, map[]) && evicting == {} && config.accountSlots >= 1 && noncer.fallback == state.nonces
    }

    ghost predicate Interval(a: Address)
      reads this`pending, this`state, this`noncer, noncer
    {
      Contiguous(pending, NonceOf(state.nonces, a), noncer.View().Of(a), a)
    }

    /** Accounts whose pending nonces were an interval with these lists and virtual nonces still have one. */
    ghost predicate Kept(p: Accounts, v: Nonces)
      reads this`pending, this`state, this`noncer, noncer
    {
      Keeps(p, v, pending, noncer.View(), state.nonces)
    }

    constructor (config: Config, state: State)
      requires config.accountSlots >= 1
      ensures Valid() && this.config == config && this.state == state && pending == queue == map[]
      ensures forall a :: Interval(a)
      ensures fresh(all) && fresh(priced) && fresh(noncer)
    {
      this.config, this.state := config, state;
      pending, queue, locals, changes, evicting := map[], map[], {}, 0, {};
      all := new TxLookup();
      priced := new TxPricedList();
      noncer := new TxNoncer(state.nonces);
    }

    /** A known transaction that has left the lists is dropped from the lookup. */
    method Forget(a: Address, n: nat, ghost rest: Items, tx: Tx)
      requires Consistent(a, rest) && n in rest && rest[n] == tx
      modifies all
      ensures Consistent(a, rest - {n}) && all.Known() == old(all.Known()) - {tx}
    {
      Forgets(pending, queue, all.Known(), a, rest, n);
      all.Remove(tx);
    }

    /** A new transaction, or one that is being moved, goes into the queue, unless a better one has its nonce. One
        being moved always gets in when its nonce is free. */
    method EnqueueTx(tx: Tx, local: bool, addAll: bool, ghost rest: Items) returns (replaced: bool, ok: bool)
      requires Consistent(tx.sender, rest) && tx.nonce < MAX_UINT64 && !HasNonce(pending, tx.sender, tx.nonce)
      requires if addAll then tx !in all.Known() && rest == map[] else Holds(rest, tx)
      modifies this`queue, all, priced
      ensures ok <==> !old(HasNonce(queue, tx.sender, tx.nonce)) ||
                      Outbids(tx, old(queue)[tx.sender][tx.nonce], config.priceBump)
      ensures ok ==> Consistent(tx.sender, rest - {tx.nonce})
      ensures queue == if ok then With(old(queue), tx) else old(queue)
      ensures !ok ==> Consistent(tx.sender, rest) && all.Known() == old(all.Known())
      ensures replaced <==> ok && old(HasNonce(queue, tx.sender, tx.nonce))
      ensures ok ==> all.Known() == Remaining(old(queue), old(all.Known()), tx) + (if addAll then {tx} else {})
    {
      var list := Get(queue, tx.sender);
      if tx.nonce in list && !Outbids(tx, list[tx.nonce], config.priceBump) {
        return false, false;
      }
      LandsInQueue(pending, queue, all.Known(), rest, tx, addAll);
      queue := Store(queue, tx.sender, list[tx.nonce := tx]);
      replaced := tx.nonce in list;
      if replaced {
        Unregister(list[tx.nonce]);
      }
      if addAll {
        Register(tx, local);
      }
      ok := true;
    }

    /** A transaction on its way from the queue becomes pending and moves the virtual nonce past its own. It always
        gets in when its nonce is free; if it is beaten by the one there it is dropped. */
    method PromoteTx(tx: Tx, ghost rest: Items) returns (inserted: bool)
      requires Consistent(tx.sender, rest) && Holds(rest, tx) && !HasNonce(queue, tx.sender, tx.nonce)
      modifies this`pending, all, priced, noncer
      ensures Consistent(tx.sender, rest - {tx.nonce})
      ensures inserted <==> !old(HasNonce(pending, tx.sender, tx.nonce)) ||
                            Outbids(tx, old(pending)[tx.sender][tx.nonce], config.priceBump)
      ensures pending == if inserted then With(old(pending), tx) else old(pending)
      ensures forall a :: noncer.View().Of(a) == if inserted && a == tx.sender then tx.nonce + 1 else old(noncer.View()).Of(a)
      ensures forall a :: old(Interval(a)) && (a == tx.sender ==> tx.nonce == old(noncer.View()).Of(a)) ==> Interval(a)
    {
      var list := Get(pending, tx.sender);
      if tx.nonce in list && !Outbids(tx, list[tx.nonce], config.priceBump) {
        Forgets(pending, queue, all.Known(), tx.sender, rest, tx.nonce);
        Unregister(tx);
        return false;
      }
      Lands(pending, queue, all.Known(), rest, tx);
      WithHolds(pending, tx);
      pending := Store(pending, tx.sender, list[tx.nonce := tx]);
      if tx.nonce in list {
        Unregister(list[tx.nonce]);
      }
      noncer.Set(tx.sender, tx.nonce + 1);
      inserted := true;
    }

    /** Drops transactions that have left the lists. */
    method ForgetAll(a: Address, txs: Items)
      requires Consistent(a, txs)
      modifies all
      ensures Consistent(a, map[]) && Forgotten(old(all.Known()), all.Known(), txs)
    {
      var left := txs;
      while left != map[]
        invariant Consistent(a, left) && PartOf(left, txs)
        invariant Forgotten(old(all.Known()), all.Known(), txs - left.Keys)
        decreases |left|
      {
        var n :| n in left;
        assert (left - {n}).Keys == left.Keys - {n};
        Forget(a, n, left, left[n]);
        left := left - {n};
      }
    }

    /** Puts transactions that have left the pending list back into the queue. Not one of them is refused. */
    method Requeue(a: Address, txs: Items)
      requires Consistent(a, txs) && Clear(pending, a, txs) && Clear(queue, a, txs)
      modifies this`queue, all, priced
      ensures Consistent(a, map[]) && all.Known() == old(all.Known())
      ensures forall b, n :: HasNonce(queue, b, n) <==> old(HasNonce(queue, b, n)) || (b == a && n in txs)
    {
      var left := txs;
      while left != map[]
        invariant Consistent(a, left) && Clear(pending, a, left) && Clear(queue, a, left) && PartOf(left, txs)
        invariant all.Known() == old(all.Known())
        invariant forall b, n :: HasNonce(queue, b, n) <==>
          old(HasNonce(queue, b, n)) || (b == a && n in txs && n !in left)
        decreases |left|
      {
        var n :| n in left;
        assert (left - {n}).Keys == left.Keys - {n};
        WithHolds(queue, left[n]);
        var _, ok := EnqueueTx(left[n], false, false, left);
        assert ok;
        left := left - {n};
      }
    }

    /** Takes a transaction out of the pool. One that was pending sends those after it back to the queue and pulls the
        virtual nonce down to its own; one that was queued touches nothing else. */
    method RemoveTx(tx: Tx, outOfBound: bool)
      requires Consistent(0, map[])
      modifies this`pending, this`queue, all, priced, noncer
      ensures Consistent(0, map[]) && all.Known() == old(all.Known()) - {tx}
      ensures Kept(old(pending), old(noncer.View()))
      ensures Shorter(old(pending), old(noncer.View()), pending, noncer.View())
      ensures old(InLists(queue, tx)) ==>
        && pending == old(pending) && queue == Store(old(queue), tx.sender, old(queue)[tx.sender] - {tx.nonce})
        && SameNonces(old(noncer.View()), noncer.View())
      ensures old(InLists(pending, tx)) ==>
        pending == Store(old(pending), tx.sender, Below(old(pending)[tx.sender], tx.nonce))
      ensures !old(InLists(pending, tx)) && !old(InLists(queue, tx)) ==> pending == old(pending) && queue == old(queue)
    {
      if tx !in all.Known() {
        return;
      }
      ghost var known := all.Known();
      Detach(tx, outOfBound);
      if tx.sender in pending && tx.nonce in pending[tx.sender] {
        DropPending(tx, known);
        noncer.SetIfLower(tx.sender, tx.nonce);
        CutShorter(old(pending), old(noncer.View()), noncer.View(), tx.sender, tx.nonce);
        CutKeeps(old(pending), old(noncer.View()), noncer.View(), tx.sender, tx.nonce, state.nonces);
      } else {
        DropQueued(tx, known);
      }
      Settled(pending, queue, all.Known(), tx.sender, 0);
    }

    /** Takes a transaction out of the lookup. */
    method Detach(tx: Tx, outOfBound: bool)
      requires Consistent(0, map[]) && tx in all.Known()
      modifies all, priced
      ensures Dropping(tx, old(all.Known()))
    {
      Settled(pending, queue, all.Known(), 0, tx.sender);
      all.Remove(tx);
      if outOfBound {
        priced.Removed(1, all.remotes);
      }
    }

    /** The lists are right but for one transaction the lookup no longer knows. */
    ghost predicate Dropping(tx: Tx, known: set<Tx>)
      reads this`pending, this`queue, this`evicting, all, priced
    {
      && Covered() && tx in known && all.Known() == known - {tx} && Partition(pending, queue, known, tx.sender, map[])
    }

    method DropPending(tx: Tx, ghost known: set<Tx>)
      requires Dropping(tx, known) && HasNonce(pending, tx.sender, tx.nonce)
      modifies this`pending, this`queue, all, priced
      ensures Consistent(tx.sender, map[]) && all.Known() == old(all.Known())
      ensures old(InLists(pending, tx)) && !old(InLists(queue, tx))
      ensures pending == Store(old(pending), tx.sender, Below(old(pending)[tx.sender], tx.nonce))
    {
      RemovesPending(pending, queue, known, tx);
      var invalids := From(pending[tx.sender], tx.nonce + 1);
      pending := Store(pending, tx.sender, Below(pending[tx.sender], tx.nonce));
      assert Consistent(tx.sender, invalids);
      assert Clear(pending, tx.sender, invalids) && Clear(queue, tx.sender, invalids);
      Requeue(tx.sender, invalids);
    }

    method DropQueued(tx: Tx, ghost known: set<Tx>)
      requires Dropping(tx, known) && !HasNonce(pending, tx.sender, tx.nonce)
      modifies this`queue
      ensures Consistent(tx.sender, map[])
      ensures old(InLists(queue, tx)) && !old(InLists(pending, tx))
      ensures queue == Store(old(queue), tx.sender, old(queue)[tx.sender] - {tx.nonce})
    {
      RemovesQueued(pending, queue, known, tx);
      queue := Store(queue, tx.sender, queue[tx.sender] - {tx.nonce});
    }

    /** Drops a replaced transaction from the lookup and tells the price heaps. */
    method Unregister(tx: Tx)
      requires Covered()
      modifies all, priced
      ensures Covered()
      ensures all.Known() == old(all.Known()) - {tx}
    {
      all.Remove(tx);
      priced.Removed(1, all.remotes);
    }

    method Exchange(prior: Tx, tx: Tx, local: bool)
      requires Covered() && tx !in all.Known()
      modifies all, priced
      ensures Covered() && all.Known() == old(all.Known()) - {prior} + {tx}
    {
      Unregister(prior);
      Register(tx, local);
    }

    /** Enters a new transaction into the lookup and, if it is remote, into the urgent heap. */
    method Register(tx: Tx, local: bool)
      requires Covered()
      requires tx !in all.Known()
      modifies all, priced
      ensures Covered()
      ensures all.Known() == old(all.Known()) + {tx}
    {
      all.Add(tx, local);
      priced.Put(tx, local);
    }

    ghost function Contents(): Lists
      reads this`pending, this`queue, all
    {
      Lists(pending, queue, all.Known())
    }

    /** Adds a transaction; the checks of validateTx that do not depend on the pool come as `basic`. It replaces a pending
        or queued one of its nonce if it outbids it, and otherwise waits in the queue. That is exactly what happens to the
        lists as they are once room has been made; a pool with room keeps them as they were. A refusal changes no list,
        except that eviction may already have made room. */
    method Add(tx: Tx, local: bool, basic: bool, gasPrice: nat) returns (r: AddResult, ghost room: Lists)
      requires Valid()
      modifies this`pending, this`queue, this`changes, this`evicting, this`locals, all, priced, noncer
      ensures Valid()
      ensures r == AlreadyKnown <==> tx in old(all.Known())
      ensures all.Known() <= old(all.Known()) + {tx} && (r.Added? <==> tx in all.Known() && tx !in old(all.Known()))
      ensures forall t {:trigger t in old(all.Known())} :: t in old(all.Known()) && t !in all.Known() ==>
        || (t in old(all.remotes) && old(all.slots) + NumSlots(tx) > config.globalSlots + config.globalQueue)
        || (r == Added(true) && t.sender == tx.sender && t.nonce == tx.nonce)
      ensures !r.Added? && r != ReplaceUnderpriced ==> pending == old(pending) && queue == old(queue)
      ensures Kept(old(pending), old(noncer.View()))
      ensures Shorter(old(pending), old(noncer.View()), pending, noncer.View())
      ensures locals == if local && r.Added? && tx.nonce !in Get(room.pending, tx.sender)
                        then old(locals) + {tx.sender} else old(locals)
      ensures var t := Terms(state, old(locals), gasPrice, config);
        && (HasRoom(old(Contents()), Offer(tx, basic), local, t) ==>
              room == old(Contents()) && r != Underpriced && r != Overflow)
        && Contents() == if r == Underpriced || r == Overflow then old(Contents())
                         else Joined(room, Offer(tx, basic), local, t)
    {
      room := Contents();
      if tx in all.Known() {
        return AlreadyKnown, room;
      }
      if !Terms(state, locals, gasPrice, config).Accept(Offer(tx, basic), local) {
        return Invalid, room;
      }
      var isLocal := local || tx.sender in locals;
      if all.slots + NumSlots(tx) > config.globalSlots + config.globalQueue {
        var refusal := MakeRoom(tx, isLocal);
        if refusal.Some? {
          return refusal.value, room;
        }
        room := Contents();
      }
      ghost var p, v := pending, noncer.View();
      r := Place(tx, local, isLocal);
      ShorterTwice(old(pending), old(noncer.View()), p, v, pending, v);
    }

    /** The end of add, for a transaction there is room for. */
    method Place(tx: Tx, local: bool, isLocal: bool) returns (r: AddResult)
      requires Valid() && tx !in all.Known() && tx.nonce < MAX_UINT64
      modifies this`pending, this`queue, this`locals, all, priced
      ensures Valid() && (r.Added? || r == ReplaceUnderpriced)
      ensures Contents() == Placed(old(Contents()), tx, config.priceBump)
      ensures all.Known() <= old(all.Known()) + {tx} && (r.Added? <==> tx in all.Known())
      ensures forall t {:trigger t in old(all.Known())} :: t in old(all.Known()) && t !in all.Known() ==>
        r == Added(true) && t.sender == tx.sender && t.nonce == tx.nonce
      ensures locals == if local && r.Added? && tx.nonce !in Get(old(pending), tx.sender)
                        then old(locals) + {tx.sender} else old(locals)
      ensures Kept(old(pending), noncer.View())
      ensures Shorter(old(pending), noncer.View(), pending, noncer.View())
    {
      if tx.sender in pending && tx.nonce in pending[tx.sender] {
        r := ReplacePending(tx, isLocal);
      } else {
        r := AddToQueue(tx, local, isLocal);
      }
    }

    method ReplacePending(tx: Tx, isLocal: bool) returns (r: AddResult)
      requires Valid() && tx !in all.Known() && tx.nonce < MAX_UINT64 && HasNonce(pending, tx.sender, tx.nonce)
      modifies this`pending, all, priced
      ensures Valid() && (r == Added(true) || r == ReplaceUnderpriced)
      ensures r.Added? <==> Outbids(tx, old(pending)[tx.sender][tx.nonce], config.priceBump)
      ensures r.Added? ==>
        pending == With(old(pending), tx) && all.Known() == old(all.Known()) - {old(pending)[tx.sender][tx.nonce]} + {tx}
      ensures !r.Added? ==> pending == old(pending) && all.Known() == old(all.Known())
      ensures Kept(old(pending), old(noncer.View()))
      ensures Shorter(old(pending), noncer.View(), pending, noncer.View())
    {
      var prior := pending[tx.sender][tx.nonce];
      if !Outbids(tx, prior, config.priceBump) {
        return ReplaceUnderpriced;
      }
      ReplacesPending(pending, queue, all.Known(), tx);
      ghost var known := all.Known();
      Exchange(prior, tx, isLocal);
      pending := With(pending, tx);
      assert all.Known() == known - {prior} + {tx};
      r := Added(true);
    }

    method AddToQueue(tx: Tx, local: bool, isLocal: bool) returns (r: AddResult)
      requires Valid() && tx !in all.Known() && tx.nonce < MAX_UINT64 && !HasNonce(pending, tx.sender, tx.nonce)
      modifies this`queue, this`locals, all, priced
      ensures Valid() && (r.Added? || r == ReplaceUnderpriced)
      ensures r.Added? ==> all.Known() == Remaining(old(queue), old(all.Known()), tx) + {tx}
      ensures r.Added? ==> (r.replaced <==> old(HasNonce(queue, tx.sender, tx.nonce)))
      ensures !r.Added? ==> all.Known() == old(all.Known())
      ensures r.Added? <==> !old(HasNonce(queue, tx.sender, tx.nonce)) ||
                            Outbids(tx, old(queue)[tx.sender][tx.nonce], config.priceBump)
      ensures queue == if r.Added? then With(old(queue), tx) else old(queue)
      ensures locals == if r.Added? && local then old(locals) + {tx.sender} else old(locals)
    {
      Settled(pending, queue, all.Known(), 0, tx.sender);
      ghost var none: Items := map[];
      assert none - {tx.nonce} == none;
      var replaced, ok := EnqueueTx(tx, isLocal, true, none);
      if !ok {
        Settled(pending, queue, all.Known(), tx.sender, 0);
        return ReplaceUnderpriced;
      }
      Settled(pending, queue, all.Known(), tx.sender, 0);
      if local && tx.sender !in locals {
        Adopt(tx.sender);
      }
      r := Added(replaced);
    }

    /** An account becomes local, and its remote transactions with it. */
    method Adopt(a: Address)
      requires Valid()
      modifies this`locals, all, priced
      ensures Valid() && locals == old(locals) + {a} && all.Known() == old(all.Known())
      ensures forall tx :: tx in all.remotes ==> tx.sender !in locals
    {
      locals := locals + {a};
      var migrated := all.RemoteToLocals(locals);
      priced.Removed(migrated, all.remotes);
    }

    /** Cuts an account's queue down and drops the rest of it. */
    method TrimQueue(a: Address, kept: Items, gone: Items)
      requires Consistent(a, map[]) && PartOf(kept, Get(queue, a)) && gone == Get(queue, a) - kept.Keys
      modifies this`queue, all
      ensures Consistent(a, map[]) && OnlyAt(old(queue), queue, a) && Get(queue, a) == kept
    {
      if a in queue {
        Swap(pending, queue, all.Known(), a, map[]);
        CutsLoose(queue, pending, all.Known(), a, kept, gone);
        queue := Store(queue, a, kept);
        Swap(queue, pending, all.Known(), a, gone);
        ForgetAll(a, gone);
      } else {
        assert kept == map[];
      }
    }

    /** Promotes a run of transactions that has left the queue. */
    method PromoteRun(a: Address, ready: seq<Tx>, ghost rest: Items)
      requires Consistent(a, rest) && Clear(queue, a, rest) && Clear(pending, a, rest)
      requires IsRun(rest, ready)
      modifies this`pending, all, priced, noncer
      ensures Consistent(0, map[]) && OnlyAt(old(pending), pending, a)
      ensures Get(pending, a) == Get(old(pending), a) + rest
      ensures forall b :: b != a ==> noncer.View().Of(b) == old(noncer.View()).Of(b) && (old(Interval(b)) ==> Interval(b))
      ensures ready == [] ==> pending == old(pending) && noncer.View().Of(a) == old(noncer.View()).Of(a)
      ensures ready != [] && old(Interval(a)) && ready[0].nonce == old(noncer.View()).Of(a) ==>
        Interval(a) && noncer.View().Of(a) == ready[0].nonce + |ready|
    {
      ghost var left := rest;
      RunStarts(pending, noncer.View(), a, rest, ready, state.nonces);
      for i := 0 to |ready|
        invariant Consistent(a, left) && Clear(queue, a, left)
        invariant RunMoved(old(pending), old(noncer.View()), pending, noncer.View(), a, rest, left, ready, i, state.nonces)
      {
        ghost var p, v := pending, noncer.View();
        RunNext(old(pending), old(noncer.View()), p, v, a, rest, left, ready, i, state.nonces);
        var _ := PromoteTx(ready[i], left);
        RunMoves(old(pending), old(noncer.View()), p, v, pending, noncer.View(), a, rest, left, ready, i, state.nonces);
        left := left - {ready[i].nonce};
      }
      RunDone(old(pending), old(noncer.View()), pending, noncer.View(), a, rest, left, ready, state.nonces);
      Settled(pending, queue, all.Known(), a, 0);
    }

    /** Drops what is too old from an account's queue. */
    method DropOld(a: Address) returns (dropped: nat)
      requires Consistent(a, map[])
      modifies this`queue, all
      ensures Consistent(a, map[]) && OnlyAt(old(queue), queue, a)
      ensures Get(queue, a) == From(Get(old(queue), a), NonceOf(state.nonces, a))
    {
      var list, start := Get(queue, a), NonceOf(state.nonces, a);
      SplitsAt(list, start);
      TrimQueue(a, From(list, start), Below(list, start));
      dropped := |Below(list, start)|;
    }

    /** Drops what the account cannot pay for, or no block can hold. */
    method DropUnpayable(a: Address) returns (dropped: nat)
      requires Consistent(a, map[])
      modifies this`queue, all
      ensures Consistent(a, map[]) && OnlyAt(old(queue), queue, a)
      ensures Get(queue, a) == Payable(Get(old(queue), a), BalanceOf(state, a), state.maxGas)
    {
      var list, funds := Get(queue, a), BalanceOf(state, a);
      SplitsByCost(list, funds, state.maxGas);
      TrimQueue(a, Payable(list, funds, state.maxGas), Unpayable(list, funds, state.maxGas));
      dropped := |Unpayable(list, funds, state.maxGas)|;
    }

    /** Takes the run of executable transactions out of an account's queue. Where the pending nonces are an interval that
        ends at `start`, the run begins there and leaves no gap-free successor behind. */
    method TakeReady(a: Address, start: nat, ghost low: nat) returns (ready: seq<Tx>, ghost rest: Items)
      requires Consistent(0, map[]) && a in queue && forall n :: n in Get(queue, a) ==> n >= low
      modifies this`queue
      ensures Consistent(a, rest) && Clear(queue, a, rest) && Clear(pending, a, rest) && OnlyAt(old(queue), queue, a)
      ensures PartOf(Get(queue, a), old(queue)[a]) && rest == old(queue)[a] - Get(queue, a).Keys
      ensures Runs(old(queue)[a], Get(queue, a), ready)
      ensures ready != [] <==> MayStart(old(queue)[a], start)
      ensures IsRun(rest, ready)
      ensures Contiguous(pending, low, start, a) ==>
        (ready != [] ==> ready[0].nonce == start) && start + |ready| !in Get(queue, a)
    {
      Settled(pending, queue, all.Known(), 0, a);
      ghost var list := queue[a];
      var kept, run := ReadyOf(queue[a], start);
      ready, rest := run, queue[a] - kept.Keys;
      ItemsOf(list, kept, ready);
      if Contiguous(pending, low, start, a) {
        assert Get(queue, a) == queue[a];
        StartsAtNonce(pending, queue, a, low, start, kept, ready);
      }
      Swap(pending, queue, all.Known(), a, map[]);
      CutsLoose(queue, pending, all.Known(), a, kept, rest);
      queue := Store(queue, a, kept);
      Swap(queue, pending, all.Known(), a, rest);
    }

    /** promoteExecutables for one account: too old and unpayable transactions go, the run of nonces from the lowest
        becomes pending if it may start, and of the rest the lowest stay queued, as many as allowed unless the account
        is local. While the account's pending nonces are the interval they should be, they stay so, and no executable
        transaction is left in the queue. */
    method PromoteAccount(a: Address) returns (ghost left: Items, ghost ready: seq<Tx>)
      requires Valid()
      modifies this`pending, this`queue, all, priced, noncer
      ensures Valid() && Kept(old(pending), old(noncer.View()))
      ensures OnlyAt(old(queue), queue, a) && OnlyAt(old(pending), pending, a)
      ensures Runs(Current(Get(old(queue), a), state, a), left, ready)
      ensures ready != [] <==> MayStart(Current(Get(old(queue), a), state, a), old(noncer.View()).Of(a))
      ensures Get(pending, a) == Get(old(pending), a) + (Current(Get(old(queue), a), state, a) - left.Keys)
      ensures LowPart(Get(queue, a), left)
      ensures |Get(queue, a)| == if a in locals then |left| else Min(|left|, config.accountQueue)
      ensures forall b :: b != a ==> noncer.View().Of(b) == old(noncer.View()).Of(b)
      ensures old(Interval(a)) ==> noncer.View().Of(a) !in Get(queue, a)
    {
      if a !in queue {
        left, ready := map[], [];
        NothingQueued(a);
      } else {
        left, ready := PromoteQueued(a);
      }
    }

    method PromoteQueued(a: Address) returns (ghost left: Items, ghost ready: seq<Tx>)
      requires Valid()
      modifies this`pending, this`queue, all, priced, noncer
      ensures Valid() && Kept(old(pending), old(noncer.View()))
      ensures OnlyAt(old(queue), queue, a) && OnlyAt(old(pending), pending, a)
      ensures Runs(Current(Get(old(queue), a), state, a), left, ready)
      ensures ready != [] <==> MayStart(Current(Get(old(queue), a), state, a), old(noncer.View()).Of(a))
      ensures Get(pending, a) == Get(old(pending), a) + (Current(Get(old(queue), a), state, a) - left.Keys)
      ensures LowPart(Get(queue, a), left)
      ensures |Get(queue, a)| == if a in locals then |left| else Min(|left|, config.accountQueue)
      ensures forall b :: b != a ==> noncer.View().Of(b) == old(noncer.View()).Of(b)
      ensures old(Interval(a)) ==> noncer.View().Of(a) !in Get(queue, a)
    {
      var dropped := PruneQueue(a);
      ghost var current := Get(queue, a);
      assert current == Current(Get(old(queue), a), state, a);
      var caps;
      caps, left, ready := PromoteCurrent(a);
      assert Runs(current, left, ready) && Get(pending, a) == Get(old(pending), a) + (current - left.Keys);
      priced.Removed(dropped + caps, all.remotes);
    }

    /** The rest of a promotion, once the queue holds only what the state admits. */
    method PromoteCurrent(a: Address) returns (dropped: nat, ghost left: Items, ghost ready: seq<Tx>)
      requires Consistent(0, map[]) && forall n :: n in Get(queue, a) ==> n >= NonceOf(state.nonces, a)
      modifies this`pending, this`queue, all, priced, noncer
      ensures Consistent(0, map[]) && Kept(old(pending), old(noncer.View()))
      ensures OnlyAt(old(queue), queue, a) && OnlyAt(old(pending), pending, a)
      ensures Runs(Get(old(queue), a), left, ready)
      ensures ready != [] <==> MayStart(Get(old(queue), a), old(noncer.View()).Of(a))
      ensures Get(pending, a) == Get(old(pending), a) + (Get(old(queue), a) - left.Keys)
      ensures LowPart(Get(queue, a), left)
      ensures |Get(queue, a)| == if a in locals then |left| else Min(|left|, config.accountQueue)
      ensures forall b :: b != a ==> noncer.View().Of(b) == old(noncer.View()).Of(b)
      ensures old(Interval(a)) ==> noncer.View().Of(a) !in Get(queue, a)
    {
      ready := PromoteReady(a);
      left := Get(queue, a);
      dropped := LimitQueue(a);
    }

    lemma NothingQueued(a: Address)
      ensures Current(map[], state, a) == map[] && Runs(map[], map[], []) && Get(pending, a) + (map[] - {}) == Get(pending, a)
    {
    }

    method PruneQueue(a: Address) returns (dropped: nat)
      requires Consistent(0, map[])
      modifies this`queue, all
      ensures Consistent(0, map[]) && OnlyAt(old(queue), queue, a)
      ensures Get(queue, a) == Current(Get(old(queue), a), state, a)
      ensures forall n :: n in Get(queue, a) ==> n >= NonceOf(state.nonces, a)
    {
      Settled(pending, queue, all.Known(), 0, a);
      var forwards := DropOld(a);
      var drops := DropUnpayable(a);
      dropped := forwards + drops;
      Settled(pending, queue, all.Known(), a, 0);
    }

    method LimitQueue(a: Address) returns (dropped: nat)
      requires Consistent(0, map[])
      modifies this`queue, all
      ensures Consistent(0, map[]) && OnlyAt(old(queue), queue, a) && LowPart(Get(queue, a), Get(old(queue), a))
      ensures |Get(queue, a)| ==
        if a in locals then |Get(old(queue), a)| else Min(|Get(old(queue), a)|, config.accountQueue)
    {
      if a in locals {
        return 0;
      }
      Settled(pending, queue, all.Known(), 0, a);
      dropped := CapQueue(a);
      Settled(pending, queue, all.Known(), a, 0);
    }

    method PromoteReady(a: Address) returns (ghost ready: seq<Tx>)
      requires Consistent(0, map[]) && forall n :: n in Get(queue, a) ==> n >= NonceOf(state.nonces, a)
      modifies this`pending, this`queue, all, priced, noncer
      ensures Consistent(0, map[]) && Kept(old(pending), old(noncer.View()))
      ensures OnlyAt(old(queue), queue, a) && OnlyAt(old(pending), pending, a)
      ensures Runs(Get(old(queue), a), Get(queue, a), ready)
      ensures ready != [] <==> MayStart(Get(old(queue), a), old(noncer.View()).Of(a))
      ensures Get(pending, a) == Get(old(pending), a) + (Get(old(queue), a) - Get(queue, a).Keys)
      ensures forall b :: b != a ==> noncer.View().Of(b) == old(noncer.View()).Of(b)
      ensures old(Interval(a)) ==> noncer.View().Of(a) !in Get(queue, a)
    {
      hide Partition, Contiguous, IsRun, Clear;
      ready := [];
      if a !in queue {
        assert Runs(map[], map[], ready);
        return;
      }
      var start := noncer.Get(a);
      var run, rest := TakeReady(a, start, NonceOf(state.nonces, a));
      ready := run;
      assert old(Interval(a)) ==> start + |run| !in Get(queue, a) && (run != [] ==> run[0].nonce == start);
      PromoteRun(a, run, rest);
      assert old(Interval(a)) ==> noncer.View().Of(a) == start + |run|;
    }

    /** Keeps the lowest nonces of an account's queue. */
    method CapQueue(a: Address) returns (dropped: nat)
      requires Consistent(a, map[])
      modifies this`queue, all
      ensures Consistent(a, map[]) && OnlyAt(old(queue), queue, a)
      ensures LowPart(Get(queue, a), Get(old(queue), a))
      ensures |Get(queue, a)| == Min(|Get(old(queue), a)|, config.accountQueue)
    {
      var list := Get(queue, a);
      var kept, caps := CapOf(list, config.accountQueue);
      TrimQueue(a, kept, list - kept.Keys);
      dropped := |caps|;
    }

    /** promoteExecutables. Each account's pending list gains exactly what its queue has to give. */
    method PromoteExecutables(accounts: seq<Address>)
      requires Valid()
      modifies this`pending, this`queue, all, priced, noncer
      ensures Valid() && Promotion(old(pending), old(queue), old(noncer.View()), accounts)
    {
      hide Consistent, Promoted;
      NonePromoted(pending, queue, noncer.View(), state, locals, config.accountQueue);
      for i := 0 to |accounts|
        invariant Valid() && Promotion(old(pending), old(queue), old(noncer.View()), accounts[..i])
      {
        ghost var p, q, v := pending, queue, noncer.View();
        PromoteOne(accounts[i]);
        PromotedStep(old(pending), old(queue), old(noncer.View()), p, q, v, pending, queue, noncer.View(),
                     accounts[..i], accounts[i], state, locals, config.accountQueue);
        assert accounts[..i + 1] == accounts[..i] + [accounts[i]];
      }
      assert accounts[..|accounts|] == accounts;
    }

    method PromoteOne(a: Address)
      requires Valid()
      modifies this`pending, this`queue, all, priced, noncer
      ensures Valid()
      ensures OnePromoted(old(pending), old(queue), old(noncer.View()), pending, queue, noncer.View(), a, state, locals,
                          config.accountQueue)
    {
      var left, ready := PromoteAccount(a);
      assert PartOf(Get(queue, a), Current(Get(old(queue), a), state, a));
      PromotesRun(Get(old(queue), a), old(noncer.View()).Of(a), state, a, left, ready);
    }

    /** The accounts have been through promotion since the lists and the virtual nonces were these. */
    ghost predicate Promotion(p: Accounts, q: Accounts, v: Nonces, accounts: seq<Address>)
      reads this`pending, this`queue, this`state, this`locals, this`noncer, noncer
    {
      Promoted(p, q, v, pending, queue, noncer.View(), accounts, state, locals, config.accountQueue)
    }

    /** Cuts an account's pending list down and drops the rest of it. */
    method TrimPending(a: Address, kept: Items, gone: Items)
      requires Consistent(0, map[]) && PartOf(kept, Get(pending, a)) && gone == Get(pending, a) - kept.Keys
      modifies this`pending, all
      ensures Consistent(0, map[]) && OnlyAt(old(pending), pending, a) && Get(pending, a) == kept
      ensures Forgotten(old(all.Known()), all.Known(), gone)
    {
      if a in pending {
        Settled(pending, queue, all.Known(), 0, a);
        CutsLoose(pending, queue, all.Known(), a, kept, gone);
        pending := Store(pending, a, kept);
        ForgetAll(a, gone);
        Settled(pending, queue, all.Known(), a, 0);
      }
    }

    /** Cuts an account's pending list down and sends the rest back to the queue, where not one is refused. */
    method Demote(a: Address, kept: Items, gone: Items)
      requires Consistent(0, map[]) && PartOf(kept, Get(pending, a)) && gone == Get(pending, a) - kept.Keys
      modifies this`pending, this`queue, all, priced
      ensures Consistent(0, map[]) && OnlyAt(old(pending), pending, a) && Get(pending, a) == kept
      ensures all.Known() == old(all.Known())
      ensures forall b, n :: HasNonce(queue, b, n) <==> old(HasNonce(queue, b, n)) || (b == a && n in gone)
    {
      if a in pending {
        Settled(pending, queue, all.Known(), 0, a);
        CutsLoose(pending, queue, all.Known(), a, kept, gone);
        pending := Store(pending, a, kept);
        Requeue(a, gone);
        Settled(pending, queue, all.Known(), a, 0);
      }
    }

    method DemoteAccount(a: Address)
      requires Valid()
      modifies this`pending, this`queue, all, priced
      ensures Valid() && OnlyAt(old(pending), pending, a) && Get(pending, a) == Remains(Get(old(pending), a), state, a)
      ensures OnlyStaleLost(old(all.Known()), all.Known(), state)
    {
      TrimOldPending(a);
      ghost var middle := all.Known();
      TrimUnpayable(a);
      assert OnlyStaleLost(middle, all.Known(), state);
      FrontGap(a);
    }

    /** Sends a list back whose first nonce is not the next one. */
    method FrontGap(a: Address)
      requires Consistent(0, map[])
      modifies this`pending, this`queue, all, priced
      ensures Consistent(0, map[]) && OnlyAt(old(pending), pending, a) && all.Known() == old(all.Known())
      ensures Get(pending, a) == if NonceOf(state.nonces, a) in Get(old(pending), a) then Get(old(pending), a) else map[]
    {
      var list := Get(pending, a);
      if list != map[] && NonceOf(state.nonces, a) !in list {
        Demote(a, map[], list);
      }
    }

    method TrimOldPending(a: Address)
      requires Consistent(0, map[])
      modifies this`pending, all
      ensures Consistent(0, map[]) && OnlyAt(old(pending), pending, a)
      ensures Get(pending, a) == From(Get(old(pending), a), NonceOf(state.nonces, a))
      ensures OnlyStaleLost(old(all.Known()), all.Known(), state)
    {
      var list, nonce := Get(pending, a), NonceOf(state.nonces, a);
      SplitsAt(list, nonce);
      assert Owned(list, a);
      TrimPending(a, From(list, nonce), Below(list, nonce));
    }

    /** Drops what cannot be paid for, and sends back what comes after it. */
    method TrimUnpayable(a: Address)
      requires Consistent(0, map[])
      modifies this`pending, this`queue, all, priced
      ensures Consistent(0, map[]) && OnlyAt(old(pending), pending, a)
      ensures Get(pending, a) == Executable(Get(old(pending), a), BalanceOf(state, a), state.maxGas)
      ensures OnlyStaleLost(old(all.Known()), all.Known(), state)
    {
      var list, funds := Get(pending, a), BalanceOf(state, a);
      SplitsByCost(list, funds, state.maxGas);
      AreExecutable(list, funds, state.maxGas);
      assert Owned(list, a);
      CutTwice(a, Unpayable(list, funds, state.maxGas), Payable(list, funds, state.maxGas),
               Executable(list, funds, state.maxGas));
    }

    method CutTwice(a: Address, dropped: Items, payable: Items, executable: Items)
      requires Consistent(0, map[]) && PartOf(payable, Get(pending, a)) && PartOf(executable, payable)
      requires dropped == Get(pending, a) - payable.Keys
      modifies this`pending, this`queue, all, priced
      ensures Consistent(0, map[]) && OnlyAt(old(pending), pending, a) && Get(pending, a) == executable
      ensures Forgotten(old(all.Known()), all.Known(), dropped)
    {
      TrimPending(a, payable, dropped);
      Demote(a, executable, payable - executable.Keys);
    }

    /** demoteUnexecutables. */
    method DemoteUnexecutables()
      requires Valid()
      modifies this`pending, this`queue, all, priced
      ensures Valid() && OnlyStaleLost(old(all.Known()), all.Known(), state)
      ensures forall a :: Get(pending, a) == Remains(Get(old(pending), a), state, a)
    {
      hide Consistent;
      var left := pending.Keys;
      forall a | a !in pending
        ensures Get(pending, a) == Remains(Get(pending, a), state, a)
      {
        RemainsAdmitted(map[], state, a);
      }
      while left != {}
        invariant Valid() && OnlyStaleLost(old(all.Known()), all.Known(), state)
        invariant forall a {:trigger Get(pending, a)} ::
          Get(pending, a) == if a in left then Get(old(pending), a) else Remains(Get(old(pending), a), state, a)
        decreases left
      {
        var a :| a in left;
        DemoteAccount(a);
        left := left - {a};
      }
    }

    method DemoteAll()
      requires Valid()
      modifies this`pending, this`queue, all, priced
      ensures Valid() && forall a :: Admitted(Get(pending, a), state, a)
      ensures forall a :: Get(pending, a) == Remains(Get(old(pending), a), state, a)
    {
      DemoteUnexecutables();
      forall a
        ensures Admitted(Get(pending, a), state, a)
      {
        RemainsAdmitted(Get(old(pending), a), state, a);
      }
    }

    /** Drops the last transaction of a pending list and lowers the virtual nonce to it. */
    method DropTop(a: Address)
      requires Consistent(0, map[]) && a in pending
      modifies this`pending, all, priced, noncer
      ensures Consistent(0, map[]) && OnlyAt(old(pending), pending, a)
      ensures |Get(pending, a)| == |old(pending)[a]| - 1 && Count(pending) == old(Count(pending)) - 1
      ensures LowPart(Get(pending, a), old(pending)[a])
      ensures Kept(old(pending), old(noncer.View()))
    {
      var top := CutTopOff(a);
      noncer.SetIfLower(a, top);
      priced.Removed(1, all.remotes);
      CutKeeps(old(pending), old(noncer.View()), noncer.View(), a, top, state.nonces);
    }

    method CutTopOff(a: Address) returns (top: nat)
      requires Consistent(0, map[]) && a in pending
      modifies this`pending, all
      ensures Consistent(0, map[]) && OnlyAt(old(pending), pending, a)
      ensures |Get(pending, a)| == |old(pending)[a]| - 1 && Count(pending) == old(Count(pending)) - 1
      ensures LowPart(Get(pending, a), old(pending)[a])
      ensures top in old(pending)[a] && pending == Store(old(pending), a, Below(old(pending)[a], top))
    {
      var list := pending[a];
      var kept, caps := CapOf(list, |list| - 1);
      DropsTop(list, kept, caps);
      top := caps[0].nonce;
      TrimPending(a, kept, list - kept.Keys);
      CountOnlyAt(old(pending), pending, a);
      SameAccounts(old(pending), pending, a);
    }

    /** Every listed account has the same number of pending transactions. */
    ghost predicate Level(accounts: seq<Address>, size: nat)
      reads this`pending
    {
      forall a :: a in accounts ==> |Get(pending, a)| == size
    }

    /** One round: each listed account loses its last pending transaction. The counter follows. */
    method DropTops(accounts: seq<Address>, total: nat, ghost size: nat) returns (total': nat)
      requires Consistent(0, map[]) && Distinct(accounts) && Level(accounts, size) && size > 0
      requires total == Count(pending)
      modifies this`pending, all, priced, noncer
      ensures Consistent(0, map[]) && Level(accounts, size - 1) && total' == Count(pending)
      ensures total' + |accounts| == total
      ensures Shrunk(old(pending), pending, accounts)
      ensures Kept(old(pending), old(noncer.View()))
    {
      total' := total;
      for i := 0 to |accounts|
        invariant Consistent(0, map[]) && total' == Count(pending) && total' + i == total
        invariant HalfLevel(pending, accounts, i, size) && Shrunk(old(pending), pending, accounts)
        invariant Kept(old(pending), old(noncer.View()))
      {
        ghost var before := pending;
        assert |Get(pending, accounts[i])| == size;
        DropTop(accounts[i]);
        StaysShrunk(old(pending), before, pending, accounts, accounts[i]);
        HalfLevelStep(before, pending, accounts, i, size);
        total' := total' - 1;
      }
    }

    /** Levels accounts of equal size down to a threshold, or until the pool is small enough. */
    method LevelDown(accounts: seq<Address>, threshold: nat, total: nat, ghost size: nat)
      returns (total': nat, ghost size': nat)
      requires Consistent(0, map[]) && accounts != [] && Distinct(accounts) && Level(accounts, size) && threshold <= size
      requires total == Count(pending)
      modifies this`pending, all, priced, noncer
      ensures Consistent(0, map[]) && threshold <= size' <= size && Level(accounts, size') && total' == Count(pending)
      ensures total' <= config.globalSlots || size' == threshold
      ensures total' == total || total' + |accounts| > config.globalSlots
      ensures Shrunk(old(pending), pending, accounts)
      ensures Kept(old(pending), old(noncer.View()))
    {
      hide Consistent;
      total', size' := total, size;
      while total' > config.globalSlots && |Get(pending, accounts[|accounts| - 1])| > threshold
        invariant Consistent(0, map[]) && threshold <= size' <= size && Level(accounts, size') && total' == Count(pending)
        invariant Shrunk(old(pending), pending, accounts)
        invariant total' == total || total' + |accounts| > config.globalSlots
        invariant Kept(old(pending), old(noncer.View()))
        decreases total'
      {
        ghost var before := pending;
        total' := DropTops(accounts, total', size');
        ShrunkTwice(old(pending), before, pending, accounts);
        size' := size' - 1;
      }
    }

    ghost predicate Truncating(before: Accounts, spammers: set<Address>, offenders: seq<Address>, total: nat, size: nat)
      reads this`pending, this`locals
    {
      Halfway(before, pending, locals, config, spammers, offenders, total, size)
    }

    /** truncatePending. The counter is the true total throughout. At the end the pool holds no more than allowed, or no
        remote account more than its share; it is cut by no more than one round too many, and not at all when it was
        small enough; local accounts are untouched, no account is cut below its share, and what is left of a list is its
        lowest nonces. */
    method TruncatePending()
      requires Valid()
      modifies this`pending, all, priced, noncer
      ensures Valid() && Kept(old(pending), old(noncer.View()))
      ensures Truncated(old(pending)) && (old(Count(pending)) <= config.globalSlots ==> pending == old(pending))
    {
      hide Consistent;
      var total: nat := Tally(pending);
      if total > config.globalSlots {
        TruncateLarge(total);
      }
    }

    method TruncateLarge(total: nat)
      requires Consistent(0, map[]) && total == Count(pending) > config.globalSlots
      modifies this`pending, all, priced, noncer
      ensures Consistent(0, map[]) && Kept(old(pending), old(noncer.View()))
      ensures Truncated(old(pending))
    {
      hide Consistent;
      var spammers := set a | a in pending && a !in locals && |pending[a]| > config.accountSlots;
      Starting(spammers, total);
      var left, offenders, size, rest := LevelOffenders(spammers, total);
      if left > config.globalSlots && |offenders| > 0 {
        LevelRest(old(pending), offenders, left, size);
      } else {
        SmallEnough(old(pending), rest, offenders, left, size);
      }
    }

    lemma Starting(spammers: set<Address>, total: nat)
      requires total == Count(pending) > config.globalSlots
      requires spammers == set a | a in pending && a !in locals && |pending[a]| > config.accountSlots
      ensures Truncating(pending, spammers, [], total, 0)
    {
      Sums.SubsetSize(spammers, pending.Keys);
    }

    lemma SmallEnough(before: Accounts, spammers: set<Address>, offenders: seq<Address>, total: nat, size: nat)
      requires Truncating(before, spammers, offenders, total, size)
      requires total > config.globalSlots ==> spammers == {} && offenders == []
      ensures Truncated(before)
    {
    }

    /** Takes on the largest account at a time until the pool is small enough or no spammer is left. */
    method LevelOffenders(start: set<Address>, total: nat)
      returns (total': nat, offenders: seq<Address>, ghost size: nat, ghost left: set<Address>)
      requires Consistent(0, map[]) && Truncating(pending, start, [], total, 0)
      modifies this`pending, all, priced, noncer
      ensures Consistent(0, map[]) && Kept(old(pending), old(noncer.View()))
      ensures Truncating(old(pending), left, offenders, total', size) && (total' > config.globalSlots ==> left == {})
    {
      hide Consistent;
      var spammers := start;
      total', offenders, size := total, [], 0;
      while total' > config.globalSlots && spammers != {}
        invariant Consistent(0, map[]) && Truncating(old(pending), spammers, offenders, total', size)
        invariant Kept(old(pending), old(noncer.View()))
        decreases spammers
      {
        var offender := Largest(spammers, pending);
        total', size := LevelTo(old(pending), spammers, offenders, total', size, offender);
        offenders, spammers := offenders + [offender], spammers - {offender};
      }
      left := spammers;
    }

    ghost predicate Truncated(before: Accounts)
      reads this`pending, this`locals
    {
      && (Count(pending) <= config.globalSlots ||
          forall a :: a !in locals ==> |Get(pending, a)| <= config.accountSlots)
      && (Count(before) > config.globalSlots ==> Count(pending) + |before| > config.globalSlots)
      && (forall a :: a in locals ==> Get(pending, a) == Get(before, a))
      && (forall a {:trigger LowPart(Get(pending, a), Get(before, a))} :: LowPart(Get(pending, a), Get(before, a)))
      && (forall a :: |Get(pending, a)| >= config.accountSlots || Get(pending, a) == Get(before, a))
    }

    /** If that was not enough, all offenders are levelled down to their share. */
    method LevelRest(ghost before: Accounts, offenders: seq<Address>, total: nat, ghost size: nat)
      requires Consistent(0, map[]) && Truncating(before, {}, offenders, total, size)
      requires total > config.globalSlots && offenders != []
      modifies this`pending, all, priced, noncer
      ensures Consistent(0, map[]) && Truncated(before)
      ensures Kept(old(pending), old(noncer.View()))
    {
      hide Consistent;
      ghost var middle := pending;
      assert offenders[0] in offenders;
      var _, least := LevelDown(offenders, config.accountSlots, total, size);
      ShrunkTwice(before, middle, pending, offenders);
      assert forall a :: a in offenders ==> |Get(pending, a)| == least;
    }

    /** The next offender joins, and those before it are levelled down to its size. */
    method LevelTo(ghost before: Accounts, ghost spammers: set<Address>, offenders: seq<Address>, total: nat,
                   ghost size: nat, offender: Address)
      returns (total': nat, ghost size': nat)
      requires Consistent(0, map[]) && Truncating(before, spammers, offenders, total, size)
      requires total > config.globalSlots && offender in spammers
      requires forall a :: a in spammers ==> |Get(pending, a)| <= |Get(pending, offender)|
      modifies this`pending, all, priced, noncer
      ensures Consistent(0, map[])
      ensures Truncating(before, spammers - {offender}, offenders + [offender], total', size')
      ensures Kept(old(pending), old(noncer.View()))
    {
      total', size' := total, |Get(pending, offender)|;
      ghost var middle := pending;
      if |offenders| > 0 {
        total', size' := LevelDown(offenders, |Get(pending, offender)|, total, size);
      }
      OffenderJoins(before, middle, pending, locals, config, spammers, offenders, total, total', size, size', offender);
    }

    /** Removes transactions of one account from the queue. Each of them is found there and not among the pending. */
    method RemoveQueued(a: Address, txs: seq<Tx>)
      requires Consistent(0, map[])
      requires forall i :: 0 <= i < |txs| ==> Holds(Get(queue, a), txs[i])
      requires forall i, j :: 0 <= i < j < |txs| ==> txs[i].nonce != txs[j].nonce
      modifies this`pending, this`queue, all, priced, noncer
      ensures Consistent(0, map[]) && pending == old(pending) && OnlyAt(old(queue), queue, a)
      ensures Get(queue, a) == Get(old(queue), a) - NoncesOf(txs)
      ensures Count(queue) == old(Count(queue)) - |txs|
      ensures SameNonces(old(noncer.View()), noncer.View())
    {
      for i := 0 to |txs|
        invariant Consistent(0, map[]) && pending == old(pending) && OnlyAt(old(queue), queue, a)
        invariant Removing(Get(old(queue), a), Get(queue, a), txs, i)
        invariant Count(queue) == old(Count(queue)) - i
        invariant SameNonces(old(noncer.View()), noncer.View())
      {
        RemovingStep(Get(old(queue), a), Get(queue, a), txs, i);
        RemoveOneQueued(a, txs[i]);
      }
      assert txs[..|txs|] == txs;
    }

    method RemoveOneQueued(a: Address, tx: Tx)
      requires Consistent(0, map[]) && Holds(Get(queue, a), tx)
      modifies this`pending, this`queue, all, priced, noncer
      ensures Consistent(0, map[]) && pending == old(pending) && OnlyAt(old(queue), queue, a)
      ensures Get(queue, a) == Get(old(queue), a) - {tx.nonce} && Count(queue) == old(Count(queue)) - 1
      ensures SameNonces(old(noncer.View()), noncer.View())
    {
      TakesOne(queue, a, tx);
      RemoveTx(tx, true);
    }

    /** Removes the last transactions of an account's queue, highest nonce first. */
    method CutLast(a: Address, drop: nat)
      requires Consistent(0, map[]) && drop < |Get(queue, a)|
      modifies this`pending, this`queue, all, priced, noncer
      ensures Consistent(0, map[]) && pending == old(pending) && OnlyAt(old(queue), queue, a)
      ensures LowPart(Get(queue, a), Get(old(queue), a)) && Count(queue) == old(Count(queue)) - drop
      ensures SameNonces(old(noncer.View()), noncer.View())
    {
      var txs := FlattenOf(Get(queue, a));
      CutDownStarts(Get(queue, a), txs);
      CutFlat(a, txs, drop);
    }

    method CutFlat(a: Address, txs: seq<Tx>, drop: nat)
      requires Consistent(0, map[]) && drop < |txs| && CutDown(Get(queue, a), Get(queue, a), txs, |txs|)
      modifies this`pending, this`queue, all, priced, noncer
      ensures Consistent(0, map[]) && pending == old(pending) && OnlyAt(old(queue), queue, a)
      ensures LowPart(Get(queue, a), Get(old(queue), a)) && Count(queue) == old(Count(queue)) - drop
      ensures SameNonces(old(noncer.View()), noncer.View())
    {
      hide Consistent, CutDown, LowPart, Count;
      var i, left := |txs|, drop;
      while i > 0 && left > 0
        invariant i == |txs| - (drop - left) && CutDown(Get(old(queue), a), Get(queue, a), txs, i)
        invariant Consistent(0, map[]) && pending == old(pending) && OnlyAt(old(queue), queue, a)
        invariant Count(queue) == old(Count(queue)) - (drop - left)
        invariant SameNonces(old(noncer.View()), noncer.View())
      {
        CutDownStep(Get(old(queue), a), Get(queue, a), txs, i);
        ghost var less := Get(queue, a) - {txs[i - 1].nonce};
        RemoveOneQueued(a, txs[i - 1]);
        assert Get(queue, a) == less;
        i, left := i - 1, left - 1;
      }
      CutDownLow(Get(old(queue), a), Get(queue, a), txs, i);
    }

    /** truncateQueue, whatever the order of the heartbeats. It ends with no more queued than allowed, or with local
        queues only; it removes no more than it has to, and touches neither local queues nor anything pending. */
    method TruncateQueue()
      requires Valid()
      modifies this`pending, this`queue, all, priced, noncer
      ensures Valid() && pending == old(pending) && SameNonces(old(noncer.View()), noncer.View())
      ensures Count(queue) <= config.globalQueue || forall a :: a in queue ==> a in locals
      ensures if old(Count(queue)) <= config.globalQueue then queue == old(queue) else Count(queue) >= config.globalQueue
      ensures forall a :: a in locals ==> Get(queue, a) == Get(old(queue), a)
      ensures forall a :: LowPart(Get(queue, a), Get(old(queue), a))
    {
      hide Consistent;
      var queued := Tally(queue);
      if queued <= config.globalQueue {
        return;
      }
      var addresses := set a | a in queue && a !in locals;
      var drop: nat := queued - config.globalQueue;
      while drop > 0 && addresses != {}
        invariant Consistent(0, map[]) && pending == old(pending) && SameNonces(old(noncer.View()), noncer.View())
        invariant Count(queue) == config.globalQueue + drop
        invariant Emptied(old(queue), queue, addresses, locals, drop > 0)
        decreases addresses
      {
        var a :| a in addresses;
        ghost var before := queue;
        drop := DropFrom(a, drop);
        EmptiesOne(old(queue), before, queue, addresses, locals, a, drop > 0);
        addresses := addresses - {a};
      }
    }

    /** A whole queue goes, or as many as have to, the highest nonces first. */
    method DropFrom(a: Address, drop: nat) returns (drop': nat)
      requires Consistent(0, map[])
      modifies this`pending, this`queue, all, priced, noncer
      ensures Consistent(0, map[]) && WellKept(queue) && pending == old(pending) && OnlyAt(old(queue), queue, a)
      ensures LowPart(Get(queue, a), Get(old(queue), a)) && (drop' > 0 ==> Get(queue, a) == map[])
      ensures Count(queue) - drop' == old(Count(queue)) - drop
      ensures SameNonces(old(noncer.View()), noncer.View())
    {
      if |Get(queue, a)| <= drop {
        drop' := ClearQueue(a, drop);
      } else {
        CutLast(a, drop);
        drop' := 0;
      }
    }

    method ClearQueue(a: Address, drop: nat) returns (drop': nat)
      requires Consistent(0, map[]) && |Get(queue, a)| <= drop
      modifies this`pending, this`queue, all, priced, noncer
      ensures Consistent(0, map[]) && pending == old(pending) && OnlyAt(old(queue), queue, a)
      ensures Get(queue, a) == map[] && drop' == drop - |Get(old(queue), a)|
      ensures Count(queue) - drop' == old(Count(queue)) - drop
      ensures SameNonces(old(noncer.View()), noncer.View())
    {
      var txs := FlattenOf(Get(queue, a));
      drop' := drop - |Get(queue, a)|;
      AllNonces(txs, Get(queue, a));
      assert forall i :: 0 <= i < |txs| ==> txs[i] in txs;
      RemoveQueued(a, txs);
    }

    /** The pool moves to a new head: new state, fresh virtual nonces, and the transactions of blocks that have left the
        chain come back, one after the other. As long as there is room the lists are exactly what that makes of them; in a
        full pool they may be cut short. */
    method Reset(newState: State, reinject: seq<Offer>, gasPrice: nat)
      requires Valid()
      modifies this, all, priced, noncer
      ensures Valid() && state == newState && fresh(noncer) && locals == old(locals)
      ensures Shorter(old(pending), Nonces(map[], newState.nonces), pending, noncer.View())
      ensures var t := Terms(newState, old(locals), gasPrice, config);
        Roomy(old(Contents()), reinject, t) ==> Contents() == JoinedAll(old(Contents()), reinject, t)
      ensures all.Known() <= old(all.Known()) + Offered(reinject)
    {
      ghost var t := Terms(newState, locals, gasPrice, config);
      state := newState;
      noncer := new TxNoncer(newState.nonces);
      for i := 0 to |reinject|
        invariant Valid() && state == newState && fresh(noncer) && locals == old(locals)
        invariant Shorter(old(pending), Nonces(map[], newState.nonces), pending, noncer.View())
        invariant all.Known() <= old(all.Known()) + Offered(reinject)
        invariant Roomy(old(Contents()), reinject, t) ==> Contents() == JoinedAll(old(Contents()), reinject[..i], t)
      {
        ghost var p, v := pending, noncer.View();
        JoinsNext(old(Contents()), reinject, t, i);
        assert reinject[i] in reinject;
        var _, _ := Add(reinject[i].tx, false, reinject[i].basic, gasPrice);
        ShorterTwice(old(pending), Nonces(map[], newState.nonces), p, v, pending, noncer.View());
      }
      assert reinject[..|reinject|] == reinject;
    }

    /** Sets every virtual nonce past the last pending one. Since demotion has only looked for a gap in front, that makes
        an account's pending nonces an interval exactly when there is no gap further in. */
    method UpdateNonces()
      requires Valid() && forall a :: Admitted(Get(pending, a), state, a)
      modifies noncer
      ensures Valid() && forall a :: Interval(a) <==> Gapless(Get(pending, a), NonceOf(state.nonces, a))
    {
      var nonces: map<Address, nat> := map[];
      var left := pending.Keys;
      while left != {}
        invariant forall a :: a in nonces <==> a in pending && a !in left
        invariant forall a :: a in nonces ==> IsNext(pending[a], nonces[a])
        invariant left <= pending.Keys
        decreases left
      {
        var a :| a in left;
        var last := LastOf(pending[a]);
        nonces := nonces[a := last.nonce + 1];
        left := left - {a};
      }
      noncer.SetAll(nonces);
      forall a
        ensures Interval(a) <==> Gapless(Get(pending, a), NonceOf(state.nonces, a))
      {
        NextDecides(pending, a, NonceOf(state.nonces, a), noncer.View().Of(a));
      }
    }

    /** The part of a reset that looks at every account: all queues are promoted, all pending lists demoted, and the
        virtual nonces set anew. */
    method Rebuild(baseFee: Option<nat>)
      requires Valid()
      modifies this`pending, this`queue, all, priced, noncer
      ensures Valid()
      ensures forall a :: Interval(a) <==> Mended(Get(old(pending), a), Get(old(queue), a), old(noncer.View()).Of(a), state, a)
    {
      hide Consistent;
      var accounts := AddressesOf(queue);
      PromoteExecutables(accounts);
      ghost var promoted := pending;
      AllGive(old(pending), old(queue), old(noncer.View()), pending, queue, noncer.View(), accounts, state, locals,
              config.accountQueue);
      DemoteAll();
      Reprice(baseFee);
      UpdateNonces();
      forall a
        ensures Interval(a) <==> Mended(Get(old(pending), a), Get(old(queue), a), old(noncer.View()).Of(a), state, a)
      {
        assert Get(pending, a) == Remains(Get(promoted, a), state, a);
      }
    }

    method Reprice(baseFee: Option<nat>)
      requires Valid()
      modifies priced
      ensures Valid()
    {
      if baseFee.Some? {
        priced.SetBaseFee(baseFee.value, all.remotes);
      }
    }

    /** A reset as a whole. Lists `p` and `q` are what it found once the reinjected transactions were in: as long as there
        is room exactly what joining makes of the lists there were, and in a full pool pending lists at most cut short. An
        account whose pending nonces were an interval has one again, exactly unless its state nonce went down and that
        opens a gap in them. */
    method Resettle(head: Head) returns (ghost p: Accounts, ghost q: Accounts)
      requires Valid()
      modifies this, all, priced, noncer
      ensures Valid() && (noncer == old(noncer) || fresh(noncer))
      ensures state == if head.available then head.state else old(state)
      ensures !head.available ==> p == old(pending) && q == old(queue)
      ensures head.available ==> CutShort(old(pending), p)
      ensures forall tx :: InLists(p, tx) || InLists(q, tx) ==>
        tx in old(all.Known()) || (head.available && tx in Offered(head.reinject))
      ensures var t := TermsOf(head, old(locals), config);
        head.available && Roomy(old(Contents()), head.reinject, t) ==>
          var joined := JoinedAll(old(Contents()), head.reinject, t);
          p == joined.pending && q == joined.queue
      ensures forall a :: old(Interval(a)) ==>
        (Interval(a) <==> !GapOpens(Get(p, a), Get(q, a), NonceOf(old(state).nonces, a), state, a))
    {
      if head.available {
        Reset(head.state, head.reinject, head.gasPrice);
      }
      p, q := pending, queue;
      ghost var v := noncer.View();
      Rebuild(head.baseFee);
      forall a | old(Interval(a))
        ensures Interval(a) <==> !GapOpens(Get(p, a), Get(q, a), NonceOf(old(state).nonces, a), state, a)
      {
        SettlesAccount(old(pending), old(noncer.View()), old(state).nonces, p, q, v, head.available, state, a);
      }
    }

    /** A new head is taken in, or the accounts that have changed are promoted. */
    method Refresh(reset: Option<Head>, dirty: seq<Address>)
      requires Valid()
      modifies this, all, priced, noncer
      ensures Valid() && (noncer == old(noncer) || fresh(noncer))
      ensures state == if reset.Some? && reset.value.available then reset.value.state else old(state)
      ensures forall a :: old(Interval(a)) && NonceOf(state.nonces, a) >= NonceOf(old(state).nonces, a) ==> Interval(a)
      ensures reset.Some? ==> forall a ::
        old(Interval(a)) && Heals(old(Contents()), reset.value, TermsOf(reset.value, old(locals), config),
                                  NonceOf(old(state).nonces, a), a) ==>
          Interval(a)
    {
      hide Consistent;
      if reset.Some? {
        var _, _ := Resettle(reset.value);
      } else {
        PromoteExecutables(dirty);
      }
    }

    method Truncate()
      requires Valid()
      modifies this`pending, this`queue, all, priced, noncer
      ensures Valid() && Kept(old(pending), old(noncer.View()))
      ensures Count(pending) <= config.globalSlots ||
              forall a :: a !in locals ==> |Get(pending, a)| <= config.accountSlots
      ensures Count(queue) <= config.globalQueue || forall a :: a in queue ==> a in locals
    {
      hide Consistent;
      TruncatePending();
      ghost var v := noncer.View();
      TruncateQueue();
      KeepsSame(pending, v, noncer.View(), state.nonces);
      KeepsTwice(old(pending), old(noncer.View()), pending, v, pending, noncer.View(), state.nonces);
    }

    /** runReorg. Both size limits hold at the end. Pending intervals stay intervals, except of accounts whose state nonce
        a new head has put back; of those too, if the head and the reinjected transactions open no gap. */
    method RunReorg(reset: Option<Head>, dirty: seq<Address>)
      requires Valid()
      modifies this, all, priced, noncer
      ensures Valid() && (noncer == old(noncer) || fresh(noncer))
      ensures state == if reset.Some? && reset.value.available then reset.value.state else old(state)
      ensures Count(pending) <= config.globalSlots ||
              forall a :: a !in locals ==> |Get(pending, a)| <= config.accountSlots
      ensures Count(queue) <= config.globalQueue || forall a :: a in queue ==> a in locals
      ensures forall a :: old(Interval(a)) && NonceOf(state.nonces, a) >= NonceOf(old(state).nonces, a) ==> Interval(a)
      ensures reset.Some? ==> forall a ::
        old(Interval(a)) && Heals(old(Contents()), reset.value, TermsOf(reset.value, old(locals), config),
                                  NonceOf(old(state).nonces, a), a) ==>
          Interval(a)
    {
      hide Consistent;
      Refresh(reset, dirty);
      Truncate();
      changes := 0;
    }

    /** Any run of the pool. Pending nonces stay intervals, through any number of resets, for every account whose state
        nonce never goes down. */
    method Run(events: seq<Event>)
      requires Valid()
      modifies this, all, priced, noncer
      ensures Valid()
      ensures forall a :: old(Interval(a)) && Rising(events, NonceOf(old(state).nonces, a), a) ==> Interval(a)
      decreases |events|
    {
      if events != [] {
        Take(events[0]);
        label Taken:
        Run(events[1..]);
      }
    }

    /** One thing that happens to the pool. */
    method Take(e: Event)
      requires Valid()
      modifies this, all, priced, noncer
      ensures Valid() && (noncer == old(noncer) || fresh(noncer))
      ensures state == if NewState(e).Some? then NewState(e).value else old(state)
      ensures forall a :: old(Interval(a)) && NonceOf(state.nonces, a) >= NonceOf(old(state).nonces, a) ==> Interval(a)
    {
      match e
      case Submitted(tx, local, basic, gasPrice) =>
        var _, _ := Add(tx, local, basic, gasPrice);
      case Reorged(reset, dirty) =>
        RunReorg(reset, dirty);
      case Removed(tx) =>
        RemoveTx(tx, true);
    }

    /** Makes room in a full pool by evicting the cheapest remote transactions. */
    method MakeRoom(tx: Tx, isLocal: bool) returns (refusal: Option<AddResult>)
      requires Valid()
      modifies this`pending, this`queue, this`changes, this`evicting, all, priced, noncer
      ensures Valid() && all.Known() <= old(all.Known())
      ensures forall t {:trigger t in old(all.Known())} :: t in old(all.Known()) && t !in all.Known() ==> t in old(all.remotes)
      ensures refusal.Some? ==> pending == old(pending) && queue == old(queue) && all.Known() == old(all.Known())
      ensures refusal.Some? ==> refusal.value in {Underpriced, Overflow} && !(isLocal && refusal.value == Underpriced)
      ensures Kept(old(pending), old(noncer.View()))
      ensures Shorter(old(pending), old(noncer.View()), pending, noncer.View())
    {
      if !isLocal {
        var underpriced := BeatsNone(tx);
        if underpriced {
          return Some(Underpriced);
        }
      }
      if changes > config.globalSlots / 4 {
        return Some(Overflow);
      }
      var drop, success := PickVictims(tx, isLocal);
      if !isLocal && !success {
        assert evicting == {};
        return Some(Overflow);
      }
      changes := changes + |drop|;
      Evict(drop);
      evicting := {};
      return None;
    }

    method BeatsNone(tx: Tx) returns (underpriced: bool)
      requires Valid()
      modifies priced
      ensures Valid()
    {
      underpriced := priced.Underpriced(tx, all.remotes);
    }

    /** Asks the price heaps for transactions to evict. When they cannot give enough they keep all. */
    method PickVictims(tx: Tx, isLocal: bool) returns (drop: seq<Tx>, success: bool)
      requires Valid()
      modifies this`evicting, priced
      ensures Consistent(0, map[]) && evicting == (set t | t in drop) && (!success ==> drop == [])
      ensures (forall t :: t in drop ==> t in all.remotes) && Cheaper(drop, multiset(priced.floating))
    {
      var wanted := all.slots - (config.globalSlots + config.globalQueue) + NumSlots(tx);
      ghost var all';
      drop, success, all' := priced.Discard(wanted, isLocal, all.remotes);
      evicting := set t | t in drop;
    }

    method Evict(drop: seq<Tx>)
      requires Consistent(0, map[])
      modifies this`pending, this`queue, all, priced, noncer
      ensures Consistent(0, map[]) && all.Known() == old(all.Known()) - set t | t in drop
      ensures Kept(old(pending), old(noncer.View()))
      ensures Shorter(old(pending), old(noncer.View()), pending, noncer.View())
    {
      for i := 0 to |drop|
        invariant Consistent(0, map[]) && all.Known() == old(all.Known()) - set t | t in drop[..i]
        invariant Kept(old(pending), old(noncer.View()))
        invariant Shorter(old(pending), old(noncer.View()), pending, noncer.View())
      {
        ghost var p, v := pending, noncer.View();
        RemoveTx(drop[i], false);
        ShorterTwice(old(pending), old(noncer.View()), p, v, pending, noncer.View());
        assert drop[..i + 1] == drop[..i] + [drop[i]];
      }
      assert drop[..|drop|] == drop;
    }
  }

  /** Where pending nonces are an interval, what is queued lies beyond it, so a run that may start starts right behind it. */
  lemma StartsAtNonce(pending: Accounts, queue: Accounts, a: Address, start: nat, next: nat, kept: Items, ready: seq<Tx>)
    requires a in queue && Contiguous(pending, start, next, a) && Runs(queue[a], kept, ready)
    requires forall n :: n in queue[a] ==> n >= start
    requires forall b, n :: !(HasNonce(pending, b, n) && HasNonce(queue, b, n))
    requires ready != [] <==> MayStart(queue[a], next)
    ensures ready != [] ==> ready[0].nonce == next
    ensures next + |ready| !in kept
  {
    forall n | n in queue[a]
      ensures n >= next
    {
      assert HasNonce(queue, a, n) && !HasNonce(pending, a, n);
    }
    if ready != [] {
      assert Holds(queue[a], ready[0]);
    }
  }

  lemma SplitsAt(list: Items, n: nat)
    ensures PartOf(From(list, n), list) && Below(list, n) == list - From(list, n).Keys
  {
  }

  lemma SplitsByCost(list: Items, costLimit: nat, gasLimit: nat)
    ensures PartOf(Payable(list, costLimit, gasLimit), list)
    ensures Unpayable(list, costLimit, gasLimit) == list - Payable(list, costLimit, gasLimit).Keys
  {
  }

  lemma AreExecutable(list: Items, costLimit: nat, gasLimit: nat)
    ensures PartOf(Executable(list, costLimit, gasLimit), Payable(list, costLimit, gasLimit))
    ensures PartOf(Executable(list, costLimit, gasLimit), list)
    ensures forall n :: n in Executable(list, costLimit, gasLimit) ==> !Costly(list[n], costLimit, gasLimit)
  {
    forall n | n in Executable(list, costLimit, gasLimit)
      ensures n in Payable(list, costLimit, gasLimit)
    {
      assert !Blocked(list, n, costLimit, gasLimit);
    }
  }

  lemma ItemsOf(all: Items, kept: Items, ready: seq<Tx>)
    requires Keyed(all) && Runs(all, kept, ready)
    ensures PartOf(kept, all)
    ensures forall n :: n in all - kept.Keys <==> ready != [] && ready[0].nonce <= n < ready[0].nonce + |ready|
    ensures forall i :: 0 <= i < |ready| ==> Holds(all - kept.Keys, ready[i])
  {
    forall n | ready != [] && ready[0].nonce <= n < ready[0].nonce + |ready|
      ensures n in all
    {
      assert Holds(all, ready[n - ready[0].nonce]);
    }
  }

  /** All of `rest` but what is left has been put into a list, on free nonces. */
  ghost predicate Moving(first: Items, now: Items, rest: Items, left: Items)
  {
    && PartOf(left, rest) && (forall n :: n in rest ==> n !in first)
    && now == first + (rest - left.Keys)
  }

  /** What is left of a run of transactions after its first i. */
  ghost predicate LeftOf(rest: Items, left: Items, ready: seq<Tx>, i: nat)
  {
    forall n :: n in left <==> n in rest && (ready != [] ==> n >= ready[0].nonce + i)
  }

  lemma MovesOne(first: Items, now: Items, rest: Items, left: Items, tx: Tx)
    requires Moving(first, now, rest, left) && Holds(left, tx)
    ensures tx.nonce !in now && Moving(first, now[tx.nonce := tx], rest, left - {tx.nonce})
  {
  }

  /** A run of transactions taken out of an account's queue, under consecutive nonces. */
  ghost predicate IsRun(rest: Items, ready: seq<Tx>)
  {
    && (forall i :: 0 <= i < |ready| ==> Holds(rest, ready[i]) && ready[i].nonce == ready[0].nonce + i)
    && (forall n :: n in rest ==> ready != [] && ready[0].nonce <= n < ready[0].nonce + |ready|)
  }

  /** The first i of a run have become pending. If the run began at the virtual nonce of an interval, there is one
      still. */
  ghost predicate RunMoved(p: Accounts, v: Nonces, p': Accounts, v': Nonces, a: Address, rest: Items, left: Items,
                           ready: seq<Tx>, i: nat, base: map<Address, nat>)
  {
    && OnlyAt(p, p', a) && Moving(Get(p, a), Get(p', a), rest, left) && LeftOf(rest, left, ready, i)
    && (forall b :: b != a ==> v'.Of(b) == v.Of(b))
    && (i == 0 ==> p' == p && v'.Of(a) == v.Of(a))
    && (ready != [] && Contiguous(p, NonceOf(base, a), v.Of(a), a) && ready[0].nonce == v.Of(a) ==>
          Contiguous(p', NonceOf(base, a), v'.Of(a), a) && v'.Of(a) == ready[0].nonce + i)
  }

  lemma RunStarts(p: Accounts, v: Nonces, a: Address, rest: Items, ready: seq<Tx>, base: map<Address, nat>)
    requires IsRun(rest, ready) && Clear(p, a, rest)
    ensures RunMoved(p, v, p, v, a, rest, rest, ready, 0, base)
  {
    forall n | n in rest
      ensures n !in Get(p, a)
    {
      assert !HasNonce(p, a, n);
    }
    assert rest - rest.Keys == map[];
  }

  lemma RunNext(p: Accounts, v: Nonces, p': Accounts, v': Nonces, a: Address, rest: Items, left: Items, ready: seq<Tx>,
                i: nat, base: map<Address, nat>)
    requires RunMoved(p, v, p', v', a, rest, left, ready, i, base) && IsRun(rest, ready) && i < |ready|
    ensures Holds(left, ready[i]) && ready[i].nonce !in Get(p', a) && !HasNonce(p', a, ready[i].nonce)
  {
    MovesOne(Get(p, a), Get(p', a), rest, left, ready[i]);
  }

  lemma RunMoves(p: Accounts, v: Nonces, p': Accounts, v': Nonces, p'': Accounts, v'': Nonces, a: Address, rest: Items,
                left: Items, ready: seq<Tx>, i: nat, base: map<Address, nat>)
    requires RunMoved(p, v, p', v', a, rest, left, ready, i, base) && IsRun(rest, ready) && i < |ready|
    requires ready[i].sender == a && p'' == With(p', ready[i])
    requires forall b :: v''.Of(b) == if b == a then ready[i].nonce + 1 else v'.Of(b)
    requires Contiguous(p', NonceOf(base, a), v'.Of(a), a) && ready[i].nonce == v'.Of(a) ==>
      Contiguous(p'', NonceOf(base, a), v''.Of(a), a)
    ensures RunMoved(p, v, p'', v'', a, rest, left - {ready[i].nonce}, ready, i + 1, base)
  {
    hide Contiguous;
    RunNext(p, v, p', v', a, rest, left, ready, i, base);
    MovesOne(Get(p, a), Get(p', a), rest, left, ready[i]);
    assert LeftOf(rest, left - {ready[i].nonce}, ready, i + 1);
  }

  lemma RunDone(p: Accounts, v: Nonces, p': Accounts, v': Nonces, a: Address, rest: Items, left: Items, ready: seq<Tx>,
                base: map<Address, nat>)
    requires RunMoved(p, v, p', v', a, rest, left, ready, |ready|, base) && IsRun(rest, ready)
    ensures left == map[] && Get(p', a) == Get(p, a) + rest
    ensures forall b :: b != a && Contiguous(p, NonceOf(base, b), v.Of(b), b) ==> Contiguous(p', NonceOf(base, b), v'.Of(b), b)
  {
    assert left == map[];
    assert rest - left.Keys == rest;
    forall b | b != a && Contiguous(p, NonceOf(base, b), v.Of(b), b)
      ensures Contiguous(p', NonceOf(base, b), v'.Of(b), b)
    {
      assert forall n :: HasNonce(p', b, n) <==> n in Get(p', b);
      assert forall n :: HasNonce(p, b, n) <==> n in Get(p, b);
    }
  }

  lemma LandsNew(p: Accounts, q: Accounts, known: set<Tx>, tx: Tx)
    requires Partition(p, q, known, tx.sender, map[]) && tx !in known && tx.nonce < MAX_UINT64
    requires !HasNonce(q, tx.sender, tx.nonce)
    ensures Partition(With(p, tx), q, Remaining(p, known + {tx}, tx), tx.sender, map[])
  {
    Arrives(p, q, known, tx);
    Lands(p, q, known + {tx}, map[tx.nonce := tx], tx);
    assert map[tx.nonce := tx] - {tx.nonce} == map[];
  }

  /** A new transaction put in the place of a pending one. */
  lemma ReplacesPending(p: Accounts, q: Accounts, known: set<Tx>, tx: Tx)
    requires Partition(p, q, known, 0, map[]) && tx !in known && tx.nonce < MAX_UINT64
    requires HasNonce(p, tx.sender, tx.nonce)
    ensures Partition(With(p, tx), q, known - {p[tx.sender][tx.nonce]} + {tx}, 0, map[])
    ensures p[tx.sender][tx.nonce] in known
    ensures forall a, n :: HasNonce(With(p, tx), a, n) <==> HasNonce(p, a, n)
  {
    var prior := p[tx.sender][tx.nonce];
    assert InLists(p, prior) && prior in known;
    WithHolds(p, tx);
    Settled(p, q, known, 0, tx.sender);
    LandsNew(p, q, known, tx);
    assert Remaining(p, known + {tx}, tx) == known - {prior} + {tx};
    Settled(With(p, tx), q, known - {prior} + {tx}, tx.sender, 0);
  }

  ghost function Sizes(lists: Accounts): (r: map<Address, nat>)
    ensures forall a :: a in r <==> a in lists
    ensures forall a :: a in r ==> r[a] == |lists[a]|
  {
    map a | a in lists :: |lists[a]|
  }

  /** The transactions in all lists together. */
  ghost function Count(lists: Accounts): nat
  {
    Sums.Total(Sizes(lists))
  }

  lemma CountStore(lists: Accounts, a: Address, items: Items)
    ensures Count(Store(lists, a, items)) == Count(lists) - |Get(lists, a)| + |items|
  {
    var sizes, r := Sizes(lists), Sizes(Store(lists, a, items));
    if items == map[] {
      Sums.TotalRemove(sizes, a);
      SameSizes(r, sizes - {a});
    } else {
      Sums.TotalUpdate(sizes, a, |items|);
      SameSizes(r, sizes[a := |items|]);
    }
  }

  lemma SameSizes(a: map<Address, nat>, b: map<Address, nat>)
    requires forall k :: k in a <==> k in b
    requires forall k :: k in a ==> a[k] == b[k]
    ensures a == b
  {
  }

  lemma SameAccounts(before: Accounts, after: Accounts, a: Address)
    requires WellKept(before) && WellKept(after) && OnlyAt(before, after, a)
    ensures after == Store(before, a, Get(after, a))
  {
    forall b | b != a
      ensures b in after <==> b in before
      ensures b in after ==> after[b] == before[b]
    {
      assert Get(after, b) == Get(before, b);
    }
  }

  /** Capping a list by one takes off its highest nonce. */
  lemma DropsTop(list: Items, kept: Items, caps: seq<Tx>)
    requires Keyed(list) && Capped(list, kept, caps) && |list| > 0 && |kept| == |list| - 1
    ensures |caps| == 1 && caps[0].nonce in list && kept == Below(list, caps[0].nonce) && LowPart(kept, list)
  {
    var top := caps[0].nonce;
    assert caps[0] in caps;
    forall n | n in list && n !in kept
      ensures n == top
    {
      assert Holds(list, list[n]);
      assert list[n] in caps;
    }
  }

  lemma CountOnlyAt(before: Accounts, after: Accounts, a: Address)
    requires WellKept(before) && WellKept(after) && OnlyAt(before, after, a)
    ensures Count(after) == Count(before) - |Get(before, a)| + |Get(after, a)|
  {
    SameAccounts(before, after, a);
    CountStore(before, a, Get(after, a));
  }

  /** What is left of a list after its highest nonces have gone. */
  ghost predicate LowPart(less: Items, items: Items)
  {
    PartOf(less, items) && forall m, n :: m in less && n in items && n !in less ==> m < n
  }

  lemma LowerPart(a: Items, b: Items, c: Items)
    requires LowPart(a, b) && LowPart(b, c)
    ensures LowPart(a, c)
  {
  }

  ghost predicate Distinct(accounts: seq<Address>)
  {
    forall i, j :: 0 <= i < j < |accounts| ==> accounts[i] != accounts[j]
  }

  /** Only the listed accounts' lists have changed, and only by losing transactions. */
  ghost predicate Shrunk(before: Accounts, after: Accounts, accounts: seq<Address>)
  {
    && (forall a :: a !in accounts ==> Get(after, a) == Get(before, a))
    && (forall a {:trigger LowPart(Get(after, a), Get(before, a))} :: LowPart(Get(after, a), Get(before, a)))
  }

  lemma StaysShrunk(first: Accounts, before: Accounts, after: Accounts, accounts: seq<Address>, a: Address)
    requires Shrunk(first, before, accounts) && OnlyAt(before, after, a) && a in accounts
    requires LowPart(Get(after, a), Get(before, a))
    ensures Shrunk(first, after, accounts)
  {
    forall b
      ensures LowPart(Get(after, b), Get(first, b)) && (b !in accounts ==> Get(after, b) == Get(first, b))
    {
      assert LowPart(Get(before, b), Get(first, b));
      assert b != a ==> Get(after, b) == Get(before, b);
      LowerPart(Get(after, b), Get(before, b), Get(first, b));
    }
  }

  /** The first i listed accounts have one transaction less than the others. */
  ghost predicate HalfLevel(lists: Accounts, accounts: seq<Address>, i: nat, size: nat)
    requires size > 0
  {
    forall k :: 0 <= k < |accounts| ==> |Get(lists, accounts[k])| == if k < i then size - 1 else size
  }

  lemma HalfLevelStep(before: Accounts, after: Accounts, accounts: seq<Address>, i: nat, size: nat)
    requires size > 0 && i < |accounts| && Distinct(accounts) && HalfLevel(before, accounts, i, size)
    requires OnlyAt(before, after, accounts[i]) && |Get(after, accounts[i])| == size - 1
    ensures HalfLevel(after, accounts, i + 1, size)
  {
    forall k | 0 <= k < |accounts| && k != i
      ensures Get(after, accounts[k]) == Get(before, accounts[k])
    {
    }
  }

  lemma ShrunkTwice(first: Accounts, before: Accounts, after: Accounts, accounts: seq<Address>)
    requires Shrunk(first, before, accounts) && Shrunk(before, after, accounts)
    ensures Shrunk(first, after, accounts)
  {
    forall b
      ensures LowPart(Get(after, b), Get(first, b))
    {
      LowerPart(Get(after, b), Get(before, b), Get(first, b));
    }
  }

  /** The account with the most transactions comes first off the priority queue. */
  method Largest(accounts: set<Address>, lists: Accounts) returns (a: Address)
    requires accounts != {}
    ensures a in accounts && forall b :: b in accounts ==> |Get(lists, b)| <= |Get(lists, a)|
  {
    a :| a in accounts;
    var left := accounts - {a};
    while left != {}
      invariant a in accounts && left <= accounts
      invariant forall b :: b in accounts && b !in left ==> |Get(lists, b)| <= |Get(lists, a)|
      decreases left
    {
      var b :| b in left;
      if |Get(lists, b)| > |Get(lists, a)| {
        a := b;
      }
      left := left - {b};
    }
  }

  ghost function NoncesOf(txs: seq<Tx>): set<nat>
  {
    if txs == [] then {} else NoncesOf(txs[..|txs| - 1]) + {txs[|txs| - 1].nonce}
  }

  /** The first i transactions of a list have been removed. */
  ghost predicate Removing(first: Items, now: Items, txs: seq<Tx>, i: nat)
    requires i <= |txs|
  {
    now == first - NoncesOf(txs[..i]) && forall k :: i <= k < |txs| ==> Holds(now, txs[k])
  }

  lemma RemovingStep(first: Items, now: Items, txs: seq<Tx>, i: nat)
    requires i < |txs| && Removing(first, now, txs, i)
    requires forall j, k :: 0 <= j < k < |txs| ==> txs[j].nonce != txs[k].nonce
    ensures Removing(first, now - {txs[i].nonce}, txs, i + 1)
  {
    assert txs[..i + 1][..i] == txs[..i];
  }

  /** The middle of truncatePending: `spammers` are still to be looked at, `offenders` have been levelled to `size`
      unless that has already made the pool small enough. */
  ghost predicate Halfway(before: Accounts, p: Accounts, locals: set<Address>, config: Config, spammers: set<Address>,
                          offenders: seq<Address>, total: nat, size: nat)
  {
    && Distinct(offenders) && Shrunk(before, p, offenders) && total == Count(p)
    && total + |before| > config.globalSlots && |offenders| + |spammers| <= |before|
    && (forall a :: a in offenders ==> a !in spammers && a !in locals && |Get(p, a)| > config.accountSlots)
    && (forall a :: a in spammers ==> a !in locals && |Get(p, a)| > config.accountSlots)
    && (forall a :: a !in locals && |Get(p, a)| > config.accountSlots ==> a in spammers || a in offenders)
    && (total > config.globalSlots && offenders != [] ==>
          && (forall a :: a in offenders ==> |Get(p, a)| == size)
          && (forall a :: a in spammers ==> |Get(p, a)| <= size))
  }

  /** The offenders so far have been levelled to the size of the next, or until the pool is small enough. */
  ghost predicate Levelled(p: Accounts, p': Accounts, offenders: seq<Address>, config: Config, total: nat, total': nat,
                           threshold: nat, size': nat)
  {
    && total' == Count(p') && threshold <= size' && Shrunk(p, p', offenders)
    && (forall a :: a in offenders ==> |Get(p', a)| == size')
    && (total' <= config.globalSlots || size' == threshold)
    && (total' == total || total' + |offenders| > config.globalSlots)
  }

  lemma OffenderJoins(before: Accounts, p: Accounts, p': Accounts, locals: set<Address>, config: Config,
                      spammers: set<Address>, offenders: seq<Address>, total: nat, total': nat, size: nat, size': nat,
                      offender: Address)
    requires Halfway(before, p, locals, config, spammers, offenders, total, size)
    requires total > config.globalSlots && offender in spammers
    requires forall a :: a in spammers ==> |Get(p, a)| <= |Get(p, offender)|
    requires Levelled(p, p', offenders, config, total, total', |Get(p, offender)|, size')
    ensures Halfway(before, p', locals, config, spammers - {offender}, offenders + [offender], total', size')
  {
    ShrunkTwice(before, p, p', offenders);
    assert forall a :: a !in offenders ==> Get(p', a) == Get(p, a);
  }

  /** A sorted list of contents cut down to its first i. */
  ghost predicate CutDown(first: Items, now: Items, txs: seq<Tx>, i: nat)
  {
    i <= |txs| && Keyed(now) && IsFlat(txs[..i], now) && LowPart(now, first)
  }

  lemma CutDownStarts(items: Items, txs: seq<Tx>)
    requires Keyed(items) && IsFlat(txs, items)
    ensures CutDown(items, items, txs, |txs|)
  {
    assert txs[..|txs|] == txs;
  }

  lemma CutDownLow(first: Items, now: Items, txs: seq<Tx>, i: nat)
    requires CutDown(first, now, txs, i)
    ensures LowPart(now, first)
  {
  }

  lemma CutDownStep(first: Items, now: Items, txs: seq<Tx>, i: nat)
    requires i > 0 && CutDown(first, now, txs, i)
    ensures Holds(now, txs[i - 1]) && CutDown(first, now - {txs[i - 1].nonce}, txs, i - 1)
  {
    FlatDropsLast(txs[..i], now);
    assert txs[..i][..i - 1] == txs[..i - 1];
    assert txs[i - 1] in txs[..i];
    LosesTop(first, now, txs[i - 1].nonce);
  }

  lemma LosesTop(first: Items, now: Items, n: nat)
    requires LowPart(now, first) && n in now && forall m :: m in now ==> m <= n
    ensures LowPart(now - {n}, first)
  {
  }

  lemma {:induction false} NonceListed(txs: seq<Tx>, n: nat)
    ensures n in NoncesOf(txs) <==> exists tx :: tx in txs && tx.nonce == n
    decreases |txs|
  {
    if txs != [] {
      var last := txs[|txs| - 1];
      NonceListed(txs[..|txs| - 1], n);
      assert txs == txs[..|txs| - 1] + [last];
      assert last in txs;
      if n != last.nonce && exists tx :: tx in txs && tx.nonce == n {
        var tx :| tx in txs && tx.nonce == n;
        assert tx in txs[..|txs| - 1];
      }
    }
  }

  lemma AllNonces(txs: seq<Tx>, items: Items)
    requires Keyed(items) && IsFlat(txs, items)
    ensures items - NoncesOf(txs) == map[]
  {
    forall n | n in items
      ensures n in NoncesOf(txs)
    {
      assert items[n] in txs;
      NonceListed(txs, n);
    }
  }

  /** The middle of truncateQueue: remote accounts already visited have empty queues while there is more to drop. */
  ghost predicate Emptied(first: Accounts, queue: Accounts, left: set<Address>, locals: set<Address>, more: bool)
  {
    && left !! locals
    && (forall a :: a in locals || a in left ==> Get(queue, a) == Get(first, a))
    && (forall a {:trigger LowPart(Get(queue, a), Get(first, a))} :: LowPart(Get(queue, a), Get(first, a)))
    && (more ==> forall a :: a in queue ==> a in locals || a in left)
  }

  lemma EmptiesOne(first: Accounts, before: Accounts, queue: Accounts, left: set<Address>, locals: set<Address>,
                   a: Address, more: bool)
    requires Emptied(first, before, left, locals, true) && a in left && WellKept(queue)
    requires OnlyAt(before, queue, a) && LowPart(Get(queue, a), Get(before, a)) && (more ==> Get(queue, a) == map[])
    ensures Emptied(first, queue, left - {a}, locals, more)
  {
    forall b
      ensures b != a ==> Get(queue, b) == Get(before, b)
      ensures LowPart(Get(queue, b), Get(first, b))
    {
      assert LowPart(Get(before, b), Get(first, b));
    }
    forall b | b in queue && more
      ensures b in locals || b in left - {a}
    {
      assert b != a ==> Get(queue, b) == Get(before, b);
    }
  }

  lemma TakesOne(lists: Accounts, a: Address, tx: Tx)
    requires WellKept(lists) && Holds(Get(lists, a), tx)
    ensures InLists(lists, tx) && tx.sender == a
    ensures Count(Store(lists, a, lists[a] - {tx.nonce})) == Count(lists) - 1
  {
    CountStore(lists, a, lists[a] - {tx.nonce});
    assert (lists[a] - {tx.nonce}).Keys == lists[a].Keys - {tx.nonce};
  }

  /** A new head of the chain as the pool sees it; its state, or a block on the way to it, may not be available. */
  datatype Head = Head(available: bool, state: State, reinject: seq<Offer>, baseFee: Option<nat>, gasPrice: nat)

  /** What happens to a pool: submissions, reorganisations of its own, and removals of transactions that are too old or
      have become too cheap. */
  datatype Event =
    | Submitted(tx: Tx, local: bool, basic: bool, gasPrice: nat)
    | Reorged(reset: Option<Head>, dirty: seq<Address>)
    | Removed(tx: Tx)

  /** The state an event brings, if any. */
  function NewState(e: Event): Option<State>
  {
    if e.Reorged? && e.reset.Some? && e.reset.value.available then Some(e.reset.value.state) else None
  }

  /** No new head ever takes the account's nonce down. */
  ghost predicate Rising(events: seq<Event>, nonce: nat, a: Address)
  {
    events == [] ||
    if NewState(events[0]).Some? then
      && nonce <= NonceOf(NewState(events[0]).value.nonces, a)
      && Rising(events[1..], NonceOf(NewState(events[0]).value.nonces, a), a)
    else Rising(events[1..], nonce, a)
  }

  ghost predicate Gapless(list: Items, start: nat)
  {
    forall m, n :: m in list && start <= n <= m ==> n in list
  }

  ghost predicate IsNext(list: Items, next: nat)
  {
    next > 0 && next - 1 in list && forall n :: n in list ==> n < next
  }

  lemma NextDecides(pending: Accounts, a: Address, start: nat, next: nat)
    requires if a in pending then IsNext(pending[a], next) else next == start
    requires forall n :: n in Get(pending, a) ==> n >= start
    ensures Contiguous(pending, start, next, a) <==> Gapless(Get(pending, a), start)
  {
    if a in pending {
      assert next - 1 in pending[a];
      if Contiguous(pending, start, next, a) {
        forall m, n | m in pending[a] && start <= n <= m
          ensures n in pending[a]
        {
          assert HasNonce(pending, a, n);
        }
      }
    }
  }

  method AddressesOf(lists: Accounts) returns (r: seq<Address>)
    ensures Distinct(r) && forall a :: a in r <==> a in lists
  {
    r := [];
    var left := lists.Keys;
    while left != {}
      invariant Distinct(r) && forall a :: a in r <==> a in lists && a !in left
      invariant left <= lists.Keys
      decreases left
    {
      var a :| a in left;
      r, left := r + [a], left - {a};
    }
  }

  method Tally(lists: Accounts) returns (total: nat)
    ensures total == Count(lists)
  {
    total := 0;
    var left := lists;
    while left != map[]
      invariant total + Count(left) == Count(lists)
      decreases |left|
    {
      var a :| a in left;
      assert (left - {a}).Keys == left.Keys - {a};
      CountStore(left, a, map[]);
      total, left := total + |left[a]|, left - {a};
    }
  }

  datatype AddResult = Added(replaced: bool) | AlreadyKnown | Invalid | Underpriced | Overflow | ReplaceUnderpriced

  const TX_MAX_SIZE := 4 * TX_SLOT_SIZE
}
