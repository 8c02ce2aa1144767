/** The transactions of one account by nonce: a map, a heap of its keys and a cached sorted form kept in step, and the
    list with price bumps and spending caps on top of it. */
module TxLists {
  import opened Options
  import opened Numbers
  import opened NonceHeaps

  /** A transaction. Hashes name transactions one to one, so the transaction itself serves as its hash. */
  datatype Tx = Tx(id: nat, sender: Address, nonce: nat, feeCap: nat, tipCap: nat, gas: nat, cost: nat, size: nat)

  type Items = map<nat, Tx>

  /** Transactions sit under their own nonces, which stay below the largest 64-bit number. */
  ghost predicate Keyed(items: Items)
  {
    forall n :: n in items ==> items[n].nonce == n && n < MAX_UINT64
  }

  predicate Costly(tx: Tx, costLimit: nat, gasLimit: nat)
  {
    tx.gas > gasLimit || tx.cost > costLimit
  }

  /** The tests lists are filtered by. */
  datatype Test = OverLimit(costLimit: nat, gasLimit: nat) | After(nonce: nat)

  predicate Picks(test: Test, tx: Tx)
  {
    match test
    case OverLimit(costLimit, gasLimit) => Costly(tx, costLimit, gasLimit)
    case After(nonce) => tx.nonce > nonce
  }

  ghost function Lowest(keys: set<nat>): (m: nat)
    requires keys != {}
    ensures m in keys && forall k :: k in keys ==> m <= k
  {
    assert exists m :: m in keys && forall k :: k in keys ==> m <= k by {
      var m := FindLowest(keys);
    }
    var m :| m in keys && forall k :: k in keys ==> m <= k;
    m
  }

  lemma {:induction false} FindLowest(keys: set<nat>) returns (m: nat)
    requires keys != {}
    ensures m in keys && forall k :: k in keys ==> m <= k
    decreases |keys|
  {
    var x :| x in keys;
    m := x;
    var rest := keys - {x};
    if rest != {} {
      var other := FindLowest(rest);
      m := if other < x then other else x;
    }
    assert keys == rest + {x};
  }

  function Below(items: Items, threshold: nat): (r: Items)
    ensures forall n :: n in r <==> n in items && n < threshold
    ensures forall n :: n in r ==> r[n] == items[n]
  {
    map n | n in items && n < threshold :: items[n]
  }

  function From(items: Items, threshold: nat): (r: Items)
    ensures forall n :: n in r <==> n in items && n >= threshold
    ensures forall n :: n in r ==> r[n] == items[n]
  {
    map n | n in items && n >= threshold :: items[n]
  }

  ghost predicate Holds(items: Items, tx: Tx)
  {
    tx.nonce in items && items[tx.nonce] == tx
  }

  /** A list is the contents in ascending order of nonce. */
  ghost predicate IsFlat(s: seq<Tx>, items: Items)
  {
    && (forall i, j :: 0 <= i < j < |s| ==> s[i].nonce < s[j].nonce)
    && (forall tx :: tx in s <==> Holds(items, tx))
  }

  /** Taking off the last is taking the highest nonce out of the contents. */
  lemma FlatDropsLast(s: seq<Tx>, items: Items)
    requires IsFlat(s, items) && Keyed(items) && s != []
    ensures IsFlat(s[..|s| - 1], items - {s[|s| - 1].nonce})
    ensures s[|s| - 1].nonce in items && forall n :: n in items ==> n <= s[|s| - 1].nonce
  {
    var last := s[|s| - 1];
    assert last in s;
    forall tx
      ensures tx in s[..|s| - 1] <==> Holds(items - {last.nonce}, tx)
    {
      assert tx in s <==> tx in s[..|s| - 1] || tx == last;
    }
    forall n | n in items
      ensures n <= last.nonce
    {
      assert items[n] in s;
    }
  }

  lemma {:induction false} FlatLength(s: seq<Tx>, items: Items)
    requires IsFlat(s, items) && Keyed(items)
    ensures |s| == |items|
    decreases |s|
  {
    if s == [] {
      assert forall n :: n in items ==> Holds(items, items[n]);
      assert items == map[];
    } else {
      var n := s[|s| - 1].nonce;
      FlatDropsLast(s, items);
      FlatLength(s[..|s| - 1], items - {n});
      assert (items - {n}).Keys == items.Keys - {n};
    }
  }

  /** There is only one such list. */
  lemma FlatIsUnique(a: seq<Tx>, b: seq<Tx>, items: Items)
    requires IsFlat(a, items) && IsFlat(b, items) && Keyed(items)
    ensures a == b
  {
    FlatLength(a, items);
    FlatLength(b, items);
    SamePrefix(a, b, items, |a|);
  }

  lemma {:induction false} SamePrefix(a: seq<Tx>, b: seq<Tx>, items: Items, n: nat)
    requires IsFlat(a, items) && IsFlat(b, items) && n <= |a| <= |b|
    ensures forall i :: 0 <= i < n ==> a[i] == b[i]
  {
    if n > 0 {
      SamePrefix(a, b, items, n - 1);
      var i := n - 1;
      assert a[i] in b && b[i] in a;
      var j :| 0 <= j < |b| && b[j] == a[i];
      var k :| 0 <= k < |a| && a[k] == b[i];
      assert a[i].nonce == b[i].nonce;
    }
  }

  /** A sorted list splits at any nonce into the lists of what is below and what is not. */
  lemma {:induction false} FlatSplits(s: seq<Tx>, items: Items, threshold: nat) returns (k: nat)
    requires IsFlat(s, items)
    ensures k <= |s| && IsFlat(s[..k], Below(items, threshold)) && IsFlat(s[k..], From(items, threshold))
  {
    k := 0;
    while k < |s| && s[k].nonce < threshold
      invariant k <= |s| && forall i :: 0 <= i < k ==> s[i].nonce < threshold
    {
      k := k + 1;
    }
    assert forall i :: k <= i < |s| ==> s[i].nonce >= threshold;
    forall tx
      ensures tx in s[..k] <==> Holds(Below(items, threshold), tx)
      ensures tx in s[k..] <==> Holds(From(items, threshold), tx)
    {
      assert tx in s <==> tx in s[..k] || tx in s[k..];
    }
  }

  class TxSortedMap {
    var items: Items
    var index: seq<nat>
    var cache: Option<seq<Tx>>

    /** The heap holds exactly the stored nonces, each once, and a cache is the sorted contents. */
    ghost predicate Valid()
      reads this
    {
      && Indexes(index, items)
      && (cache.Some? ==> IsFlat(cache.value, items))
    }

    constructor ()
      ensures Valid() && items == map[]
    {
      items, index, cache := map[], [], None;
    }

    constructor Of(items: Items)
      requires Keyed(items)
      ensures Valid() && this.items == items
    {
      this.items, index, cache := items, [], None;
      new;
      Reheap();
    }

    method Put(tx: Tx)
      requires Valid() && tx.nonce < MAX_UINT64
      modifies this
      ensures Valid() && items == old(items)[tx.nonce := tx]
    {
      if tx.nonce !in items {
        index := Push(index, tx.nonce);
      }
      items, cache := items[tx.nonce := tx], None;
    }

    /** Everything below a nonce goes, in order; a cached order loses exactly its front. */
    method Forward(threshold: nat) returns (removed: seq<Tx>)
      requires Valid()
      modifies this
      ensures Valid() && items == From(old(items), threshold)
      ensures IsFlat(removed, Below(old(items), threshold))
    {
      ghost var all := items;
      items, index, removed := PopBelow(items, index, threshold);
      if cache.Some? {
        CacheFront(cache.value, all, threshold, removed);
        cache := Some(cache.value[|removed|..]);
      }
    }

    /** Everything a test picks out goes. The heap and the cache are rebuilt only if something went. */
    method Filter(test: Test) returns (removed: seq<Tx>)
      requires Valid()
      modifies this
      ensures Valid() && items == Failing(old(items), test)
      ensures Lists(removed, Passing(old(items), test))
    {
      ghost var all := items;
      items, removed := Sift(items, test);
      if |removed| > 0 {
        Reheap();
      } else {
        assert items == all;
      }
    }

    method Reheap()
      requires Keyed(items)
      modifies this`index, this`cache
      ensures Valid()
    {
      var keys := KeysOf(items);
      index := Init(keys);
      cache := None;
    }

    /** Keeps the lowest nonces, as many as allowed; a cached order loses exactly its back. */
    method Cap(threshold: nat) returns (drops: seq<Tx>)
      requires Valid()
      modifies this
      ensures Valid() && Capped(old(items), items, drops)
      ensures |items| == if |old(items)| <= threshold then |old(items)| else threshold
    {
      if |items| <= threshold {
        return [];
      }
      ghost var all := items;
      items, index, drops := KeepLowest(items, index, threshold);
      if cache.Some? {
        CacheBack(cache.value, all, items, drops);
        cache := Some(cache.value[..|cache.value| - |drops|]);
      }
    }

    method Remove(nonce: nat) returns (found: bool)
      requires Valid()
      modifies this
      ensures Valid() && found == (nonce in old(items))
      ensures items == if found then old(items) - {nonce} else old(items)
    {
      if nonce !in items {
        return false;
      }
      var i := 0;
      while index[i] != nonce
        invariant 0 <= i < |index| && nonce in index[i..]
        decreases |index| - i
      {
        i := i + 1;
      }
      var rest := NonceHeaps.Remove(index, i);
      index, items, cache := rest, items - {nonce}, None;
      return true;
    }

    /** The unbroken run of nonces from the lowest, provided it starts no later than `start`. */
    method Ready(start: nat) returns (ready: seq<Tx>)
      requires Valid()
      modifies this
      ensures Valid() && Runs(old(items), items, ready)
      ensures ready != [] <==> MayStart(old(items), start)
    {
      if |index| > 0 {
        IndexLowest(items, index);
      }
      if |index| == 0 || index[0] > start {
        return [];
      }
      items, index, ready := PopRun(items, index);
      cache := None;
    }

    /** The contents in order, from the cache when there is one. */
    method Flatten() returns (txs: seq<Tx>)
      requires Valid()
      modifies this`cache
      ensures Valid() && IsFlat(txs, items)
    {
      if cache.None? {
        var keys := KeysOf(items);
        var sorted := Sort(keys);
        var txs': seq<Tx> := [];
        for i := 0 to |sorted|
          invariant |txs'| == i && forall k :: 0 <= k < i ==> sorted[k] in items && txs'[k] == items[sorted[k]]
        {
          assert sorted[i] in sorted;
          txs' := txs' + [items[sorted[i]]];
        }
        InOrder(items, sorted, txs');
        cache := Some(txs');
      }
      txs := cache.value;
    }

    method LastElement() returns (tx: Tx)
      requires Valid() && items != map[]
      modifies this`cache
      ensures Valid() && Holds(items, tx) && forall n :: n in items ==> n <= tx.nonce
    {
      var txs := Flatten();
      FlatLength(txs, items);
      FlatDropsLast(txs, items);
      tx := txs[|txs| - 1];
    }
  }

  function Passing(items: Items, test: Test): (r: Items)
    ensures forall n :: n in r <==> n in items && Picks(test, items[n])
    ensures forall n :: n in r ==> r[n] == items[n]
  {
    map n | n in items && Picks(test, items[n]) :: items[n]
  }

  function Failing(items: Items, test: Test): (r: Items)
    ensures forall n :: n in r <==> n in items && !Picks(test, items[n])
    ensures forall n :: n in r ==> r[n] == items[n]
  {
    map n | n in items && !Picks(test, items[n]) :: items[n]
  }

  /** A list of the contents in any order. */
  ghost predicate Lists(s: seq<Tx>, items: Items)
  {
    |s| == |items| && forall tx :: tx in s <==> Holds(items, tx)
  }

  /** The highest nonces have been dropped. */
  ghost predicate Capped(all: Items, items: Items, drops: seq<Tx>)
  {
    && (forall n :: n in items ==> n in all && items[n] == all[n])
    && (forall tx :: tx in drops <==> Holds(all, tx) && tx.nonce !in items)
    && (forall m, n :: m in items && n in all && n !in items ==> m < n)
    && |drops| == |all| - |items|
  }

  /** A run of consecutive nonces from the lowest has been taken out, as long as possible, or nothing. */
  ghost predicate Runs(all: Items, items: Items, ready: seq<Tx>)
  {
    && (forall i :: 0 <= i < |ready| ==> Holds(all, ready[i]) && ready[i].nonce == ready[0].nonce + i)
    && (ready != [] ==> ready[0].nonce + |ready| !in all && forall n :: n in all ==> ready[0].nonce <= n)
    && (forall n :: n in items <==> n in all && (ready == [] || n >= ready[0].nonce + |ready|))
    && (forall n :: n in items ==> items[n] == all[n])
  }

  /** Some nonce is no later than `start`. */
  ghost predicate MayStart(items: Items, start: nat)
  {
    exists n :: n in items && n <= start
  }

  method KeysOf(items: Items) returns (keys: seq<nat>)
    ensures NoDuplicates(keys) && forall n :: n in keys <==> n in items
  {
    keys := [];
    var left := items.Keys;
    while left != {}
      invariant left <= items.Keys
      invariant NoDuplicates(keys) && forall n :: n in keys <==> n in items && n !in left
      decreases |left|
    {
      var n :| n in left;
      keys, left := keys + [n], left - {n};
    }
  }

  /** The loop of filter with the nonces in `left` still to be looked at. */
  ghost predicate Sifting(all: Items, test: Test, left: set<nat>, items: Items, removed: seq<Tx>)
  {
    && left <= all.Keys && |removed| == |all| - |items|
    && (forall n :: n in items <==> n in all && (n in left || !Picks(test, all[n])))
    && (forall n :: n in items ==> items[n] == all[n])
    && (forall tx :: tx in removed <==> Holds(all, tx) && tx.nonce !in left && Picks(test, tx))
  }

  method Sift(all: Items, test: Test) returns (items: Items, removed: seq<Tx>)
    requires Keyed(all)
    ensures items == Failing(all, test) && Lists(removed, Passing(all, test))
  {
    items, removed := all, [];
    var left := all.Keys;
    while left != {}
      invariant Sifting(all, test, left, items, removed)
      decreases |left|
    {
      var n :| n in left;
      SiftStep(all, test, left, items, removed, n);
      if Picks(test, all[n]) {
        removed := removed + [all[n]];
        items := items - {n};
      }
      left := left - {n};
    }
    SameItems(items, Failing(all, test));
    PartsAddUp(all, test);
  }

  lemma SiftStep(all: Items, test: Test, left: set<nat>, items: Items, removed: seq<Tx>, n: nat)
    requires Keyed(all) && Sifting(all, test, left, items, removed) && n in left
    ensures Picks(test, all[n]) ==> Sifting(all, test, left - {n}, items - {n}, removed + [all[n]])
    ensures !Picks(test, all[n]) ==> Sifting(all, test, left - {n}, items, removed)
  {
    if Picks(test, all[n]) {
      assert (items - {n}).Keys == items.Keys - {n};
    }
  }

  lemma PartsAddUp(all: Items, test: Test)
    ensures |all| == |Passing(all, test)| + |Failing(all, test)|
  {
    assert all.Keys == Passing(all, test).Keys + Failing(all, test).Keys;
    assert Passing(all, test).Keys !! Failing(all, test).Keys;
  }

  /** The loop of Cap with `size` transactions left. */
  ghost predicate Cutting(all: Items, sorted: seq<nat>, size: nat, items: Items, drops: seq<Tx>)
  {
    && size <= |sorted| && |items| == size && Keyed(items) && Capped(all, items, drops)
    && (forall n :: n in sorted[..size] <==> n in items)
  }

  method CutTop(all: Items, sorted: seq<nat>, threshold: nat) returns (items: Items, drops: seq<Tx>)
    requires Keyed(all) && IsAscending(sorted) && threshold < |all| == |sorted|
    requires forall n :: n in sorted <==> n in all
    ensures Cutting(all, sorted, threshold, items, drops)
  {
    items, drops := all, [];
    assert sorted[..|sorted|] == sorted;
    var size := |all|;
    while size > threshold
      invariant threshold <= size && Cutting(all, sorted, size, items, drops)
    {
      CutStep(all, sorted, size, items, drops);
      var top := sorted[size - 1];
      drops := drops + [items[top]];
      items := items - {top};
      size := size - 1;
    }
  }

  /** A map and its heap of nonces cut down to the lowest. */
  method KeepLowest(all: Items, index: seq<nat>, threshold: nat) returns (items: Items, rest: seq<nat>, drops: seq<Tx>)
    requires Indexes(index, all) && threshold < |all|
    ensures Indexes(rest, items) && Capped(all, items, drops) && |items| == threshold
  {
    DistinctLength(index, all.Keys);
    var sorted := Sort(index);
    items, drops := CutTop(all, sorted, threshold);
    assert NoDuplicates(sorted[..threshold]);
    rest := Init(sorted[..threshold]);
  }

  lemma CutStep(all: Items, sorted: seq<nat>, size: nat, items: Items, drops: seq<Tx>)
    requires Keyed(all) && IsAscending(sorted) && size > 0
    requires Cutting(all, sorted, size, items, drops)
    ensures sorted[size - 1] in items
    ensures Cutting(all, sorted, size - 1, items - {sorted[size - 1]}, drops + [items[sorted[size - 1]]])
  {
    var top := sorted[size - 1];
    TopIsHighest(items, sorted, size);
    assert Capped(all, items - {top}, drops + [items[top]]) && |items - {top}| == size - 1 by {
      Cuts(all, items, drops, top);
    }
    var less := items - {top};
    assert Keyed(less);
    assert forall n :: n in sorted[..size - 1] <==> n in less;
  }

  lemma KeptIsBelow(all: Items, items: Items, drops: seq<Tx>, t: nat)
    requires Capped(all, items, drops) && all.Keys - items.Keys != {} && t == Lowest(all.Keys - items.Keys)
    ensures Below(all, t) == items
  {
    forall n | n in all && n !in items
      ensures t <= n
    {
      assert n in all.Keys - items.Keys;
    }
    assert t in all.Keys - items.Keys;
  }

  /** What Cap drops is exactly the back of the sorted contents. */
  lemma CacheBack(cache: seq<Tx>, all: Items, items: Items, drops: seq<Tx>)
    requires Keyed(all) && IsFlat(cache, all) && Capped(all, items, drops)
    ensures |drops| <= |cache| && IsFlat(cache[..|cache| - |drops|], items)
  {
    FlatLength(cache, all);
    var gone := all.Keys - items.Keys;
    if gone == {} {
      forall n | n in all
        ensures n in items
      {
        assert n !in gone;
      }
      SameItems(items, all);
      assert cache[..|cache|] == cache;
    } else {
      var t := Lowest(gone);
      assert Below(all, t) == items by {
        KeptIsBelow(all, items, drops, t);
      }
      var k := FlatSplits(cache, all, t);
      FlatLength(cache[..k], items);
    }
  }

  lemma TopIsHighest(items: Items, sorted: seq<nat>, size: nat)
    requires IsAscending(sorted) && 0 < size <= |sorted|
    requires forall n :: n in sorted[..size] <==> n in items
    ensures sorted[size - 1] in items && forall n :: n in items ==> n <= sorted[size - 1]
    ensures forall n :: n in sorted[..size - 1] <==> n in items && n != sorted[size - 1]
  {
    var top := sorted[size - 1];
    assert sorted[..size] == sorted[..size - 1] + [top];
  }

  lemma Cuts(all: Items, items: Items, drops: seq<Tx>, top: nat)
    requires Keyed(all) && Capped(all, items, drops) && top in items && forall n :: n in items ==> n <= top
    ensures Capped(all, items - {top}, drops + [items[top]]) && |items - {top}| == |items| - 1
  {
    var less := items - {top};
    assert less.Keys == items.Keys - {top};
    forall tx
      ensures tx in drops + [items[top]] <==> Holds(all, tx) && tx.nonce !in less
    {
      assert tx in drops <==> Holds(all, tx) && tx.nonce !in items;
    }
  }

  /** The loop of Ready before it looks at nonce `next`. */
  ghost predicate Running(all: Items, items: Items, ready: seq<Tx>, first: nat, next: nat)
  {
    && next == first + |ready|
    && (forall i :: 0 <= i < |ready| ==> Holds(all, ready[i]) && ready[i].nonce == first + i)
    && items == From(all, next)
  }

  method PopRun(all: Items, heap: seq<nat>) returns (items: Items, index: seq<nat>, ready: seq<Tx>)
    requires Indexes(heap, all) && heap != []
    ensures Indexes(index, items) && Runs(all, items, ready) && ready != []
  {
    items, index, ready := all, heap, [];
    IndexLowest(all, heap);
    var first := index[0];
    var next := first;
    while |index| > 0 && index[0] == next
      invariant Indexes(index, items)
      invariant Running(all, items, ready, first, next) && (ready == [] ==> index == heap)
      decreases |index|
    {
      var _, rest := PopLowest(items, index);
      RunStep(all, items, ready, first, next);
      ready, items, index := ready + [items[next]], items - {next}, rest;
      next := next + 1;
    }
    if |index| > 0 {
      IndexLowest(items, index);
    }
    RunEnds(all, items, ready, first, next);
  }

  lemma RunStep(all: Items, items: Items, ready: seq<Tx>, first: nat, next: nat)
    requires Keyed(all) && Running(all, items, ready, first, next) && next in items
    ensures Running(all, items - {next}, ready + [items[next]], first, next + 1)
  {
    assert items - {next} == From(all, next + 1);
  }

  lemma RunEnds(all: Items, items: Items, ready: seq<Tx>, first: nat, next: nat)
    requires Keyed(all) && Running(all, items, ready, first, next) && ready != [] && next !in items
    requires forall n :: n in all ==> first <= n
    ensures Runs(all, items, ready)
  {
    assert next !in all;
  }

  /** Ready and Cap on contents alone, for lists that are not at hand as objects. */
  method ReadyOf(all: Items, start: nat) returns (items: Items, ready: seq<Tx>)
    requires Keyed(all)
    ensures Runs(all, items, ready)
    ensures ready != [] <==> MayStart(all, start)
  {
    var m := new TxSortedMap.Of(all);
    ready := m.Ready(start);
    items := m.items;
  }

  method CapOf(all: Items, threshold: nat) returns (items: Items, drops: seq<Tx>)
    requires Keyed(all)
    ensures Capped(all, items, drops)
    ensures |items| == if |all| <= threshold then |all| else threshold
  {
    var m := new TxSortedMap.Of(all);
    drops := m.Cap(threshold);
    items := m.items;
  }

  method FlattenOf(all: Items) returns (txs: seq<Tx>)
    requires Keyed(all)
    ensures IsFlat(txs, all) && |txs| == |all|
  {
    var m := new TxSortedMap.Of(all);
    txs := m.Flatten();
    FlatLength(txs, all);
  }

  method LastOf(all: Items) returns (tx: Tx)
    requires Keyed(all) && all != map[]
    ensures Holds(all, tx) && forall n :: n in all ==> n <= tx.nonce
  {
    var m := new TxSortedMap.Of(all);
    tx := m.LastElement();
  }

  lemma InOrder(items: Items, sorted: seq<nat>, s: seq<Tx>)
    requires Keyed(items) && IsAscending(sorted) && |s| == |sorted|
    requires forall n :: n in sorted <==> n in items
    requires forall i :: 0 <= i < |s| ==> sorted[i] in items && s[i] == items[sorted[i]]
    ensures IsFlat(s, items)
  {
    forall tx | Holds(items, tx)
      ensures tx in s
    {
      var i :| 0 <= i < |sorted| && sorted[i] == tx.nonce;
      assert s[i] == tx;
    }
  }

  method PopLowest(items: Items, index: seq<nat>) returns (nonce: nat, rest: seq<nat>)
    requires Indexes(index, items) && index != []
    ensures nonce == index[0] && nonce in items && nonce == Lowest(items.Keys)
    ensures Indexes(rest, items - {nonce}) && |rest| == |index| - 1
  {
    IndexLowest(items, index);
    nonce, rest := Pop(index);
  }

  /** Pops nonces off the heap until the threshold is reached. */
  method PopBelow(all: Items, heap: seq<nat>, threshold: nat) returns (items: Items, index: seq<nat>, removed: seq<Tx>)
    requires Indexes(heap, all)
    ensures Indexes(index, items) && Forwarded(all, items, removed, threshold)
  {
    items, index, removed := all, heap, [];
    ghost var low: nat := 0;
    while |index| > 0 && index[0] < threshold
      invariant Indexes(index, items)
      invariant low <= threshold && Forwarded(all, items, removed, low)
      decreases |index|
    {
      var nonce, rest := PopLowest(items, index);
      PopsFront(all, items, removed, low, nonce);
      index, removed, items := rest, removed + [items[nonce]], items - {nonce};
      low := nonce + 1;
    }
    ForwardEnds(all, items, index, removed, low, threshold);
  }

  /** The heap holds exactly the stored nonces, each once. */
  ghost predicate Indexes(index: seq<nat>, items: Items)
  {
    Keyed(items) && IsHeap(index) && NoDuplicates(index) && forall n :: n in index <==> n in items
  }

  /** Everything below `low` has been taken off, in order. */
  ghost predicate Forwarded(all: Items, items: Items, removed: seq<Tx>, low: nat)
  {
    items == From(all, low) && IsFlat(removed, Below(all, low))
  }

  lemma PopsFront(all: Items, items: Items, removed: seq<Tx>, low: nat, n: nat)
    requires Keyed(all) && Forwarded(all, items, removed, low) && n in items && n == Lowest(items.Keys)
    ensures Forwarded(all, items - {n}, removed + [items[n]], n + 1)
  {
    assert items - {n} == From(all, n + 1);
    var more := removed + [items[n]];
    forall tx
      ensures tx in more <==> Holds(Below(all, n + 1), tx)
    {
      assert tx in removed <==> Holds(Below(all, low), tx);
      assert Holds(all, tx) && low <= tx.nonce ==> tx.nonce in items;
    }
    forall i | 0 <= i < |removed|
      ensures more[i].nonce < n
    {
      assert removed[i] in removed;
    }
  }

  lemma ForwardEnds(all: Items, items: Items, index: seq<nat>, removed: seq<Tx>, low: nat, threshold: nat)
    requires Indexes(index, items) && Forwarded(all, items, removed, low) && low <= threshold
    requires index == [] || index[0] >= threshold
    ensures Forwarded(all, items, removed, threshold)
  {
    if index != [] {
      IndexLowest(items, index);
    }
    assert items == From(all, threshold) && Below(all, low) == Below(all, threshold);
  }

  /** What Forward takes off is exactly the front of the sorted contents. */
  lemma CacheFront(cache: seq<Tx>, all: Items, threshold: nat, removed: seq<Tx>)
    requires Keyed(all) && IsFlat(cache, all) && IsFlat(removed, Below(all, threshold))
    ensures |removed| <= |cache| && IsFlat(cache[|removed|..], From(all, threshold))
  {
    var k := FlatSplits(cache, all, threshold);
    FlatIsUnique(removed, cache[..k], Below(all, threshold));
  }

  /** The top of the heap is the lowest nonce. */
  lemma IndexLowest(items: Items, index: seq<nat>)
    requires Indexes(index, items) && index != []
    ensures index[0] in items && index[0] == Lowest(items.Keys)
  {
    assert index[0] in index;
    forall k | k in items
      ensures index[0] <= k
    {
      var i :| 0 <= i < |index| && index[i] == k;
      FirstIsSmallest(index, i);
    }
  }

  /** A replacement has to beat the old transaction in both caps, and by the required percentage. */
  predicate Outbids(tx: Tx, old_: Tx, priceBump: nat)
  {
    && tx.feeCap > old_.feeCap && tx.tipCap > old_.tipCap
    && tx.feeCap >= old_.feeCap * (100 + priceBump) / 100 && tx.tipCap >= old_.tipCap * (100 + priceBump) / 100
  }

  /** The transactions that can be paid for. */
  function Payable(items: Items, costLimit: nat, gasLimit: nat): Items
  {
    Failing(items, OverLimit(costLimit, gasLimit))
  }

  function Unpayable(items: Items, costLimit: nat, gasLimit: nat): Items
  {
    Passing(items, OverLimit(costLimit, gasLimit))
  }

  /** An unpayable transaction stands at a nonce or in front of it. */
  predicate Blocked(items: Items, n: nat, costLimit: nat, gasLimit: nat)
  {
    exists m :: m in items && m <= n && Costly(items[m], costLimit, gasLimit)
  }

  /** The transactions with nothing unpayable at or in front of them. */
  function Executable(items: Items, costLimit: nat, gasLimit: nat): (r: Items)
    ensures forall n :: n in r <==> n in items && !Blocked(items, n, costLimit, gasLimit)
    ensures forall n :: n in r ==> r[n] == items[n]
  {
    map n | n in items && !Blocked(items, n, costLimit, gasLimit) :: items[n]
  }

  ghost predicate Bounded(items: Items, costcap: nat, gascap: nat)
  {
    forall n :: n in items ==> !Costly(items[n], costcap, gascap)
  }

  class TxList {
    const strict: bool
    const txs: TxSortedMap
    var costcap: nat
    var gascap: nat

    /** The caps bound every transaction in the list. */
    ghost predicate Valid()
      reads this, txs
    {
      txs.Valid() && Bounded(txs.items, costcap, gascap)
    }

    constructor (strict: bool)
      ensures Valid() && this.strict == strict && txs.items == map[] && fresh(txs)
    {
      this.strict, costcap, gascap := strict, 0, 0;
      txs := new TxSortedMap();
    }

    method Add(tx: Tx, priceBump: nat) returns (inserted: bool, old_: Option<Tx>)
      requires Valid() && tx.nonce < MAX_UINT64
      modifies this, txs
      ensures Valid()
      ensures inserted <==> tx.nonce !in old(txs.items) || Outbids(tx, old(txs.items)[tx.nonce], priceBump)
      ensures txs.items == if inserted then old(txs.items)[tx.nonce := tx] else old(txs.items)
      ensures old_ == if inserted && tx.nonce in old(txs.items) then Some(old(txs.items)[tx.nonce]) else None
    {
      old_ := None;
      if tx.nonce in txs.items {
        var prior := txs.items[tx.nonce];
        if prior.feeCap >= tx.feeCap || prior.tipCap >= tx.tipCap {
          return false, None;
        }
        var thresholdFeeCap := (100 + priceBump) * prior.feeCap / 100;
        var thresholdTip := (100 + priceBump) * prior.tipCap / 100;
        if tx.feeCap < thresholdFeeCap || tx.tipCap < thresholdTip {
          return false, None;
        }
        old_ := Some(prior);
      }
      txs.Put(tx);
      if costcap < tx.cost {
        costcap := tx.cost;
      }
      if gascap < tx.gas {
        gascap := tx.gas;
      }
      inserted := true;
    }

    method Forward(threshold: nat) returns (removed: seq<Tx>)
      requires Valid()
      modifies txs
      ensures Valid() && txs.items == From(old(txs.items), threshold)
      ensures IsFlat(removed, Below(old(txs.items), threshold))
    {
      removed := txs.Forward(threshold);
    }

    /** The caps decide without a scan when nothing can be too costly; the outcome is always that of the full scan.
        In strict mode what comes after a removed transaction is taken out too. */
    method Filter(costLimit: nat, gasLimit: nat) returns (removed: seq<Tx>, invalids: seq<Tx>)
      requires Valid()
      modifies this, txs
      ensures Valid()
      ensures Filtered(old(txs.items), costLimit, gasLimit, strict, txs.items, removed, invalids)
    {
      ghost var all := txs.items;
      if costcap <= costLimit && gascap <= gasLimit {
        NothingCostly(all, costLimit, gasLimit, strict);
        return [], [];
      }
      costcap, gascap := costLimit, gasLimit;
      removed := txs.Filter(OverLimit(costLimit, gasLimit));
      if |removed| == 0 {
        NothingRemoved(all, costLimit, gasLimit, removed, strict);
        return removed, [];
      }
      invalids := FinishFilter(all, costLimit, gasLimit, removed);
    }

    method FinishFilter(ghost all: Items, ghost costLimit: nat, ghost gasLimit: nat, removed: seq<Tx>)
      returns (invalids: seq<Tx>)
      requires txs.Valid() && Keyed(all) && removed != []
      requires txs.items == Payable(all, costLimit, gasLimit) && Lists(removed, Unpayable(all, costLimit, gasLimit))
      modifies txs
      ensures txs.Valid() && Bounded(txs.items, costLimit, gasLimit)
      ensures Filtered(all, costLimit, gasLimit, strict, txs.items, removed, invalids)
    {
      if strict {
        invalids := DropAfter(all, costLimit, gasLimit, removed);
      } else {
        PayableOnly(all, costLimit, gasLimit);
        invalids := [];
      }
      txs.Reheap();
    }

    /** Takes out what comes after the lowest nonce removed. */
    method DropAfter(ghost all: Items, ghost costLimit: nat, ghost gasLimit: nat, removed: seq<Tx>)
      returns (invalids: seq<Tx>)
      requires txs.Valid() && Keyed(all) && removed != []
      requires txs.items == Payable(all, costLimit, gasLimit) && Lists(removed, Unpayable(all, costLimit, gasLimit))
      modifies txs
      ensures txs.Valid() && Bounded(txs.items, costLimit, gasLimit)
      ensures Filtered(all, costLimit, gasLimit, true, txs.items, removed, invalids)
    {
      var lowest := LowestOf(removed);
      Invalidated(all, costLimit, gasLimit, removed, lowest);
      invalids := txs.Filter(After(lowest));
    }

    method Cap(threshold: nat) returns (drops: seq<Tx>)
      requires Valid()
      modifies txs
      ensures Valid() && Capped(old(txs.items), txs.items, drops)
      ensures |txs.items| == if |old(txs.items)| <= threshold then |old(txs.items)| else threshold
    {
      drops := txs.Cap(threshold);
    }

    method Remove(tx: Tx) returns (removed: bool, invalids: seq<Tx>)
      requires Valid()
      modifies txs
      ensures Valid() && removed == (tx.nonce in old(txs.items))
      ensures !removed ==> txs.items == old(txs.items) && invalids == []
      ensures removed && strict ==>
        txs.items == Below(old(txs.items), tx.nonce) && Lists(invalids, From(old(txs.items), tx.nonce + 1))
      ensures removed && !strict ==> txs.items == old(txs.items) - {tx.nonce} && invalids == []
    {
      ghost var all := txs.items;
      var found := txs.Remove(tx.nonce);
      if !found {
        return false, [];
      }
      if !strict {
        return true, [];
      }
      CutsAfter(all, tx.nonce);
      invalids := txs.Filter(After(tx.nonce));
      assert txs.items == Below(all, tx.nonce);
      removed := true;
    }

    method Ready(start: nat) returns (ready: seq<Tx>)
      requires Valid()
      modifies txs
      ensures Valid() && Runs(old(txs.items), txs.items, ready)
      ensures ready != [] <==> MayStart(old(txs.items), start)
    {
      ready := txs.Ready(start);
    }
  }

  /** The outcome of a full scan: what cannot be paid for is removed, and in strict mode what comes after it as well. */
  ghost predicate Filtered(all: Items, costLimit: nat, gasLimit: nat, strict: bool, items: Items, removed: seq<Tx>,
                           invalids: seq<Tx>)
  {
    && Lists(removed, Unpayable(all, costLimit, gasLimit))
    && items == (if strict then Executable(all, costLimit, gasLimit) else Payable(all, costLimit, gasLimit))
    && Lists(invalids, Payable(all, costLimit, gasLimit) - items.Keys)
  }

  lemma NothingCostly(items: Items, costLimit: nat, gasLimit: nat, strict: bool)
    requires Bounded(items, costLimit, gasLimit)
    ensures Filtered(items, costLimit, gasLimit, strict, items, [], [])
  {
    SameItems(Unpayable(items, costLimit, gasLimit), map[]);
    SameItems(Payable(items, costLimit, gasLimit), items);
    SameItems(Executable(items, costLimit, gasLimit), items);
    SameItems(Payable(items, costLimit, gasLimit) - items.Keys, map[]);
  }

  lemma PayableOnly(all: Items, costLimit: nat, gasLimit: nat)
    ensures Bounded(Payable(all, costLimit, gasLimit), costLimit, gasLimit)
    ensures Lists([], Payable(all, costLimit, gasLimit) - Payable(all, costLimit, gasLimit).Keys)
  {
    SameItems(Payable(all, costLimit, gasLimit) - Payable(all, costLimit, gasLimit).Keys, map[]);
  }

  lemma NothingRemoved(items: Items, costLimit: nat, gasLimit: nat, removed: seq<Tx>, strict: bool)
    requires Lists(removed, Unpayable(items, costLimit, gasLimit)) && |removed| == 0
    ensures Bounded(items, costLimit, gasLimit) && Payable(items, costLimit, gasLimit) == items
    ensures Filtered(items, costLimit, gasLimit, strict, items, removed, [])
  {
    var none := Unpayable(items, costLimit, gasLimit);
    assert |none.Keys| == 0;
    forall n | n in items
      ensures !Costly(items[n], costLimit, gasLimit)
    {
      assert n !in none.Keys;
    }
    NothingCostly(items, costLimit, gasLimit, strict);
    SameItems(Payable(items, costLimit, gasLimit), items);
  }

  method LowestOf(txs: seq<Tx>) returns (lowest: nat)
    requires txs != [] && forall tx :: tx in txs ==> tx.nonce < MAX_UINT64
    ensures (exists tx :: tx in txs && tx.nonce == lowest) && forall tx :: tx in txs ==> lowest <= tx.nonce
  {
    lowest := MAX_UINT64;
    for i := 0 to |txs|
      invariant i == 0 ==> lowest == MAX_UINT64
      invariant i > 0 ==> exists tx :: tx in txs && tx.nonce == lowest
      invariant forall k :: 0 <= k < i ==> lowest <= txs[k].nonce
    {
      if lowest > txs[i].nonce {
        lowest := txs[i].nonce;
      }
    }
  }

  /** With the lowest unpayable nonce known, what stands in front of it is exactly what nothing blocks. */
  lemma BlockedFrom(items: Items, costLimit: nat, gasLimit: nat, lowest: nat, n: nat)
    requires lowest in items && Costly(items[lowest], costLimit, gasLimit) && n in items
    requires forall m :: m in items && Costly(items[m], costLimit, gasLimit) ==> lowest <= m
    ensures Blocked(items, n, costLimit, gasLimit) <==> n >= lowest
  {
  }

  /** What comes after the lowest removed nonce is exactly what an unpayable transaction stands in front of. */
  lemma Invalidated(items: Items, costLimit: nat, gasLimit: nat, removed: seq<Tx>, lowest: nat)
    requires Keyed(items) && Lists(removed, Unpayable(items, costLimit, gasLimit))
    requires (exists tx :: tx in removed && tx.nonce == lowest) && forall tx :: tx in removed ==> lowest <= tx.nonce
    ensures Failing(Payable(items, costLimit, gasLimit), After(lowest)) == Executable(items, costLimit, gasLimit)
    ensures Passing(Payable(items, costLimit, gasLimit), After(lowest)) ==
            Payable(items, costLimit, gasLimit) - Executable(items, costLimit, gasLimit).Keys
    ensures Bounded(Executable(items, costLimit, gasLimit), costLimit, gasLimit)
  {
    LowestCostly(items, costLimit, gasLimit, removed, lowest);
    InvalidatedAt(items, costLimit, gasLimit, lowest);
  }

  lemma InvalidatedAt(items: Items, costLimit: nat, gasLimit: nat, lowest: nat)
    requires Keyed(items) && lowest in items && Costly(items[lowest], costLimit, gasLimit)
    requires forall m :: m in items && Costly(items[m], costLimit, gasLimit) ==> lowest <= m
    ensures Failing(Payable(items, costLimit, gasLimit), After(lowest)) == Executable(items, costLimit, gasLimit)
    ensures Passing(Payable(items, costLimit, gasLimit), After(lowest)) ==
            Payable(items, costLimit, gasLimit) - Executable(items, costLimit, gasLimit).Keys
    ensures Bounded(Executable(items, costLimit, gasLimit), costLimit, gasLimit)
  {
    var payable, executable := Payable(items, costLimit, gasLimit), Executable(items, costLimit, gasLimit);
    forall n
      ensures n in executable <==> n in payable && n <= lowest
      ensures n in executable ==> executable[n] == items[n]
    {
      if n in items {
        BlockedFrom(items, costLimit, gasLimit, lowest, n);
      }
    }
    SameItems(Failing(payable, After(lowest)), executable);
    SameItems(Passing(payable, After(lowest)), payable - executable.Keys);
  }

  lemma SameItems(a: Items, b: Items)
    requires forall n :: n in a <==> n in b
    requires forall n :: n in a ==> a[n] == b[n]
    ensures a == b
  {
  }

  lemma CutsAfter(all: Items, nonce: nat)
    requires Keyed(all)
    ensures Failing(all - {nonce}, After(nonce)) == Below(all, nonce)
    ensures Passing(all - {nonce}, After(nonce)) == From(all, nonce + 1)
  {
    SameItems(Failing(all - {nonce}, After(nonce)), Below(all, nonce));
    SameItems(Passing(all - {nonce}, After(nonce)), From(all, nonce + 1));
  }

  lemma LowestCostly(items: Items, costLimit: nat, gasLimit: nat, removed: seq<Tx>, lowest: nat)
    requires Keyed(items) && Lists(removed, Unpayable(items, costLimit, gasLimit))
    requires (exists tx :: tx in removed && tx.nonce == lowest) && forall tx :: tx in removed ==> lowest <= tx.nonce
    ensures lowest in items && Costly(items[lowest], costLimit, gasLimit)
    ensures forall m :: m in items && Costly(items[m], costLimit, gasLimit) ==> lowest <= m
  {
    var first :| first in removed && first.nonce == lowest;
    assert Holds(Unpayable(items, costLimit, gasLimit), first);
    forall m | m in items && Costly(items[m], costLimit, gasLimit)
      ensures lowest <= m
    {
      assert Holds(Unpayable(items, costLimit, gasLimit), items[m]);
    }
  }
}
