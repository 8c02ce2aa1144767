/** The two price heaps over the remote transactions of the pool, from which the cheapest are evicted. */
module TxPricedLists {
  import opened Options
  import NonceHeaps
  import opened TxLists

  const URGENT_RATIO := 4
  const FLOATING_RATIO := 1
  const TX_SLOT_SIZE := 32 * 1024

  function NumSlots(tx: Tx): nat
  {
    (tx.size + TX_SLOT_SIZE - 1) / TX_SLOT_SIZE
  }

  /** What a miner earns per gas at a base fee; it may be negative. */
  function EffectiveTip(tx: Tx, baseFee: nat): int
  {
    if tx.tipCap < tx.feeCap - baseFee then tx.tipCap else tx.feeCap - baseFee
  }

  function Compare(a: int, b: int): int
  {
    if a < b then -1 else if a > b then 1 else 0
  }

  /** By effective tip when there is a base fee, then by fee cap, then by tip cap. */
  function Cmp(baseFee: Option<nat>, a: Tx, b: Tx): int
  {
    var tips := if baseFee.Some? then Compare(EffectiveTip(a, baseFee.value), EffectiveTip(b, baseFee.value)) else 0;
    if tips != 0 then tips
    else if a.feeCap != b.feeCap then Compare(a.feeCap, b.feeCap)
    else Compare(a.tipCap, b.tipCap)
  }

  /** Of equal prices the higher nonce goes first. */
  predicate Less(baseFee: Option<nat>, a: Tx, b: Tx)
  {
    var c := Cmp(baseFee, a, b);
    c == -1 || (c == 0 && a.nonce > b.nonce)
  }

  lemma LessIsTransitive(baseFee: Option<nat>, a: Tx, b: Tx, c: Tx)
    requires !Less(baseFee, b, a) && !Less(baseFee, c, b)
    ensures !Less(baseFee, c, a)
  {
  }

  ghost predicate IsHeap(baseFee: Option<nat>, h: seq<Tx>)
  {
    forall i {:trigger NonceHeaps.Parent(i)} :: 0 < i < |h| ==> !Less(baseFee, h[i], h[NonceHeaps.Parent(i)])
  }

  ghost predicate IsSorted(baseFee: Option<nat>, h: seq<Tx>)
  {
    forall i, j :: 0 <= i < j < |h| ==> !Less(baseFee, h[j], h[i])
  }

  /** Nothing in a heap is worse than its first. */
  lemma {:induction false} FirstIsWorst(baseFee: Option<nat>, h: seq<Tx>, i: nat)
    requires IsHeap(baseFee, h) && i < |h|
    ensures !Less(baseFee, h[i], h[0]) && Cmp(baseFee, h[0], h[i]) <= 0
    decreases i
  {
    if i > 0 {
      FirstIsWorst(baseFee, h, NonceHeaps.Parent(i));
      LessIsTransitive(baseFee, h[0], h[NonceHeaps.Parent(i)], h[i]);
    }
  }

  ghost predicate AllAbove(baseFee: Option<nat>, h: seq<Tx>, x: Tx)
  {
    forall y :: y in h ==> !Less(baseFee, y, x)
  }

  lemma Prepend(baseFee: Option<nat>, h: seq<Tx>, x: Tx)
    requires IsSorted(baseFee, h) && AllAbove(baseFee, h, x)
    ensures IsSorted(baseFee, [x] + h)
  {
    var r := [x] + h;
    forall i, j | 0 <= i < j < |r|
      ensures !Less(baseFee, r[j], r[i])
    {
      assert r[j] == h[j - 1] && h[j - 1] in h;
    }
  }

  lemma FirstBelowAll(baseFee: Option<nat>, h: seq<Tx>, x: Tx)
    requires IsSorted(baseFee, h) && h != []
    ensures !Less(baseFee, h[0], x) ==> AllAbove(baseFee, h, x)
    ensures Less(baseFee, h[0], x) ==> !Less(baseFee, x, h[0])
    ensures AllAbove(baseFee, h[1..], h[0])
  {
    forall y | y in h && !Less(baseFee, h[0], x)
      ensures !Less(baseFee, y, x)
    {
      var k :| 0 <= k < |h| && h[k] == y;
      LessIsTransitive(baseFee, x, h[0], y);
    }
  }

  method Insert(baseFee: Option<nat>, h: seq<Tx>, x: Tx) returns (r: seq<Tx>)
    requires IsSorted(baseFee, h)
    ensures IsSorted(baseFee, r) && multiset(r) == multiset(h) + multiset{x}
    ensures forall y :: y in r <==> y in h || y == x
  {
    if h == [] {
      return [x];
    }
    FirstBelowAll(baseFee, h, x);
    if !Less(baseFee, h[0], x) {
      Prepend(baseFee, h, x);
      return [x] + h;
    }
    var rest := Insert(baseFee, h[1..], x);
    assert h == [h[0]] + h[1..];
    Prepend(baseFee, rest, h[0]);
    r := [h[0]] + rest;
  }

  /** heap.Init, by what it promises; a sorted list is one heap. */
  method Init(baseFee: Option<nat>, h: seq<Tx>) returns (r: seq<Tx>)
    ensures IsHeap(baseFee, r) && multiset(r) == multiset(h)
  {
    r := [];
    for i := 0 to |h|
      invariant IsSorted(baseFee, r) && multiset(r) == multiset(h[..i])
    {
      r := Insert(baseFee, r, h[i]);
      assert h[..i + 1] == h[..i] + [h[i]];
    }
    assert h[..|h|] == h;
  }

  /** heap.Push. */
  method Push(baseFee: Option<nat>, h: seq<Tx>, x: Tx) returns (r: seq<Tx>)
    ensures IsHeap(baseFee, r) && multiset(r) == multiset(h) + multiset{x}
    ensures |r| == |h| + 1 && forall t :: t in r <==> t in h || t == x
  {
    r := Init(baseFee, h + [x]);
    SameElements(r, h + [x]);
  }

  /** heap.Pop. */
  method Pop(baseFee: Option<nat>, h: seq<Tx>) returns (x: Tx, r: seq<Tx>)
    requires IsHeap(baseFee, h) && h != []
    ensures IsHeap(baseFee, r) && x == h[0] && multiset(h) == multiset(r) + multiset{x}
    ensures |r| == |h| - 1 && forall t :: t in h <==> t in r || t == x
  {
    x := h[0];
    r := Init(baseFee, h[1..]);
    assert h == [x] + h[1..];
    SameElements(r, h[1..]);
  }

  lemma SameElements(a: seq<Tx>, b: seq<Tx>)
    requires multiset(a) == multiset(b)
    ensures |a| == |b| && forall t :: t in a <==> t in b
  {
    assert |a| == |multiset(a)| && |b| == |multiset(b)|;
    assert forall t :: t in a <==> t in multiset(a);
    assert forall t :: t in b <==> t in multiset(b);
  }

  ghost function SlotsOf(txs: seq<Tx>): nat
  {
    if txs == [] then 0 else SlotsOf(txs[..|txs| - 1]) + NumSlots(txs[|txs| - 1])
  }

  class TxPricedList {
    var urgent: seq<Tx>
    var floating: seq<Tx>
    var baseFee: Option<nat>
    var stales: int

    ghost predicate Valid()
      reads this
    {
      IsHeap(baseFee, urgent) && IsHeap(None, floating)
    }

    ghost predicate Tracks(tx: Tx)
      reads this
    {
      tx in urgent || tx in floating
    }

    constructor ()
      ensures Valid() && urgent == floating == []
    {
      urgent, floating, baseFee, stales := [], [], None, 0;
    }

    method Put(tx: Tx, local: bool)
      requires Valid()
      modifies this`urgent
      ensures Valid()
      ensures multiset(urgent) == if local then multiset(old(urgent)) else multiset(old(urgent)) + multiset{tx}
      ensures forall t :: Tracks(t) <==> old(Tracks(t)) || (t == tx && !local)
    {
      if local {
        return;
      }
      urgent := Push(baseFee, urgent, tx);
    }

    /** Rebuilds the heaps from the remote transactions: each is tracked once, the worst fifth in the floating heap. */
    method Reheap(remotes: set<Tx>)
      modifies this`urgent, this`floating, this`stales
      ensures Valid() && stales == 0
      ensures multiset(urgent) + multiset(floating) == multiset(remotes) && |floating| == |remotes| / 5
      ensures forall f, u :: f in floating && u in urgent ==> Cmp(baseFee, f, u) <= 0
    {
      var txs := Gather(remotes);
      var all := Init(baseFee, txs);
      var count := |all| * FLOATING_RATIO / (URGENT_RATIO + FLOATING_RATIO);
      var worst: seq<Tx> := [];
      assert |all| == |multiset(all)| && |multiset(remotes)| == |remotes|;
      while |worst| < count
        invariant |worst| <= count && |worst| + |all| == |remotes| && IsHeap(baseFee, all)
        invariant multiset(all) + multiset(worst) == multiset(remotes)
        invariant forall f, u :: f in worst && u in all ==> Cmp(baseFee, f, u) <= 0
      {
        forall u | u in all
          ensures Cmp(baseFee, all[0], u) <= 0
        {
          var i :| 0 <= i < |all| && all[i] == u;
          FirstIsWorst(baseFee, all, i);
        }
        var tx, rest := Pop(baseFee, all);
        assert forall u :: u in rest ==> u in multiset(all);
        worst, all := worst + [tx], rest;
      }
      urgent, stales := all, 0;
      floating := Init(None, worst);
      assert |floating| == |multiset(floating)|;
      assert forall f :: f in floating ==> f in multiset(worst);
    }

    /** Counts entries gone stale, and rebuilds once they are more than a quarter. Nothing live is lost either way. */
    method Removed(count: nat, remotes: set<Tx>)
      requires Valid()
      modifies this`urgent, this`floating, this`stales
      ensures Valid()
      ensures forall tx :: tx in remotes && old(Tracks(tx)) ==> Tracks(tx)
    {
      stales := stales + count;
      if stales <= (|urgent| + |floating|) / 4 {
        return;
      }
      Reheap(remotes);
      assert forall tx :: tx in remotes ==> tx in multiset(urgent) + multiset(floating);
    }

    method SetBaseFee(fee: nat, remotes: set<Tx>)
      modifies this
      ensures Valid() && baseFee == Some(fee) && forall tx :: tx in remotes ==> Tracks(tx)
    {
      baseFee := Some(fee);
      Reheap(remotes);
      assert forall tx :: tx in remotes ==> tx in multiset(urgent) + multiset(floating);
    }

    /** A transaction is underpriced when it beats no live transaction in any heap that has one, and one has. */
    method Underpriced(tx: Tx, remotes: set<Tx>) returns (r: bool)
      requires Valid()
      modifies this`urgent, this`floating, this`stales
      ensures Valid() && forall t :: t in remotes ==> (Tracks(t) <==> old(Tracks(t)))
      ensures r <==>
        && NoneWorse(baseFee, old(urgent), remotes, tx) && NoneWorse(None, old(floating), remotes, tx)
        && (SomeLive(old(urgent), remotes) || SomeLive(old(floating), remotes))
    {
      var top := Clean(baseFee, urgent, remotes);
      stales := stales - (|urgent| - |top|);
      urgent := top;
      if |urgent| != 0 {
        TopDecides(baseFee, old(urgent), urgent, remotes, tx);
        if Cmp(baseFee, urgent[0], tx) < 0 {
          return false;
        }
      }
      top := Clean(None, floating, remotes);
      stales := stales - (|floating| - |top|);
      floating := top;
      if |floating| != 0 {
        TopDecides(None, old(floating), floating, remotes, tx);
        if Cmp(None, floating[0], tx) < 0 {
          return false;
        }
      }
      r := |urgent| != 0 || |floating| != 0;
    }

    /** Takes the cheapest live remote transactions off the heaps until they free the wanted slots. It drops live
        remotes only, none of them dearer than anything left in the floating heap; every live one it does not drop stays
        tracked; and when it cannot free enough it puts all back, unless forced. */
    method Discard(wanted: int, force: bool, remotes: set<Tx>) returns (drop: seq<Tx>, ok: bool, ghost all: seq<Tx>)
      requires Valid()
      modifies this`urgent, this`floating, this`stales
      ensures Valid() && forall tx :: tx in drop ==> tx in remotes
      ensures forall tx :: tx in remotes && old(Tracks(tx)) ==> Tracks(tx) || tx in drop
      ensures Cheaper(drop, multiset(floating))
      ensures ok && !force ==> SlotsOf(drop) >= wanted
      ensures force ==> ok && (SlotsOf(drop) >= wanted || urgent == floating == [])
      ensures !ok ==> drop == [] && floating == [] && multiset(urgent) == multiset(all) && SlotsOf(all) < wanted
      ensures !ok ==> forall tx :: tx in all ==> tx in remotes
    {
      drop := [];
      var slots := wanted;
      ghost var late: Option<Tx> := None;
      while slots > 0
        invariant Valid() && (forall tx :: tx in drop ==> tx in remotes)
        invariant forall tx :: tx in remotes && old(Tracks(tx)) ==> Tracks(tx) || tx in drop
        invariant slots == wanted - SlotsOf(drop)
        invariant InTurn(drop, floating, |urgent|, late) && (late.Some? ==> slots > 0 && late.value in remotes)
        decreases |urgent| + |floating|, |urgent|
      {
        if |urgent| * FLOATING_RATIO > |floating| * URGENT_RATIO {
          late := MoveOne(remotes, drop);
        } else {
          if |floating| == 0 {
            break;
          }
          var tx, rest := Pop(None, floating);
          NextInTurn(drop, floating, rest, |urgent|, late);
          floating := rest;
          if tx !in remotes {
            stales := stales - 1;
            continue;
          }
          late := None;
          drop := drop + [tx];
          assert drop[..|drop| - 1] + [tx] == drop;
          slots := slots - NumSlots(tx);
        }
      }
      if slots > 0 && !force {
        urgent := PushAll(baseFee, urgent, drop);
        return [], false, drop;
      }
      return drop, true, drop;
    }

    /** The worst urgent transaction becomes a floating one, or goes if it is stale. */
    method MoveOne(remotes: set<Tx>, ghost drop: seq<Tx>) returns (ghost late: Option<Tx>)
      requires Valid() && |urgent| > 4 * |floating| && InTurn(drop, floating, |urgent|, None)
      modifies this`urgent, this`floating, this`stales
      ensures Valid() && |urgent| == |old(urgent)| - 1 && |floating| <= |old(floating)| + 1
      ensures forall tx :: tx in remotes && old(Tracks(tx)) ==> Tracks(tx)
      ensures InTurn(drop, floating, |urgent|, late) && (late.Some? ==> late.value in remotes)
    {
      var tx, rest := Pop(baseFee, urgent);
      urgent := rest;
      late := None;
      if tx !in remotes {
        stales := stales - 1;
        return;
      }
      var more := Push(None, floating, tx);
      late := Comes(drop, floating, more, tx);
      floating := more;
    }
  }

  /** No dropped transaction is dearer than any of these. */
  ghost predicate Cheaper(drop: seq<Tx>, txs: multiset<Tx>)
  {
    forall d, t :: d in drop && t in txs ==> Cmp(None, d, t) <= 0
  }

  /** The order in which Discard works: nothing dropped is dearer than anything floating, but for one transaction that may
      just have come from the urgent heap. That one is cheaper than all others floating, and since the floating heap is
      large enough again, it is the next to go. */
  ghost predicate InTurn(drop: seq<Tx>, floating: seq<Tx>, urgent: nat, late: Option<Tx>)
  {
    if late.None? then Cheaper(drop, multiset(floating)) && (drop != [] ==> urgent <= 4 * (|floating| + 1))
    else
      && urgent <= 4 * |floating| && late.value in multiset(floating)
      && Cheaper(drop, multiset(floating) - multiset{late.value})
      && (exists d :: d in drop && Cmp(None, late.value, d) < 0)
  }

  lemma Comes(drop: seq<Tx>, floating: seq<Tx>, more: seq<Tx>, tx: Tx) returns (late: Option<Tx>)
    requires Cheaper(drop, multiset(floating)) && multiset(more) == multiset(floating) + multiset{tx}
    ensures late.None? ==> Cheaper(drop, multiset(more))
    ensures late.Some? ==> late.value == tx && exists d :: d in drop && Cmp(None, tx, d) < 0
  {
    if d :| d in drop && Cmp(None, tx, d) < 0 {
      late := Some(tx);
    } else {
      late := None;
      forall d, t | d in drop && t in multiset(more)
        ensures Cmp(None, d, t) <= 0
      {
        assert t in multiset(floating) || t == tx;
        assert !(Cmp(None, tx, d) < 0);
      }
    }
  }

  /** What is taken off the floating heap is no dearer than what is left; if one has come late it is that one. */
  lemma NextInTurn(drop: seq<Tx>, floating: seq<Tx>, rest: seq<Tx>, urgent: nat, late: Option<Tx>)
    requires floating != [] && IsHeap(None, floating) && InTurn(drop, floating, urgent, late)
    requires multiset(floating) == multiset(rest) + multiset{floating[0]}
    ensures Cheaper(drop + [floating[0]], multiset(rest)) && (late.Some? ==> late.value == floating[0])
  {
    forall t | t in multiset(floating)
      ensures Cmp(None, floating[0], t) <= 0
    {
      var i :| 0 <= i < |floating| && floating[i] == t;
      FirstIsWorst(None, floating, i);
    }
    if late.Some? {
      LateIsFirst(drop, floating, urgent, late);
    }
    forall d, t | d in drop && t in multiset(rest)
      ensures Cmp(None, d, t) <= 0
    {
      if late.Some? {
        assert multiset(rest) == multiset(floating) - multiset{late.value};
      } else {
        assert t in multiset(floating);
      }
    }
    forall t | t in multiset(rest)
      ensures Cmp(None, floating[0], t) <= 0
    {
      assert t in multiset(floating);
    }
  }

  lemma LateIsFirst(drop: seq<Tx>, floating: seq<Tx>, urgent: nat, late: Option<Tx>)
    requires floating != [] && InTurn(drop, floating, urgent, late) && late.Some?
    requires forall t :: t in multiset(floating) ==> Cmp(None, floating[0], t) <= 0
    ensures late.value == floating[0]
  {
    assert floating[0] in multiset(floating);
    assert late.value != floating[0] ==> floating[0] in multiset(floating) - multiset{late.value};
    if late.value != floating[0] {
      var d :| d in drop && Cmp(None, late.value, d) < 0;
    }
  }

  method PushAll(baseFee: Option<nat>, h: seq<Tx>, txs: seq<Tx>) returns (r: seq<Tx>)
    requires IsHeap(baseFee, h)
    ensures IsHeap(baseFee, r) && multiset(r) == multiset(h) + multiset(txs)
    ensures forall t :: t in r <==> t in h || t in txs
  {
    r := h;
    for i := 0 to |txs|
      invariant IsHeap(baseFee, r) && multiset(r) == multiset(h) + multiset(txs[..i])
    {
      r := Push(baseFee, r, txs[i]);
      assert txs[..i + 1] == txs[..i] + [txs[i]];
    }
    assert txs[..|txs|] == txs;
    SameElements(r, h + txs);
  }

  /** Pops stale entries off the top of a heap. */
  method Clean(baseFee: Option<nat>, h: seq<Tx>, remotes: set<Tx>) returns (r: seq<Tx>)
    requires IsHeap(baseFee, h)
    ensures IsHeap(baseFee, r) && (r != [] ==> r[0] in remotes)
    ensures (forall tx :: tx in r ==> tx in h) && forall tx :: tx in h && tx in remotes ==> tx in r
  {
    r := h;
    while |r| > 0 && r[0] !in remotes
      invariant IsHeap(baseFee, r)
      invariant (forall tx :: tx in r ==> tx in h) && forall tx :: tx in h && tx in remotes ==> tx in r
      decreases |r|
    {
      var tx, rest := Pop(baseFee, r);
      r := rest;
    }
  }

  /** No live transaction of a heap is worse than the given one. */
  ghost predicate NoneWorse(baseFee: Option<nat>, h: seq<Tx>, remotes: set<Tx>, tx: Tx)
  {
    forall t :: t in h && t in remotes ==> Cmp(baseFee, t, tx) >= 0
  }

  ghost predicate SomeLive(h: seq<Tx>, remotes: set<Tx>)
  {
    exists t :: t in h && t in remotes
  }

  /** The top of a cleaned heap decides for all of its live entries. */
  lemma TopDecides(baseFee: Option<nat>, h: seq<Tx>, r: seq<Tx>, remotes: set<Tx>, tx: Tx)
    requires IsHeap(baseFee, r) && r != [] && r[0] in remotes
    requires (forall t :: t in r ==> t in h) && forall t :: t in h && t in remotes ==> t in r
    ensures Cmp(baseFee, r[0], tx) >= 0 <==> NoneWorse(baseFee, h, remotes, tx)
  {
    forall t | t in h && t in remotes && Cmp(baseFee, r[0], tx) >= 0
      ensures Cmp(baseFee, t, tx) >= 0
    {
      var i :| 0 <= i < |r| && r[i] == t;
      FirstIsWorst(baseFee, r, i);
    }
  }

  method Gather(remotes: set<Tx>) returns (txs: seq<Tx>)
    ensures multiset(txs) == multiset(remotes)
  {
    txs := [];
    var left := remotes;
    while left != {}
      invariant left <= remotes && multiset(txs) == multiset(remotes - left)
      decreases |left|
    {
      var tx :| tx in left;
      assert remotes - (left - {tx}) == (remotes - left) + {tx};
      txs, left := txs + [tx], left - {tx};
    }
    assert remotes - left == remotes;
  }
}
