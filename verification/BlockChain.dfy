/** Reorganisation of the block chain: the canonical map, the transaction index and the head marker. */
module BlockChain {
  import opened Options
  import opened Chain

  /** Where the index says a transaction is: the number of its block. */
  type Index = map<Hash, nat>

  ghost predicate OnChain(db: Blocks, canonical: map<nat, Hash>, tx: Hash)
  {
    exists n: nat :: n in canonical && canonical[n] in db && tx in db[canonical[n]].txs
  }

  /** Every transaction of the chain is indexed at the number of its block. */
  ghost predicate Indexed(db: Blocks, canonical: map<nat, Hash>, index: Index)
  {
    forall n: nat, tx :: n in canonical && canonical[n] in db && tx in db[canonical[n]].txs ==>
      tx in index && index[tx] == n
  }

  /** The index holds the transactions of the chain and no others. */
  ghost predicate IndexFor(db: Blocks, canonical: map<nat, Hash>, index: Index)
  {
    Indexed(db, canonical, index) && forall tx :: tx in index ==> OnChain(db, canonical, tx)
  }

  /** No transaction sits in two blocks of one chain, as the nonces of an account guarantee. */
  ghost predicate OncePerChain(db: Blocks)
  {
    forall c: map<nat, Hash>, head :: CanonicalFor(db, c, head) ==> Distinct(db, c)
  }

  ghost predicate Distinct(db: Blocks, c: map<nat, Hash>)
  {
    forall m: nat, n: nat, tx ::
      m in c && n in c && c[m] in db && c[n] in db && tx in db[c[m]].txs && tx in db[c[n]].txs ==> m == n
  }

  /** WriteTxLookupEntriesByBlock. */
  function WriteEntries(index: Index, b: Block): (r: Index)
    ensures r.Keys == index.Keys + set tx | tx in b.txs
    ensures forall tx :: tx in r ==> r[tx] == if tx in b.txs then b.number else index[tx]
  {
    index + map tx | tx in b.txs :: b.number
  }

  /** Going up from a block one meets the canonical chain before a gap. */
  predicate Meets(db: Blocks, canonical: map<nat, Hash>, b: Block)
    decreases b.number
  {
    || Read(canonical, b.number) == b.hash
    || (b.number > 0 && var p := Lookup(db, b.parent, b.number - 1);
        p.Some? && Meets(db, canonical, p.value))
  }

  /** Blocks from `top` downwards, each followed by its parent, ending just above `next`. */
  ghost predicate Down(db: Blocks, chain: seq<Block>, top: Block, next: Block)
  {
    && (forall i :: 0 <= i < |chain| ==>
          chain[i].hash in db && db[chain[i].hash] == chain[i] && chain[i].number == top.number - i)
    && (forall i :: 0 < i < |chain| ==> chain[i - 1].parent == chain[i].hash)
    && next.number == top.number - |chain|
    && next.hash in db && db[next.hash] == next
    && (if chain == [] then next == top else chain[0] == top && chain[|chain| - 1].parent == next.hash)
  }

  ghost predicate InSome(chain: seq<Block>, tx: Hash)
  {
    exists i :: 0 <= i < |chain| && tx in chain[i].txs
  }

  class BlockChain {
    var db: Blocks
    var canonical: map<nat, Hash>
    var index: Index
    var current: Hash

    ghost predicate Valid()
      reads this
    {
      && WellFormed(db) && OncePerChain(db)
      && CanonicalFor(db, canonical, current) && IndexFor(db, canonical, index)
    }

    /** A chain of the genesis block alone, which has no transactions. */
    constructor (genesis: Block)
      requires genesis.number == 0 && genesis.hash != NO_HASH && genesis.parent == NO_HASH && genesis.txs == []
      ensures Valid() && current == genesis.hash && db == map[genesis.hash := genesis]
    {
      db, canonical := map[genesis.hash := genesis], map[0 := genesis.hash];
      index, current := map[], genesis.hash;
    }

    /** One atomic batch: the block becomes the canonical one of its number, its transactions are indexed
        and it is marked as the head. */
    method WriteHeadBlock(b: Block)
      modifies this`canonical, this`index, this`current
      ensures canonical == old(canonical)[b.number := b.hash]
      ensures index == WriteEntries(old(index), b)
      ensures current == b.hash
    {
      canonical := canonical[b.number := b.hash];
      index := WriteEntries(index, b);
      current := b.hash;
    }

    /** The blocks that leave and enter the chain, newest first, and the block both sides share. */
    method FindFork(oldHead: Block, newHead: Block)
      returns (oldChain: seq<Block>, newChain: seq<Block>, common: Block, deleted: seq<Hash>, ok: bool)
      requires Valid() && current == oldHead.hash && db[current] == oldHead
      requires newHead.hash in db && db[newHead.hash] == newHead
      ensures ok <==> Meets(db, canonical, newHead)
      ensures ok ==> OldSide(db, canonical, oldHead, oldChain, common, deleted)
      ensures ok ==> NewSide(db, canonical, newHead, newChain, common)
    {
      oldChain, newChain, deleted := [], [], [];
      common := oldHead;
      var oldBlock, newBlock := oldHead, newHead;
      if oldBlock.number > newBlock.number {
        while oldBlock.number != newBlock.number
          invariant oldBlock.number >= newBlock.number
          invariant OldSide(db, canonical, oldHead, oldChain, oldBlock, deleted)
          decreases oldBlock.number
        {
          OldStep(db, canonical, oldHead, oldChain, oldBlock, deleted);
          oldChain, deleted := oldChain + [oldBlock], deleted + oldBlock.txs;
          oldBlock := Lookup(db, oldBlock.parent, oldBlock.number - 1).value;
        }
      } else {
        while newBlock.number != oldBlock.number
          invariant newBlock.number >= oldBlock.number
          invariant NewSide(db, canonical, newHead, newChain, newBlock)
          decreases newBlock.number
        {
          NewStep(db, canonical, newHead, newChain, newBlock);
          newChain := newChain + [newBlock];
          var parent := Lookup(db, newBlock.parent, newBlock.number - 1);
          if parent.None? {
            ok := false;
            return;
          }
          newBlock := parent.value;
        }
      }
      while oldBlock.hash != newBlock.hash
        invariant oldBlock.number == newBlock.number
        invariant OldSide(db, canonical, oldHead, oldChain, oldBlock, deleted)
        invariant NewSide(db, canonical, newHead, newChain, newBlock)
        decreases oldBlock.number
      {
        OldStep(db, canonical, oldHead, oldChain, oldBlock, deleted);
        NewStep(db, canonical, newHead, newChain, newBlock);
        oldChain, deleted := oldChain + [oldBlock], deleted + oldBlock.txs;
        newChain := newChain + [newBlock];
        var parent := Lookup(db, oldBlock.parent, oldBlock.number - 1);
        if parent.None? {
          ok := false;
          return;
        }
        oldBlock := parent.value;
        parent := Lookup(db, newBlock.parent, newBlock.number - 1);
        if parent.None? {
          ok := false;
          return;
        }
        newBlock := parent.value;
      }
      common, ok := oldBlock, true;
    }

    /** reorg. It leaves the new head out: what it builds is the chain of the head's parent, or of the head itself
        when that was canonical already. It fails exactly when the new side has a gap before it meets the
        canonical chain, and then nothing has changed. */
    method Reorg(oldHead: Block, newHead: Block) returns (ok: bool)
      requires Valid() && current == oldHead.hash && db[current] == oldHead
      requires newHead.hash in db && db[newHead.hash] == newHead
      modifies this`canonical, this`index, this`current
      ensures ok <==> Meets(db, old(canonical), newHead)
      ensures !ok ==> canonical == old(canonical) && index == old(index) && current == old(current)
      ensures ok ==>
        var tip := if Read(old(canonical), newHead.number) == newHead.hash then newHead.hash else newHead.parent;
        CanonicalFor(db, canonical, tip) && IndexFor(db, canonical, index)
    {
      var oldChain, newChain, common, deleted, found := FindFork(oldHead, newHead);
      if !found {
        return false;
      }
      Started(db, canonical, oldHead, common);
      StartedIndex(db, canonical, index, oldHead, oldChain, common, deleted);
      var added, target, tip := Overwrite(newChain, oldHead, newHead, common, deleted);
      var number := common.number;
      if |newChain| > 1 {
        number := newChain[1].number;
      }
      Prune(number, deleted, added, oldHead.number, target, tip);
      ok := true;
    }

    /** Writes the new chain except its head, oldest block first. */
    method Overwrite(newChain: seq<Block>, ghost oldHead: Block, ghost newHead: Block, ghost common: Block,
                     ghost deleted: seq<Hash>)
      returns (added: seq<Hash>, ghost target: map<nat, Hash>, ghost tip: Block)
      requires WellFormed(db) && OncePerChain(db) && Down(db, newChain, newHead, common)
      requires Overwritten(db, oldHead.number, canonical, Upto(canonical, common.number), common)
      requires Reindexed(db, Upto(canonical, common.number), index, deleted, [])
      modifies this`canonical, this`index, this`current
      ensures tip == if |newChain| > 1 then newChain[1] else common
      ensures Overwritten(db, oldHead.number, canonical, target, tip)
      ensures Reindexed(db, target, index, deleted, added)
    {
      target, tip, added := Upto(canonical, common.number), common, [];
      var i := |newChain| - 1;
      while i >= 1
        invariant -1 <= i <= |newChain| - 1 && (i == -1 <==> newChain == [])
        invariant tip == if i >= |newChain| - 1 then common else newChain[i + 1]
        invariant Overwritten(db, oldHead.number, canonical, target, tip)
        invariant Reindexed(db, target, index, deleted, added)
      {
        assert newChain[i].parent == tip.hash && newChain[i].number == tip.number + 1;
        Step(db, oldHead.number, canonical, index, target, tip, deleted, added, newChain[i]);
        WriteHeadBlock(newChain[i]);
        added := added + newChain[i].txs;
        target, tip := target[newChain[i].number := newChain[i].hash], newChain[i];
        i := i - 1;
      }
    }

    /** Deletes the transactions that have left the chain and the numbers above its end, in one batch. */
    method Prune(number: nat, deleted: seq<Hash>, added: seq<Hash>, ghost oldTop: nat, ghost target: map<nat, Hash>,
                 ghost tip: Block)
      requires Overwritten(db, oldTop, canonical, target, tip) && tip.number == number
      requires Reindexed(db, target, index, deleted, added)
      modifies this`canonical, this`index
      ensures canonical == target && IndexFor(db, target, index)
    {
      Finished(db, target, index, deleted, added);
      var stale := StaleAbove(number, if number > oldTop then number else oldTop);
      index := map tx | tx in index && !(tx in deleted && tx !in added) :: index[tx];
      canonical := map n: nat | n in canonical && n !in stale :: canonical[n];
    }

    /** The canonical numbers above a number, up to the first gap. */
    method StaleAbove(number: nat, ghost top: nat) returns (stale: set<nat>)
      requires number <= top
      requires forall n: nat :: n in canonical <==> n <= top
      requires forall n: nat :: n in canonical ==> canonical[n] != NO_HASH
      ensures forall n: nat :: n in stale <==> number < n <= top
    {
      stale := {};
      var i := number + 1;
      while Read(canonical, i) != NO_HASH
        invariant number < i <= top + 1
        invariant forall n: nat :: n in stale <==> number < n < i
        decreases top + 1 - i
      {
        stale := stale + {i};
        i := i + 1;
      }
    }

    /** writeKnownBlock, and the chain part of SetCanonical: for a longer, shorter, equal or ancestor target the
        canonical map becomes exactly the ancestor path of the block, and the index exactly the transactions of
        that path. */
    method WriteKnownBlock(b: Block) returns (ok: bool)
      requires Valid() && b.hash in db && db[b.hash] == b
      modifies this`canonical, this`index, this`current
      ensures Valid()
      ensures ok <==> b.parent == old(current) || Meets(db, old(canonical), b)
      ensures if ok then current == b.hash
              else canonical == old(canonical) && index == old(index) && current == old(current)
    {
      ghost var tip := b.parent;
      if b.parent != current {
        tip := if Read(canonical, b.number) == b.hash then b.hash else b.parent;
        var reorged := Reorg(db[current], b);
        if !reorged {
          return false;
        }
      }
      HeadWritten(db, canonical, index, tip, b);
      WriteHeadBlock(b);
      ok := true;
    }
  }

  /** The part of a chain up to a number. */
  ghost function Upto(canonical: map<nat, Hash>, top: nat): (r: map<nat, Hash>)
    ensures forall n: nat :: n in r <==> n in canonical && n <= top
    ensures forall n: nat :: n in r ==> r[n] == canonical[n]
  {
    map n: nat | n in canonical && n <= top :: canonical[n]
  }

  /** Part of the new chain has been written over the old one: `target` is the chain of `tip`, the last block
      written, and what the map holds beyond it is the old chain's. */
  ghost predicate Overwritten(db: Blocks, oldTop: nat, canonical: map<nat, Hash>, target: map<nat, Hash>, tip: Block)
  {
    && CanonicalFor(db, target, tip.hash) && db[tip.hash] == tip
    && (forall n: nat :: n in canonical <==> n <= oldTop || n <= tip.number)
    && (forall n: nat :: n in canonical ==> canonical[n] != NO_HASH)
    && (forall n: nat :: n in target ==> canonical[n] == target[n])
  }

  /** The index knows the target, and beyond it only transactions that are to be deleted. */
  ghost predicate Reindexed(db: Blocks, target: map<nat, Hash>, index: Index, deleted: seq<Hash>, added: seq<Hash>)
  {
    && Indexed(db, target, index)
    && (forall tx :: tx in index ==> OnChain(db, target, tx) || tx in deleted)
    && (forall tx :: tx in added ==> OnChain(db, target, tx))
    && (forall tx :: tx in deleted && OnChain(db, target, tx) ==> tx in added)
  }

  lemma Started(db: Blocks, canonical: map<nat, Hash>, head: Block, common: Block)
    requires WellFormed(db) && CanonicalFor(db, canonical, head.hash) && db[head.hash] == head
    requires common.hash in db && db[common.hash] == common && Read(canonical, common.number) == common.hash
    ensures Overwritten(db, head.number, canonical, Upto(canonical, common.number), common)
  {
    assert common.number in canonical;
  }

  lemma StartedIndex(db: Blocks, canonical: map<nat, Hash>, index: Index, head: Block, chain: seq<Block>,
                     common: Block, deleted: seq<Hash>)
    requires CanonicalFor(db, canonical, head.hash) && db[head.hash] == head && Distinct(db, canonical)
    requires IndexFor(db, canonical, index)
    requires OldSide(db, canonical, head, chain, common, deleted)
    ensures Reindexed(db, Upto(canonical, common.number), index, deleted, [])
  {
    var target := Upto(canonical, common.number);
    assert Indexed(db, target, index);
    forall tx | tx in index
      ensures OnChain(db, target, tx) || tx in deleted
    {
      StaysOrGoes(db, canonical, head, chain, common, tx);
    }
    forall tx | tx in deleted
      ensures !OnChain(db, target, tx)
    {
      Leaves(db, canonical, head, chain, common, tx);
    }
  }

  lemma StaysOrGoes(db: Blocks, canonical: map<nat, Hash>, head: Block, chain: seq<Block>, common: Block, tx: Hash)
    requires CanonicalFor(db, canonical, head.hash) && db[head.hash] == head && Down(db, chain, head, common)
    requires OnChain(db, canonical, tx)
    ensures OnChain(db, Upto(canonical, common.number), tx) || InSome(chain, tx)
  {
    var n: nat :| n in canonical && canonical[n] in db && tx in db[canonical[n]].txs;
    if n <= common.number {
      assert Upto(canonical, common.number)[n] == canonical[n];
    } else {
      Descends(db, canonical, head, chain, common, head.number - n);
    }
  }

  lemma Leaves(db: Blocks, canonical: map<nat, Hash>, head: Block, chain: seq<Block>, common: Block, tx: Hash)
    requires CanonicalFor(db, canonical, head.hash) && db[head.hash] == head && Down(db, chain, head, common)
    requires Distinct(db, canonical) && InSome(chain, tx)
    ensures !OnChain(db, Upto(canonical, common.number), tx)
  {
    var i: nat :| i < |chain| && tx in chain[i].txs;
    Descends(db, canonical, head, chain, common, i);
  }

  lemma {:induction false} Descends(db: Blocks, canonical: map<nat, Hash>, head: Block, chain: seq<Block>,
                                    common: Block, i: nat)
    requires CanonicalFor(db, canonical, head.hash) && db[head.hash] == head && Down(db, chain, head, common)
    requires i < |chain|
    ensures head.number - i in canonical && chain[i] == db[canonical[head.number - i]]
  {
    if i > 0 {
      Descends(db, canonical, head, chain, common, i - 1);
    }
  }

  /** A chain grows by a block. */
  lemma Extends(db: Blocks, target: map<nat, Hash>, tip: Hash, b: Block)
    requires CanonicalFor(db, target, tip) && b.hash in db && db[b.hash] == b
    requires b.parent == tip && b.number == db[tip].number + 1
    ensures CanonicalFor(db, target[b.number := b.hash], b.hash)
  {
  }

  /** Adding a block to a chain adds its transactions to those on the chain. */
  lemma Grows(db: Blocks, target: map<nat, Hash>, b: Block)
    requires b.hash in db && db[b.hash] == b && b.number !in target
    ensures forall tx :: OnChain(db, target[b.number := b.hash], tx) <==> OnChain(db, target, tx) || tx in b.txs
  {
    var longer := target[b.number := b.hash];
    forall tx
      ensures OnChain(db, longer, tx) <==> OnChain(db, target, tx) || tx in b.txs
    {
      if OnChain(db, target, tx) {
        var n: nat :| n in target && target[n] in db && tx in db[target[n]].txs;
        assert longer[n] == target[n];
      }
      if tx in b.txs {
        assert longer[b.number] == b.hash;
      }
    }
  }

  /** Indexing the block keeps the older entries right, since none of its transactions is older. */
  lemma IndexGrows(db: Blocks, target: map<nat, Hash>, index: Index, b: Block)
    requires b.hash in db && db[b.hash] == b && b.number !in target
    requires Distinct(db, target[b.number := b.hash]) && Indexed(db, target, index)
    ensures Indexed(db, target[b.number := b.hash], WriteEntries(index, b))
  {
    var longer := target[b.number := b.hash];
    forall n: nat, tx | n in longer && longer[n] in db && tx in db[longer[n]].txs
      ensures tx in WriteEntries(index, b) && WriteEntries(index, b)[tx] == n
    {
      if tx in b.txs {
        assert longer[b.number] == b.hash;
        assert n == b.number;
      } else {
        assert target[n] == longer[n];
      }
    }
  }

  lemma Step(db: Blocks, oldTop: nat, canonical: map<nat, Hash>, index: Index, target: map<nat, Hash>,
             tip: Block, deleted: seq<Hash>, added: seq<Hash>, b: Block)
    requires WellFormed(db) && OncePerChain(db)
    requires Overwritten(db, oldTop, canonical, target, tip) && Reindexed(db, target, index, deleted, added)
    requires b.hash in db && db[b.hash] == b && b.parent == tip.hash && b.number == tip.number + 1
    ensures Overwritten(db, oldTop, canonical[b.number := b.hash], target[b.number := b.hash], b)
    ensures Reindexed(db, target[b.number := b.hash], WriteEntries(index, b), deleted, added + b.txs)
  {
    Extends(db, target, tip.hash, b);
    Grows(db, target, b);
    IndexGrows(db, target, index, b);
  }

  /** Taking away what is only the old chain's leaves exactly the target. */
  lemma Finished(db: Blocks, target: map<nat, Hash>, index: Index, deleted: seq<Hash>, added: seq<Hash>)
    requires Reindexed(db, target, index, deleted, added)
    ensures IndexFor(db, target, map tx | tx in index && !(tx in deleted && tx !in added) :: index[tx])
  {
  }

  /** A block written on top of its parent's chain, or once more on its own. */
  lemma HeadWritten(db: Blocks, canonical: map<nat, Hash>, index: Index, tip: Hash, b: Block)
    requires WellFormed(db) && OncePerChain(db) && b.hash in db && db[b.hash] == b
    requires CanonicalFor(db, canonical, tip) && IndexFor(db, canonical, index)
    requires tip == b.hash || tip == b.parent
    ensures CanonicalFor(db, canonical[b.number := b.hash], b.hash)
    ensures IndexFor(db, canonical[b.number := b.hash], WriteEntries(index, b))
  {
    if tip == b.hash {
      assert canonical[b.number := b.hash] == canonical;
      assert WriteEntries(index, b) == index by {
        assert forall tx :: tx in b.txs ==> tx in index && index[tx] == b.number;
      }
    } else {
      Extends(db, canonical, tip, b);
      Grows(db, canonical, b);
      IndexGrows(db, canonical, index, b);
    }
  }

  /** The old side of the search, come down to `at` on the canonical chain. */
  ghost predicate OldSide(db: Blocks, canonical: map<nat, Hash>, head: Block, chain: seq<Block>, at: Block,
                          deleted: seq<Hash>)
  {
    && Down(db, chain, head, at) && Read(canonical, at.number) == at.hash
    && (forall tx :: tx in deleted <==> InSome(chain, tx))
  }

  /** The new side, come down to `at` without having met the canonical chain. */
  ghost predicate NewSide(db: Blocks, canonical: map<nat, Hash>, head: Block, chain: seq<Block>, at: Block)
  {
    && Down(db, chain, head, at)
    && (Meets(db, canonical, head) <==> Meets(db, canonical, at))
    && (forall b :: b in chain ==> Read(canonical, b.number) != b.hash)
  }

  lemma OldStep(db: Blocks, canonical: map<nat, Hash>, head: Block, chain: seq<Block>, at: Block, deleted: seq<Hash>)
    requires CanonicalFor(db, canonical, head.hash) && WellFormed(db)
    requires OldSide(db, canonical, head, chain, at, deleted)
    ensures Lookup(db, at.parent, at.number - 1).Some? <==> at.number > 0
    ensures at.number > 0 ==>
      OldSide(db, canonical, head, chain + [at], Lookup(db, at.parent, at.number - 1).value, deleted + at.txs)
  {
    assert at.number in canonical && canonical[at.number] == at.hash;
    assert at.number > 0 ==> at.number - 1 in canonical && canonical[at.number - 1] == at.parent;
    OneMore(chain, at, deleted);
  }

  lemma NewStep(db: Blocks, canonical: map<nat, Hash>, head: Block, chain: seq<Block>, at: Block)
    requires WellFormed(db) && NewSide(db, canonical, head, chain, at) && Read(canonical, at.number) != at.hash
    ensures Lookup(db, at.parent, at.number - 1).Some? ==>
      NewSide(db, canonical, head, chain + [at], Lookup(db, at.parent, at.number - 1).value)
    ensures Lookup(db, at.parent, at.number - 1).None? ==> !Meets(db, canonical, head)
  {
  }

  lemma OneMore(chain: seq<Block>, b: Block, txs: seq<Hash>)
    requires forall tx :: tx in txs <==> InSome(chain, tx)
    ensures forall tx :: tx in txs + b.txs <==> InSome(chain + [b], tx)
  {
    var more := chain + [b];
    forall tx
      ensures tx in txs + b.txs <==> InSome(more, tx)
    {
      if InSome(chain, tx) {
        var i :| 0 <= i < |chain| && tx in chain[i].txs;
        assert tx in more[i].txs;
      }
      if tx in b.txs {
        assert tx in more[|chain|].txs;
      }
    }
  }
}
