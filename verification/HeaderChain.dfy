/** Header-only maintenance of the canonical chain, and the two shortcuts that read it. */
module HeaderChain {
  import opened Options
  import opened Chain

  /** Headers that follow one another. */
  ghost predicate Contiguous(headers: seq<Block>)
  {
    forall i :: 0 < i < |headers| ==>
      headers[i].parent == headers[i - 1].hash && headers[i].number == headers[i - 1].number + 1
  }

  /** A batch of writes to the canonical map; NO_HASH stands for a deletion. Nothing is visible until it is
      written, and then all of it is. */
  type Batch = map<nat, Hash>

  function Apply(canonical: map<nat, Hash>, batch: Batch): (r: map<nat, Hash>)
    ensures forall n: nat :: n in r <==> if n in batch then batch[n] != NO_HASH else n in canonical
    ensures forall n: nat :: n in r ==> r[n] == if n in batch then batch[n] else canonical[n]
  {
    map n | n in canonical.Keys + batch.Keys && (if n in batch then batch[n] != NO_HASH else n in canonical) ::
      if n in batch then batch[n] else canonical[n]
  }

  /** Going up from a header one meets the canonical chain, or the beginning of all chains, before a gap. */
  predicate Rooted(db: Blocks, canonical: map<nat, Hash>, b: Block)
    decreases b.number
  {
    || Read(canonical, b.number) == b.hash
    || b.number == 0
    || var p := Lookup(db, b.parent, b.number - 1);
       p.Some? && Rooted(db, canonical, p.value)
  }

  class HeaderChain {
    var db: Blocks
    var canonical: map<nat, Hash>
    var currentHeaderHash: Hash

    ghost predicate Valid()
      reads this
    {
      WellFormed(db) && CanonicalFor(db, canonical, currentHeaderHash)
    }

    /** A chain of the genesis header alone. */
    constructor (genesis: Block)
      requires genesis.number == 0 && genesis.hash != NO_HASH && genesis.parent == NO_HASH
      ensures Valid() && currentHeaderHash == genesis.hash && db == map[genesis.hash := genesis]
    {
      db, canonical, currentHeaderHash := map[genesis.hash := genesis], map[0 := genesis.hash], genesis.hash;
    }

    /** Marks the canonical entries above a number for deletion, up to the first gap. */
    method DeleteAbove(number: nat) returns (batch: Batch)
      requires Valid()
      ensures forall n: nat :: n in batch <==> number < n <= db[currentHeaderHash].number
      ensures forall n :: n in batch ==> batch[n] == NO_HASH
    {
      batch := map[];
      var i := number + 1;
      while Read(canonical, i) != NO_HASH
        invariant i >= number + 1 && (i <= db[currentHeaderHash].number + 1 || i == number + 1)
        invariant forall n: nat :: n in batch <==> number < n < i
        invariant forall n :: n in batch ==> batch[n] == NO_HASH
        decreases db[currentHeaderHash].number + 1 - i
      {
        batch := batch[i := NO_HASH];
        i := i + 1;
      }
    }

    /** The walk back from the first new header to the cross link. It goes down one number at a time, so it
        ends, and on the way it writes exactly the numbers whose canonical hash is not the new chain's. */
    method WalkBack(first: Block, start: Batch) returns (batch: Batch, link: nat, ghost below: Hash, ok: bool)
      requires Valid() && first.hash in db && db[first.hash] == first
      requires forall n :: n in start ==> n > first.number
      ensures ok <==> Rooted(db, canonical, first)
      ensures ok ==> Walked(db, first, start, batch, link, below)
      ensures ok && link > 0 ==> Read(canonical, link - 1) == below
    {
      batch := start;
      var header, headNumber, headHash := first, first.number, first.hash;
      while Read(canonical, headNumber) != headHash
        invariant header.hash == headHash && header.number == headNumber && headHash in db && db[headHash] == header
        invariant Rooted(db, canonical, first) <==> Rooted(db, canonical, header)
        invariant Walked(db, first, start, batch, headNumber + 1, headHash)
        decreases headNumber
      {
        WalkStep(db, first, start, batch, header);
        batch := batch[headNumber := headHash];
        if headNumber == 0 {
          return batch, 0, header.parent, true;
        }
        headHash, headNumber := header.parent, header.number - 1;
        var parent := Lookup(db, headHash, headNumber);
        if parent.None? {
          return batch, 0, NO_HASH, false;
        }
        header := parent.value;
      }
      link, below, ok := headNumber + 1, headHash, true;
    }

    /** The new headers' own entries. All but the last are named by their child's parent field, which saves
        hashing them. */
    static method Extend(headers: seq<Block>, start: Batch) returns (batch: Batch)
      requires Contiguous(headers) && headers != []
      ensures ExtendedBy(headers, start, batch)
    {
      batch := start;
      var base := headers[0].number;
      for i := 0 to |headers| - 1
        invariant forall n: nat :: n in batch <==> n in start || base <= n < base + i
        invariant forall n: nat :: n in batch ==>
          batch[n] == if base <= n < base + i then headers[n - base].hash else start[n]
      {
        NumbersAscend(headers, i);
        var hash := headers[i + 1].parent;
        batch := batch[headers[i].number := hash];
      }
      NumbersAscend(headers, |headers| - 1);
      batch := batch[headers[|headers| - 1].number := headers[|headers| - 1].hash];
    }

    /** The writes of a reorg, before any of them is visible. */
    method Rewrite(headers: seq<Block>) returns (batch: Batch, ok: bool)
      requires Valid() && Contiguous(headers) && headers != [] && Stored(db, headers)
      ensures ok <==> headers[0].parent == currentHeaderHash || Rooted(db, canonical, headers[0])
      ensures ok ==> CanonicalFor(db, Apply(canonical, batch), headers[|headers| - 1].hash)
    {
      var first, last := headers[0], headers[|headers| - 1];
      NumbersAscend(headers, |headers| - 1);
      batch := map[];
      if first.parent != currentHeaderHash {
        var deletions := DeleteAbove(last.number);
        var walked, link, below, rooted := WalkBack(first, deletions);
        if !rooted {
          return batch, false;
        }
        batch := Extend(headers, walked);
        Switched(db, canonical, currentHeaderHash, headers, deletions, walked, batch, link, below);
      } else {
        batch := Extend(headers, batch);
        Appended(db, canonical, currentHeaderHash, headers, batch);
      }
      ok := true;
    }

    /** Reorg. On success the canonical map is exactly the ancestor path of the last header, whatever it was
        before and whether the new chain is longer or shorter; it fails exactly when, going up from the first
        header, a parent is missing before the canonical chain is met, and then nothing has changed. */
    method Reorg(headers: seq<Block>) returns (ok: bool)
      requires Valid() && Contiguous(headers) && Stored(db, headers)
      modifies this`canonical, this`currentHeaderHash
      ensures Valid()
      ensures ok <==>
        headers == [] || headers[0].parent == old(currentHeaderHash) || Rooted(db, old(canonical), headers[0])
      ensures !ok || headers == [] ==> canonical == old(canonical) && currentHeaderHash == old(currentHeaderHash)
      ensures ok && headers != [] ==> currentHeaderHash == headers[|headers| - 1].hash
    {
      if |headers| == 0 {
        return true;
      }
      var batch, rewritten := Rewrite(headers);
      if !rewritten {
        return false;
      }
      canonical := Apply(canonical, batch);
      currentHeaderHash := headers[|headers| - 1].hash;
      ok := true;
    }

    /** GetAncestor. It is never wrong: it returns the ancestor a plain walk over parents would find, or nothing;
        and it finds it exactly when the walk gets there, or to the canonical chain, within the budget. One step
        up costs nothing. That holds for every hash but zero, which reads like a number above the chain: from there it
        claims a canonical block to be the ancestor of one that does not exist. */
    method GetAncestor(hash: Hash, number: nat, ancestor: nat, maxNonCanonical: nat)
      returns (r: Hash, at: nat, left: nat)
      requires Valid()
      ensures r != NO_HASH ==> ancestor <= number && at == number - ancestor
      ensures r != NO_HASH ==> (r == Ancestor(db, hash, number, ancestor) <==> hash != NO_HASH)
      ensures hash == NO_HASH ==>
        (r != NO_HASH <==> 2 <= ancestor <= number && number - ancestor <= db[currentHeaderHash].number < number)
      ensures hash != NO_HASH ==> (r != NO_HASH <==>
        ancestor <= number && (if ancestor == 1 then Lookup(db, hash, number).Some?
                               else Near(db, canonical, hash, number, ancestor, maxNonCanonical)))
      ensures left <= maxNonCanonical && maxNonCanonical - left <= ancestor
    {
      left := maxNonCanonical;
      if ancestor > number {
        return NO_HASH, 0, left;
      }
      if ancestor == 1 {
        var header := Lookup(db, hash, number);
        if header.Some? {
          return header.value.parent, number - 1, left;
        }
        return NO_HASH, 0, left;
      }
      r, at, left := WalkUp(hash, number, ancestor, maxNonCanonical);
    }

    /** The walk of GetAncestor, block by block until it is there, meets the canonical chain or may go no further. */
    method WalkUp(hash: Hash, number: nat, ancestor: nat, maxNonCanonical: nat) returns (r: Hash, at: nat, left: nat)
      requires Valid() && ancestor <= number
      ensures r != NO_HASH ==> at == number - ancestor && (r == Ancestor(db, hash, number, ancestor) <==> hash != NO_HASH)
      ensures hash == NO_HASH ==>
        (r != NO_HASH <==> 1 <= ancestor && number - ancestor <= db[currentHeaderHash].number < number)
      ensures hash != NO_HASH ==> (r != NO_HASH <==> Near(db, canonical, hash, number, ancestor, maxNonCanonical))
      ensures left <= maxNonCanonical && maxNonCanonical - left <= ancestor
    {
      left := maxNonCanonical;
      r, at := hash, number;
      var remaining := ancestor;
      while remaining != 0
        invariant 0 <= remaining <= ancestor && at == number - (ancestor - remaining)
        invariant if hash == NO_HASH then r == NO_HASH && remaining == ancestor
                  else r != NO_HASH && r == Ancestor(db, hash, number, ancestor - remaining)
        invariant left == maxNonCanonical - (ancestor - remaining)
        invariant NotMet(db, canonical, hash, number, ancestor - remaining)
      {
        ghost var j := ancestor - remaining;
        if Read(canonical, at) == r {
          if hash != NO_HASH {
            AncestorComposes(db, hash, number, j, remaining);
            CanonicalAncestor(db, canonical, currentHeaderHash, at, remaining);
            Met(db, canonical, hash, number, ancestor, maxNonCanonical, j);
          }
          return Read(canonical, at - remaining), at - remaining, left;
        }
        if left == 0 {
          if hash != NO_HASH {
            NeverMet(db, canonical, hash, number, ancestor, maxNonCanonical, j);
          }
          return NO_HASH, 0, left;
        }
        left, remaining := left - 1, remaining - 1;
        var header := Lookup(db, r, at);
        if header.None? {
          if hash != NO_HASH {
            NeverMet(db, canonical, hash, number, ancestor, maxNonCanonical, j);
          }
          return NO_HASH, 0, left;
        }
        AncestorComposes(db, hash, number, j, 1);
        r, at := header.value.parent, at - 1;
      }
      if hash != NO_HASH {
        Met(db, canonical, hash, number, ancestor, maxNonCanonical, ancestor);
      }
    }
  }

  /** None of the first j blocks of a walk is canonical. */
  ghost predicate NotMet(db: Blocks, canonical: map<nat, Hash>, hash: Hash, number: nat, j: nat)
  {
    forall i: nat :: i < j ==> Read(canonical, number - i) != Ancestor(db, hash, number, i)
  }

  /** Within `budget` steps of a block lies the wanted ancestor itself or a canonical block. */
  ghost predicate Near(db: Blocks, canonical: map<nat, Hash>, hash: Hash, number: nat, ancestor: nat, budget: nat)
  {
    exists j: nat :: j <= ancestor && j <= budget &&
      Ancestor(db, hash, number, j) != NO_HASH &&
      (j == ancestor || Read(canonical, number - j) == Ancestor(db, hash, number, j))
  }

  lemma Met(db: Blocks, canonical: map<nat, Hash>, hash: Hash, number: nat, ancestor: nat, budget: nat, j: nat)
    requires j <= ancestor && j <= budget && Ancestor(db, hash, number, j) != NO_HASH
    requires j == ancestor || Read(canonical, number - j) == Ancestor(db, hash, number, j)
    ensures Near(db, canonical, hash, number, ancestor, budget)
  {
  }

  /** Beyond the budget, or a block that is not stored, a walk finds nothing more. */
  lemma NeverMet(db: Blocks, canonical: map<nat, Hash>, hash: Hash, number: nat, ancestor: nat, budget: nat, j: nat)
    requires NO_HASH !in db && j <= number && j < ancestor
    requires NotMet(db, canonical, hash, number, j)
    requires Read(canonical, number - j) != Ancestor(db, hash, number, j)
    requires j >= budget || Lookup(db, Ancestor(db, hash, number, j), number - j).None?
    ensures !Near(db, canonical, hash, number, ancestor, budget)
  {
    forall i: nat | j < i <= ancestor && j < budget
      ensures Ancestor(db, hash, number, i) == NO_HASH
    {
      AncestorComposes(db, hash, number, j, i - j);
    }
  }

  /** GetHashFn: the hashes of a block's ancestors by number, remembered as they are found. */
  class HashLookup {
    const ref: Block
    var cache: seq<Hash>

    /** The cache is an initial part of the walk from the parent of `ref`, in a database holding `db`. */
    ghost predicate Valid(db: Blocks)
      reads this
    {
      && |cache| <= ref.number
      && (forall i :: 0 <= i < |cache| ==> cache[i] == Ancestor(db, ref.parent, ref.number - 1, i))
      && (forall i :: 0 <= i < |cache| - 1 ==> Lookup(db, cache[i], ref.number - 1 - i).Some?)
    }

    constructor (ref: Block)
      ensures this.ref == ref && forall db :: Valid(db)
    {
      this.ref, cache := ref, [];
    }

    /** Whatever was asked before, the answer is that of an uncached walk over the database. */
    method Query(db: Blocks, n: nat) returns (r: Hash)
      requires WellFormed(db) && Valid(db)
      modifies this`cache
      ensures Valid(db)
      ensures r == Uncached(db, ref, n)
      ensures old(cache) <= cache
    {
      if ref.number <= n {
        return NO_HASH;
      }
      if |cache| == 0 {
        cache := cache + [ref.parent];
      }
      var idx := ref.number - n - 1;
      if idx < |cache| {
        return cache[idx];
      }
      var lastKnownHash, lastKnownNumber := cache[|cache| - 1], ref.number - |cache|;
      while true
        invariant Valid(db) && 0 < |cache| <= idx && old(cache) <= cache
        invariant lastKnownHash == cache[|cache| - 1] && lastKnownNumber == ref.number - |cache|
        decreases lastKnownNumber
      {
        var header := Lookup(db, lastKnownHash, lastKnownNumber);
        AncestorComposes(db, ref.parent, ref.number - 1, |cache| - 1, 1);
        AncestorComposes(db, ref.parent, ref.number - 1, |cache| - 1, idx - (|cache| - 1));
        if header.None? {
          break;
        }
        cache := cache + [header.value.parent];
        lastKnownHash := header.value.parent;
        lastKnownNumber := header.value.number - 1;
        if n == lastKnownNumber {
          return lastKnownHash;
        }
      }
      return NO_HASH;
    }
  }

  /** The hash of the ancestor of `ref` with number n, found by walking up parents from scratch. */
  function Uncached(db: Blocks, ref: Block, n: nat): Hash
  {
    if ref.number <= n then NO_HASH else Ancestor(db, ref.parent, ref.number - 1, ref.number - 1 - n)
  }

  /** Blocks that arrive between two queries leave what is remembered right. */
  lemma CacheSurvives(lookup: HashLookup, before: Blocks, after: Blocks)
    requires WellFormed(before) && lookup.Valid(before)
    requires forall h :: h in before ==> h in after && after[h] == before[h]
    ensures lookup.Valid(after)
  {
    forall i | 0 < i < |lookup.cache|
      ensures Ancestor(after, lookup.ref.parent, lookup.ref.number - 1, i) == lookup.cache[i]
    {
      AncestorComposes(before, lookup.ref.parent, lookup.ref.number - 1, i - 1, 1);
      assert Lookup(before, lookup.cache[i - 1], lookup.ref.number - 1 - (i - 1)).Some?;
      AncestorSurvives(before, after, lookup.ref.parent, lookup.ref.number - 1, i);
    }
  }

  /** Entries lo..hi of a batch are blocks of those numbers, each the parent of the next. */
  ghost predicate Segment(db: Blocks, batch: Batch, lo: nat, hi: nat)
  {
    && (forall n: nat :: lo <= n <= hi ==> n in batch && batch[n] in db && db[batch[n]].number == n)
    && (forall n: nat :: lo < n <= hi ==> db[batch[n]].parent == batch[n - 1])
  }

  lemma {:induction false} NumbersAscend(headers: seq<Block>, i: nat)
    requires Contiguous(headers) && i < |headers|
    ensures headers[i].number == headers[0].number + i
  {
    if i > 0 {
      NumbersAscend(headers, i - 1);
    }
  }

  ghost predicate Covers(headers: seq<Block>, n: nat)
  {
    headers != [] && headers[0].number <= n < headers[0].number + |headers|
  }

  /** The batch of a walk back that has come down to `lo`: it holds the path of `first` from there up, whose
      next block down is `below`, and what was in it at the start. */
  ghost predicate Walked(db: Blocks, first: Block, start: Batch, batch: Batch, lo: nat, below: Hash)
  {
    && lo <= first.number + 1 && Segment(db, batch, lo, first.number)
    && (forall n: nat :: n in batch <==> n in start || lo <= n <= first.number)
    && (forall n: nat :: n in start && n > first.number ==> batch[n] == start[n])
    && (if lo > first.number then below == first.hash
        else batch[first.number] == first.hash && db[batch[lo]].parent == below)
  }

  lemma WalkStep(db: Blocks, first: Block, start: Batch, batch: Batch, header: Block)
    requires header.hash in db && db[header.hash] == header && header.number <= first.number
    requires forall n :: n in start ==> n > first.number
    requires Walked(db, first, start, batch, header.number + 1, header.hash)
    ensures Walked(db, first, start, batch[header.number := header.hash], header.number, header.parent)
  {
  }

  /** What Extend leaves behind. */
  ghost predicate ExtendedBy(headers: seq<Block>, start: Batch, batch: Batch)
  {
    && (forall n: nat :: n in batch <==> n in start || Covers(headers, n))
    && (forall n: nat :: n in batch ==>
          batch[n] == if Covers(headers, n) then headers[n - headers[0].number].hash else start[n])
  }

  ghost predicate Stored(db: Blocks, headers: seq<Block>)
  {
    forall i :: 0 <= i < |headers| ==> headers[i].hash in db && db[headers[i].hash] == headers[i]
  }

  /** New headers piled onto the head. */
  lemma Appended(db: Blocks, canonical: map<nat, Hash>, head: Hash, headers: seq<Block>, batch: Batch)
    requires WellFormed(db) && CanonicalFor(db, canonical, head)
    requires Contiguous(headers) && headers != [] && Stored(db, headers) && headers[0].parent == head
    requires ExtendedBy(headers, map[], batch)
    ensures CanonicalFor(db, Apply(canonical, batch), headers[|headers| - 1].hash)
  {
    NumbersAscend(headers, |headers| - 1);
    HeadersLinked(db, headers, batch);
    Joined(db, canonical, head, batch, headers[0].number, headers[|headers| - 1]);
  }

  /** New headers reached from a cross link. */
  lemma Switched(db: Blocks, canonical: map<nat, Hash>, head: Hash, headers: seq<Block>, deletions: Batch,
                 walked: Batch, batch: Batch, link: nat, below: Hash)
    requires WellFormed(db) && CanonicalFor(db, canonical, head)
    requires Contiguous(headers) && headers != [] && Stored(db, headers)
    requires forall n: nat :: n in deletions <==> headers[|headers| - 1].number < n <= db[head].number
    requires forall n :: n in deletions ==> deletions[n] == NO_HASH
    requires Walked(db, headers[0], deletions, walked, link, below) && ExtendedBy(headers, walked, batch)
    requires link > 0 ==> Read(canonical, link - 1) == below
    ensures CanonicalFor(db, Apply(canonical, batch), headers[|headers| - 1].hash)
  {
    var base, last := headers[0].number, headers[|headers| - 1];
    NumbersAscend(headers, |headers| - 1);
    var lo := if link <= base then link else base;
    SwitchedPath(db, canonical, head, headers, deletions, walked, batch, link, below, lo);
    SwitchedRest(db, canonical, head, headers, deletions, walked, batch, link, below, lo);
    Joined(db, canonical, head, batch, lo, last);
  }

  /** The path they and the walk back make up, down to its canonical parent. */
  lemma SwitchedPath(db: Blocks, canonical: map<nat, Hash>, head: Hash, headers: seq<Block>, deletions: Batch,
                     walked: Batch, batch: Batch, link: nat, below: Hash, lo: nat)
    requires WellFormed(db) && CanonicalFor(db, canonical, head)
    requires Contiguous(headers) && headers != [] && Stored(db, headers)
    requires Walked(db, headers[0], deletions, walked, link, below) && ExtendedBy(headers, walked, batch)
    requires link > 0 ==> Read(canonical, link - 1) == below
    requires lo == if link <= headers[0].number then link else headers[0].number
    ensures Segment(db, batch, lo, headers[0].number + |headers| - 1)
    ensures lo > 0 ==> Read(canonical, lo - 1) == db[batch[lo]].parent
  {
    HeadersLinked(db, headers, batch);
    SegmentsMeet(db, headers, walked, batch, lo);
    assert link > headers[0].number ==> headers[0].number in canonical && canonical[headers[0].number] == headers[0].hash;
    assert Covers(headers, headers[0].number);
  }

  /** What else the batch holds: the deletion of everything above. */
  lemma SwitchedRest(db: Blocks, canonical: map<nat, Hash>, head: Hash, headers: seq<Block>, deletions: Batch,
                     walked: Batch, batch: Batch, link: nat, below: Hash, lo: nat)
    requires CanonicalFor(db, canonical, head) && headers != []
    requires headers[|headers| - 1].number == headers[0].number + |headers| - 1
    requires forall n: nat :: n in deletions <==> headers[|headers| - 1].number < n <= db[head].number
    requires forall n :: n in deletions ==> deletions[n] == NO_HASH
    requires Walked(db, headers[0], deletions, walked, link, below) && ExtendedBy(headers, walked, batch)
    requires lo == if link <= headers[0].number then link else headers[0].number
    ensures var last := headers[|headers| - 1];
      && last.number in batch && batch[last.number] == last.hash
      && (forall n: nat :: n in batch ==> n >= lo)
      && (forall n: nat :: n > last.number && n in canonical ==> n in batch)
      && (forall n: nat :: n in batch && n > last.number ==> batch[n] == NO_HASH)
  {
    assert Covers(headers, headers[|headers| - 1].number);
  }

  lemma SegmentsMeet(db: Blocks, headers: seq<Block>, walked: Batch, batch: Batch, lo: nat)
    requires headers != [] && lo <= headers[0].number && ExtendedBy(headers, walked, batch)
    requires Segment(db, batch, headers[0].number, headers[0].number + |headers| - 1)
    requires lo < headers[0].number ==>
      Segment(db, walked, lo, headers[0].number) && walked[headers[0].number] == headers[0].hash
    ensures Segment(db, batch, lo, headers[0].number + |headers| - 1)
  {
  }

  lemma HeadersLinked(db: Blocks, headers: seq<Block>, batch: Batch)
    requires Contiguous(headers) && headers != [] && Stored(db, headers)
    requires forall n: nat :: Covers(headers, n) ==> n in batch && batch[n] == headers[n - headers[0].number].hash
    ensures Segment(db, batch, headers[0].number, headers[0].number + |headers| - 1)
  {
    var base := headers[0].number;
    forall n: nat | base <= n < base + |headers|
      ensures n in batch && batch[n] in db && db[batch[n]].number == n
      ensures n > base ==> db[batch[n]].parent == batch[n - 1]
    {
      NumbersAscend(headers, n - base);
      assert Covers(headers, n);
      assert n > base ==> Covers(headers, n - 1);
    }
  }

  /** A linked segment on top of the canonical path below it, with everything above deleted, is the canonical
      path of its last block. */
  lemma Joined(db: Blocks, canonical: map<nat, Hash>, head: Hash, batch: Batch, lo: nat, last: Block)
    requires WellFormed(db) && CanonicalFor(db, canonical, head)
    requires
      && last.hash in db && db[last.hash] == last && lo <= last.number
      && Segment(db, batch, lo, last.number) && batch[last.number] == last.hash
      && (lo > 0 ==> Read(canonical, lo - 1) == db[batch[lo]].parent)
      && (forall n: nat :: n in batch ==> n >= lo)
      && (forall n: nat :: n > last.number && n in canonical ==> n in batch)
      && (forall n: nat :: n in batch && n > last.number ==> batch[n] == NO_HASH)
    ensures CanonicalFor(db, Apply(canonical, batch), last.hash)
  {
    var r := Apply(canonical, batch);
    if lo > 0 {
      assert db[batch[lo]].parent != NO_HASH;
      assert lo - 1 in canonical;
    }
    forall n: nat
      ensures n in r <==> n <= last.number
    {
    }
    forall n: nat | n in r && n > 0
      ensures db[r[n]].parent == r[n - 1]
    {
    }
  }
}
