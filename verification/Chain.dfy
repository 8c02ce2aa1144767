/** Blocks linked by parent hashes, and the canonical number-to-hash map over them. */
module Chain {
  import opened Options

  /** Hashes name blocks one to one; zero is what a missing database entry reads as. */
  type Hash = nat
  const NO_HASH: Hash := 0

  /** The transactions of a header are none; only block databases fill them in. */
  datatype Block = Block(hash: Hash, parent: Hash, number: nat, txs: seq<Hash>)

  type Blocks = map<Hash, Block>

  /** Stored blocks sit under their own hash, and a stored parent has the number before. */
  ghost predicate WellFormed(db: Blocks)
  {
    forall h :: h in db ==>
      && h != NO_HASH && db[h].hash == h
      && (db[h].number > 0 ==> db[h].parent != NO_HASH)
      && (db[h].parent in db ==> db[h].number == db[db[h].parent].number + 1)
  }

  /** GetHeader and GetBlock: looked up by hash and number together. */
  function Lookup(db: Blocks, hash: Hash, number: int): (r: Option<Block>)
    ensures r.Some? ==> hash in db && r.value == db[hash] && db[hash].number == number
  {
    if hash in db && db[hash].number == number then Some(db[hash]) else None
  }

  /** The hash k steps up from a block, or none when a block on the way is not stored. */
  function Ancestor(db: Blocks, hash: Hash, number: nat, k: nat): Hash
    decreases k
  {
    if k == 0 then hash
    else
      match Lookup(db, hash, number)
      case None => NO_HASH
      case Some(b) => if number == 0 then NO_HASH else Ancestor(db, b.parent, number - 1, k - 1)
  }

  /** Going up j steps and then i is going up i + j, gaps included. */
  lemma {:induction false} AncestorComposes(db: Blocks, hash: Hash, number: nat, j: nat, i: nat)
    requires NO_HASH !in db && j <= number
    ensures Ancestor(db, hash, number, j + i) == Ancestor(db, Ancestor(db, hash, number, j), number - j, i)
    decreases j
  {
    if j > 0 && Lookup(db, hash, number).Some? {
      AncestorComposes(db, db[hash].parent, number - 1, j - 1, i);
    }
  }

  /** A walk that finds its ancestor finds the same one when more blocks are stored. */
  lemma {:induction false} AncestorSurvives(before: Blocks, after: Blocks, hash: Hash, number: nat, k: nat)
    requires Ancestor(before, hash, number, k) != NO_HASH
    requires forall h :: h in before ==> h in after && after[h] == before[h]
    ensures Ancestor(after, hash, number, k) == Ancestor(before, hash, number, k)
    decreases k
  {
    if k > 0 {
      AncestorSurvives(before, after, before[hash].parent, number - 1, k - 1);
    }
  }

  /** The canonical map holds exactly the ancestor path of `head`, with nothing above it. */
  ghost predicate CanonicalFor(db: Blocks, canonical: map<nat, Hash>, head: Hash)
  {
    && head in db
    && (forall n: nat :: n in canonical <==> n <= db[head].number)
    && canonical[db[head].number] == head
    && (forall n: nat :: n in canonical ==> canonical[n] in db && db[canonical[n]].number == n)
    && (forall n: nat :: n in canonical && n > 0 ==> db[canonical[n]].parent == canonical[n - 1])
  }

  /** ReadCanonicalHash. */
  function Read(canonical: map<nat, Hash>, n: int): Hash
  {
    if n >= 0 && n in canonical then canonical[n] else NO_HASH
  }

  /** On the canonical path the k-th ancestor is simply the entry k below. */
  lemma {:induction false} CanonicalAncestor(db: Blocks, canonical: map<nat, Hash>, head: Hash, n: nat, k: nat)
    requires CanonicalFor(db, canonical, head) && n in canonical && k <= n
    ensures Ancestor(db, canonical[n], n, k) == canonical[n - k]
    decreases k
  {
    if k > 0 {
      CanonicalAncestor(db, canonical, head, n - 1, k - 1);
    }
  }

  /** A block has only one ancestor path, so only one canonical map can belong to a head. */
  lemma CanonicalIsUnique(db: Blocks, a: map<nat, Hash>, b: map<nat, Hash>, head: Hash)
    requires CanonicalFor(db, a, head) && CanonicalFor(db, b, head)
    ensures a == b
  {
    forall n: nat | n in a
      ensures n in b && a[n] == b[n]
    {
      var top := db[head].number;
      CanonicalAncestor(db, a, head, top, top - n);
      CanonicalAncestor(db, b, head, top, top - n);
    }
  }
}
