/** The chain indexer: sections of the canonical chain processed in the background while the chain moves on.

    Each method is one step that the indexer takes under its lock, or one read of the chain database, so a run is
    any sequence of them. */
module ChainIndexer {
  import opened Options
  import opened Chain

  /** What the update loop is doing between its two critical sections. `lastHead` is the last header handed to the
      backend and `number` the next one to read. */
  datatype Work =
    | Idle
    | Working(section: nat, oldHead: Hash, lastHead: Hash, number: nat)
    | Failed

  /** The number of the first block of a section: the section times the size. */
  function First(size: nat, section: nat): nat
  {
    if section == 0 then 0 else First(size, section - 1) + size
  }

  function Last(size: nat, section: nat): nat
    requires size > 0
  {
    First(size, section) + size - 1
  }

  /** Sections are counted by dividing the number of blocks, and cover no more blocks than there are. */
  lemma {:induction false} Complete(size: nat, blocks: nat, sections: nat)
    requires size > 0
    ensures First(size, sections) == sections * size
    ensures sections <= blocks / size <==> First(size, sections) <= blocks
  {
    FirstIsProduct(size, sections);
    DivisionBounds(blocks, size, sections);
  }

  lemma {:induction false} FirstIsProduct(size: nat, section: nat)
    ensures First(size, section) == section * size
  {
    if section > 0 {
      FirstIsProduct(size, section - 1);
    }
  }

  lemma DivisionBounds(blocks: nat, size: nat, sections: nat)
    requires size > 0
    ensures sections <= blocks / size <==> sections * size <= blocks
  {
    var q := blocks / size;
    assert blocks == q * size + blocks % size;
    if sections <= q {
      assert sections * size <= q * size;
    } else {
      assert (q + 1) * size <= sections * size;
    }
  }

  /** The head of a section is exactly one section of parents above the head of the section before. */
  ghost predicate Linked(db: Blocks, size: nat, heads: map<nat, Hash>, i: nat)
    requires i > 0 && i - 1 in heads && i in heads && size > 0
  {
    Ancestor(db, heads[i], Last(size, i), size) == heads[i - 1]
  }

  /** The first section whose head the index has to know. Below a checkpoint nothing is known. */
  function Lowest(stored: nat, checkpoint: nat): nat
  {
    if stored < checkpoint || checkpoint == 0 then 0 else checkpoint - 1
  }

  /** The stored heads, from the lowest, form one chain. */
  ghost predicate HeadsLinked(db: Blocks, size: nat, heads: map<nat, Hash>, stored: nat, checkpoint: nat)
    requires size > 0
  {
    && (forall i: nat :: i in heads ==> i < stored && heads[i] != NO_HASH)
    && (forall i: nat :: Lowest(stored, checkpoint) <= i < stored ==> i in heads)
    && (forall i: nat :: Lowest(stored, checkpoint) < i < stored ==> Linked(db, size, heads, i))
  }

  ghost predicate Restricts(less: map<nat, Hash>, heads: map<nat, Hash>, stored: nat)
  {
    && (forall i: nat :: i in less <==> i in heads && i < stored)
    && (forall i: nat :: i in less ==> less[i] == heads[i])
  }

  /** Dropping sections from the end keeps the rest linked, as long as the checkpoint is kept or all is dropped. */
  lemma Shrinks(db: Blocks, size: nat, heads: map<nat, Hash>, stored: nat, checkpoint: nat, less: map<nat, Hash>,
                fewer: nat)
    requires size > 0 && HeadsLinked(db, size, heads, stored, checkpoint)
    requires fewer <= stored && (fewer == 0 || fewer >= checkpoint) && Restricts(less, heads, fewer)
    ensures HeadsLinked(db, size, less, fewer, checkpoint)
  {
    forall i: nat | Lowest(fewer, checkpoint) < i < fewer
      ensures Linked(db, size, less, i)
    {
      assert Linked(db, size, heads, i);
    }
  }

  /** Every stored head from the lowest is the canonical hash of the last block of its section. */
  ghost predicate AllCanonical(size: nat, heads: map<nat, Hash>, stored: nat, checkpoint: nat, canonical: map<nat, Hash>)
    requires size > 0
  {
    forall i: nat :: Lowest(stored, checkpoint) <= i < stored && i in heads ==>
      heads[i] == Read(canonical, Last(size, i))
  }

  /** How far the section in progress has come. */
  ghost predicate Progress(db: Blocks, size: nat, w: Work)
    requires w.Working?
  {
    && First(size, w.section) <= w.number <= First(size, w.section) + size
    && (w.section > 0 ==> w.oldHead != NO_HASH)
    && (w.number == First(size, w.section) ==> w.lastHead == w.oldHead)
    && (w.number > First(size, w.section) ==> w.lastHead != NO_HASH)
    && (w.section > 0 && w.number > 0 ==>
          Ancestor(db, w.lastHead, w.number - 1, w.number - First(size, w.section)) == w.oldHead)
  }

  class ChainIndexer {
    const sectionSize: nat
    const confirmsReq: nat
    var db: Blocks
    var canonical: map<nat, Hash>
    var sectionHeads: map<nat, Hash>
    var storedSections: nat
    var knownSections: nat
    var cascadedHead: nat
    var checkpointSections: nat
    var checkpointHead: Hash
    var work: Work

    /** Nothing is said here about the canonical map: it may be anything, even half rewritten. */
    ghost predicate Valid()
      reads this
    {
      && sectionSize > 0 && WellFormed(db)
      && HeadsLinked(db, sectionSize, sectionHeads, storedSections, checkpointSections)
      && (work.Working? ==> storedSections <= work.section && Progress(db, sectionSize, work))
      && (work.Working? && storedSections == work.section > 0 ==> sectionHeads[work.section - 1] == work.oldHead)
    }

    constructor (size: nat, confirms: nat, db: Blocks, canonical: map<nat, Hash>)
      requires size > 0 && WellFormed(db)
      ensures Valid() && storedSections == 0 && knownSections == 0 && work == Idle
      ensures sectionSize == size && confirmsReq == confirms && checkpointSections == 0
    {
      sectionSize, confirmsReq := size, confirms;
      this.db, this.canonical := db, canonical;
      sectionHeads, storedSections, knownSections, cascadedHead := map[], 0, 0, 0;
      checkpointSections, checkpointHead, work := 0, NO_HASH, Idle;
    }

    function SectionHead(section: int): Hash
      reads this
    {
      Read(sectionHeads, section)
    }

    method SetSectionHead(section: nat, hash: Hash)
      modifies this`sectionHeads
      ensures sectionHeads == old(sectionHeads)[section := hash]
    {
      sectionHeads := sectionHeads[section := hash];
    }

    /** Drops the heads of sections that are no longer valid. */
    method SetValidSections(sections: nat)
      requires forall i: nat :: i in sectionHeads ==> i < storedSections || i < sections
      modifies this`sectionHeads, this`storedSections
      ensures storedSections == sections
      ensures Restricts(sectionHeads, old(sectionHeads), sections)
    {
      while storedSections > sections
        invariant forall i: nat :: i in sectionHeads <==>
          i in old(sectionHeads) && (i < storedSections || i < sections)
        invariant forall i: nat :: i in sectionHeads ==> sectionHeads[i] == old(sectionHeads)[i]
      {
        storedSections := storedSections - 1;
        sectionHeads := sectionHeads - {storedSections};
      }
      storedSections := sections;
    }

    /** A checkpoint, trusted and not linked to anything; added while no section is being processed. */
    method AddCheckpoint(section: nat, head: Hash)
      requires Valid() && work.Idle? && head != NO_HASH
      modifies this
      ensures Valid() && work == old(work) && db == old(db) && canonical == old(canonical)
      ensures if old(checkpointSections) >= section + 1 || section < old(storedSections)
              then storedSections == old(storedSections) && sectionHeads == old(sectionHeads)
              else && storedSections == checkpointSections == section + 1 && checkpointHead == head
                   && Restricts(sectionHeads, old(sectionHeads)[section := head], section + 1)
      ensures knownSections == old(knownSections)
    {
      if checkpointSections >= section + 1 || section < storedSections {
        return;
      }
      checkpointSections, checkpointHead := section + 1, head;
      SetSectionHead(section, head);
      SetValidSections(section + 1);
    }

    /** The head of the last stored section is canonical, unless there is only the checkpoint. */
    predicate LastAgrees()
      requires sectionSize > 0
      reads this
    {
      storedSections > 0 && storedSections > checkpointSections ==>
        SectionHead(storedSections - 1) == Read(canonical, Last(sectionSize, storedSections - 1))
    }

    /** Rolls back to the last stored section whose head is canonical, and no further. When the canonical chain is
        well formed that one check vouches for every section below. */
    method VerifyLastHead(ghost head: Hash)
      requires Valid()
      modifies this`sectionHeads, this`storedSections
      ensures Valid() && Restricts(sectionHeads, old(sectionHeads), storedSections) && storedSections <= old(storedSections)
      ensures storedSections < old(storedSections) ==> storedSections >= checkpointSections
      ensures forall i: nat :: storedSections <= i < old(storedSections) ==>
        old(SectionHead(i)) != Read(canonical, Last(sectionSize, i))
      ensures LastAgrees()
      ensures CanonicalFor(db, canonical, head) && storedSections > checkpointSections ==>
        AllCanonical(sectionSize, sectionHeads, storedSections, checkpointSections, canonical)
    {
      while storedSections > 0 && storedSections > checkpointSections
        invariant Valid() && storedSections <= old(storedSections)
        invariant storedSections < old(storedSections) ==> storedSections >= checkpointSections
        invariant Restricts(sectionHeads, old(sectionHeads), storedSections)
        invariant forall i: nat :: storedSections <= i < old(storedSections) ==>
          old(SectionHead(i)) != Read(canonical, Last(sectionSize, i))
      {
        if SectionHead(storedSections - 1) == Read(canonical, Last(sectionSize, storedSections - 1)) {
          if CanonicalFor(db, canonical, head) {
            LastVouchesForAll(db, canonical, head, sectionSize, sectionHeads, storedSections, checkpointSections);
          }
          return;
        }
        ghost var heads, stored := sectionHeads, storedSections;
        SetValidSections(storedSections - 1);
        Shrinks(db, sectionSize, heads, stored, checkpointSections, sectionHeads, storedSections);
      }
    }

    /** A chain with this head has all blocks of the checkpoint. */
    predicate PastCheckpoint(head: int)
      requires sectionSize > 0
      reads this`checkpointSections
    {
      checkpointSections == 0 || Last(sectionSize, checkpointSections - 1) <= head
    }

    /** A chain that reaches the checkpoint for the first time has its head there. */
    predicate Agrees(known: nat)
      requires sectionSize > 0
      reads this`checkpointSections, this`checkpointHead, this`canonical
    {
      known < checkpointSections ==> Read(canonical, Last(sectionSize, checkpointSections - 1)) == checkpointHead
    }

    /** After a reorg, known is what was and is whole in a chain with the new head, and children have been told of no
        block beyond the first after that. */
    ghost predicate AfterReorg(known: nat, cascaded: nat, head: nat)
      requires sectionSize > 0
      reads this`knownSections, this`checkpointSections, this`cascadedHead
    {
      exists k: nat ::
        && Whole(sectionSize, checkpointSections, k, head)
        && knownSections == (if k < known then k else known)
        && cascadedHead == if First(sectionSize, k) < cascaded then First(sectionSize, k) else cascaded
    }

    /** After a new head, known is what was and, once the checkpoint is confirmed and agreed with, what is
        confirmed. */
    ghost predicate KnownAfterHead(before: nat, head: nat)
      requires sectionSize > 0
      reads this`knownSections, this`checkpointSections, this`checkpointHead, this`canonical
    {
      forall i: nat :: i < knownSections <==>
        i < before
        || (Last(sectionSize, i) + confirmsReq <= head && PastCheckpoint(head - confirmsReq) && Agrees(before))
    }

    /** newHead. After a reorg to block `head` only sections that end by then stay known or, above the checkpoint,
        stored. A new head makes sections known once they are confirmed, but none before the chain has reached
        the checkpoint and agrees with it. */
    method NewHead(head: nat, reorg: bool)
      requires Valid()
      modifies this`sectionHeads, this`storedSections, this`knownSections, this`cascadedHead
      ensures Valid() && Restricts(sectionHeads, old(sectionHeads), storedSections)
      ensures reorg ==> AfterReorg(old(knownSections), old(cascadedHead), head)
      ensures reorg ==> forall i: nat :: checkpointSections <= i < old(storedSections) ==>
        (i < storedSections <==> Last(sectionSize, i) <= head)
      ensures !reorg ==> storedSections == old(storedSections) && cascadedHead == old(cascadedHead)
      ensures !reorg ==> KnownAfterHead(old(knownSections), head)
    {
      if reorg {
        Reorged(head);
      } else {
        Confirmed(head);
      }
    }

    /** The whole sections up to a block, as far as the checkpoint lets them count, and those that may stay stored. */
    method SectionsUpTo(head: nat) returns (known: nat, stored: nat)
      requires sectionSize > 0
      ensures Whole(sectionSize, checkpointSections, known, head) && stored >= checkpointSections
      ensures forall i: nat :: checkpointSections <= i ==> (i < stored <==> Last(sectionSize, i) <= head)
    {
      known := Count(head + 1);
      assert checkpointSections > 0 ==>
        (checkpointSections - 1 < known <==> Last(sectionSize, checkpointSections - 1) < head + 1);
      stored := known;
      if known < checkpointSections {
        known := 0;
      }
      if stored < checkpointSections {
        stored := checkpointSections;
      }
    }

    method Reorged(head: nat)
      requires Valid()
      modifies this`sectionHeads, this`storedSections, this`knownSections, this`cascadedHead
      ensures Valid() && Restricts(sectionHeads, old(sectionHeads), storedSections)
      ensures AfterReorg(old(knownSections), old(cascadedHead), head)
      ensures forall i: nat :: checkpointSections <= i < old(storedSections) ==>
        (i < storedSections <==> Last(sectionSize, i) <= head)
    {
      var known, stored := SectionsUpTo(head);
      if known < knownSections {
        knownSections := known;
      }
      RollBack(stored);
      var cascaded := First(sectionSize, known);
      if cascaded < cascadedHead {
        cascadedHead := cascaded;
      }
    }

    method Confirmed(head: nat)
      requires Valid()
      modifies this`knownSections
      ensures Valid()
      ensures KnownAfterHead(old(knownSections), head)
    {
      if head >= confirmsReq {
        var sections := Count(head + 1 - confirmsReq);
        assert checkpointSections > 0 ==>
          (checkpointSections - 1 < sections <==> Last(sectionSize, checkpointSections - 1) < head + 1 - confirmsReq);
        if sections < checkpointSections {
          sections := 0;
        }
        if sections > knownSections {
          if knownSections < checkpointSections &&
             Read(canonical, First(sectionSize, checkpointSections) - 1) != checkpointHead {
            return;
          }
          knownSections := sections;
        }
      }
    }

    /** The complete sections among the first blocks. */
    method Count(blocks: nat) returns (sections: nat)
      requires sectionSize > 0
      ensures First(sectionSize, sections) <= blocks
      ensures forall i: nat :: i < sections <==> Last(sectionSize, i) < blocks
    {
      sections := blocks / sectionSize;
      CountsSections(sectionSize, blocks, sections);
    }

    method RollBack(stored: nat)
      requires Valid() && stored >= checkpointSections
      modifies this`sectionHeads, this`storedSections
      ensures Valid() && Restricts(sectionHeads, old(sectionHeads), storedSections)
      ensures storedSections == if stored < old(storedSections) then stored else old(storedSections)
    {
      if stored < storedSections {
        ghost var heads, before := sectionHeads, storedSections;
        SetValidSections(stored);
        Shrinks(db, sectionSize, heads, before, checkpointSections, sectionHeads, storedSections);
      }
    }

    /** The chain moves on: blocks are added, and the canonical map becomes anything at all. */
    method MoveChain(more: Blocks, map': map<nat, Hash>)
      requires Valid() && WellFormed(more) && Includes(db, more)
      modifies this`db, this`canonical
      ensures Valid() && db == more && canonical == map'
    {
      LinksSurvive(db, more, sectionSize, sectionHeads, storedSections, checkpointSections);
      ProgressSurvives(db, more, sectionSize, work);
      db, canonical := more, map';
    }

    /** The first critical section of an update: the section to process and the head before it are remembered. */
    method Begin(ghost head: Hash)
      requires Valid() && work.Idle?
      modifies this`sectionHeads, this`storedSections, this`work
      ensures Valid() && (work.Working? <==> knownSections > old(storedSections))
      ensures work.Working? ==> work.section == storedSections && work.number == First(sectionSize, storedSections)
      ensures work.Working? ==> LastAgrees() && work.oldHead == work.lastHead == SectionHead(storedSections - 1)
    {
      if knownSections > storedSections {
        VerifyLastHead(head);
        var section, oldHead := storedSections, NO_HASH;
        if section > 0 {
          oldHead := SectionHead(section - 1);
        }
        work := Working(section, oldHead, oldHead, First(sectionSize, section));
      }
    }

    /** The backend refuses to start the section: the whole index is dropped. */
    method ResetFails()
      requires Valid() && work.Working?
      modifies this`sectionHeads, this`storedSections, this`work
      ensures Valid() && storedSections == 0 && work == Failed
    {
      ghost var heads, stored := sectionHeads, storedSections;
      SetValidSections(0);
      Shrinks(db, sectionSize, heads, stored, checkpointSections, sectionHeads, storedSections);
      work := Failed;
    }

    /** A header with this hash and number is stored, and its parent is the one given. */
    static predicate Extends(db: Blocks, hash: Hash, number: nat, parent: Hash)
    {
      var header := Lookup(db, hash, number);
      header.Some? && header.value.parent == parent
    }

    /** One round of the loop over the headers of a section, with the canonical map as it is just now. */
    method ReadNext(processed: bool)
      requires Valid() && work.Working? && work.number < First(sectionSize, work.section) + sectionSize
      modifies this`work
      ensures Valid()
      ensures work.Failed? <==>
        || !processed || Read(canonical, old(work.number)) == NO_HASH
        || !Extends(db, Read(canonical, old(work.number)), old(work.number), old(work.lastHead))
      ensures work.Failed? || work == old(work).(lastHead := Read(canonical, old(work.number)), number := old(work.number) + 1)
    {
      var hash := Read(canonical, work.number);
      if hash == NO_HASH {
        work := Failed;
        return;
      }
      var header := Lookup(db, hash, work.number);
      if header.None? || header.value.parent != work.lastHead || !processed {
        work := Failed;
        return;
      }
      work := work.(lastHead := header.value.hash, number := work.number + 1);
    }

    /** The second critical section of an update. The section is stored exactly when it was processed to its end and
        nothing has been rolled back meanwhile; otherwise nothing is known beyond what is stored. */
    method Finish(committed: bool, ghost head: Hash)
      requires Valid()
      requires work.Failed? || (work.Working? && work.number == First(sectionSize, work.section) + sectionSize)
      modifies this`sectionHeads, this`storedSections, this`knownSections, this`cascadedHead, this`work
      ensures Valid() && work == Idle
      ensures if committed && old(work.Working? && storedSections == work.section)
              then && storedSections == old(storedSections) + 1
                   && sectionHeads == old(sectionHeads)[old(storedSections) := old(work.lastHead)]
                   && cascadedHead == First(sectionSize, storedSections) - 1
              else && storedSections <= old(storedSections) && knownSections == storedSections && LastAgrees()
                   && Restricts(sectionHeads, old(sectionHeads), storedSections)
    {
      if committed && work.Working? && (work.section == 0 || work.oldHead == SectionHead(work.section - 1)) {
        Stores(db, sectionSize, sectionHeads, storedSections, checkpointSections, work);
        var section, lastHead := work.section, work.lastHead;
        work := Idle;
        SetSectionHead(section, lastHead);
        SetValidSections(section + 1);
        assert sectionHeads == old(sectionHeads)[section := lastHead];
        cascadedHead := First(sectionSize, storedSections) - 1;
      } else {
        work := Idle;
        VerifyLastHead(head);
        knownSections := storedSections;
      }
    }

    /** What clients see: with a well-formed canonical chain, sections of that chain only. */
    method Sections(ghost head: Hash) returns (sections: nat, last: Hash)
      requires Valid()
      modifies this`sectionHeads, this`storedSections
      ensures Valid() && sections == storedSections && last == SectionHead(sections - 1)
      ensures CanonicalFor(db, canonical, head) && sections > checkpointSections ==>
        && last == Read(canonical, Last(sectionSize, sections - 1))
        && AllCanonical(sectionSize, sectionHeads, storedSections, checkpointSections, canonical)
    {
      VerifyLastHead(head);
      sections, last := storedSections, SectionHead(storedSections - 1);
    }

    /** Any interleaving of notifications, chain changes, queries and background work. A step that does not apply to
        what the update loop is doing is passed over. */
    method Run(events: seq<Event>)
      requires Valid() && Feasible(db, events)
      modifies this
      ensures Valid()
      decreases |events|
    {
      if events == [] {
        return;
      }
      Take(events[0]);
      Run(events[1..]);
    }

    method Take(e: Event)
      requires Valid()
      requires e.Moved? ==> WellFormed(e.db) && Includes(db, e.db)
      modifies this
      ensures Valid() && db == if e.Moved? then e.db else old(db)
    {
      match e
      case Notified(head, reorg) => NewHead(head, reorg);
      case Moved(more, map') => MoveChain(more, map');
      case Queried =>
        var _, _ := Sections(NO_HASH);
      case Ticked =>
        if work.Idle? {
          Begin(NO_HASH);
        }
      case Reset =>
        if work.Working? {
          ResetFails();
        }
      case Advanced(ok) =>
        if work.Failed? {
          Finish(ok, NO_HASH);
        } else if work.Working? {
          if work.number < First(sectionSize, work.section) + sectionSize {
            ReadNext(ok);
          } else {
            Finish(ok, NO_HASH);
          }
        }
    }
  }

  /** The whole sections of a chain with this head; none counts if it does not reach the checkpoint. */
  ghost predicate Whole(size: nat, checkpoint: nat, sections: nat, head: nat)
    requires size > 0
  {
    forall i: nat :: i < sections <==>
      Last(size, i) <= head && (checkpoint == 0 || Last(size, checkpoint - 1) <= head)
  }

  /** A step of the indexer or of its surroundings. */
  datatype Event =
    | Notified(head: nat, reorg: bool)
    | Moved(db: Blocks, canonical: map<nat, Hash>)
    | Queried
    | Ticked
    | Reset
    | Advanced(ok: bool)

  ghost predicate Includes(before: Blocks, after: Blocks)
  {
    forall h :: h in before ==> h in after && after[h] == before[h]
  }

  /** Blocks are only ever added. */
  ghost predicate Feasible(db: Blocks, events: seq<Event>)
    decreases |events|
  {
    events != [] ==>
      if events[0].Moved?
      then WellFormed(events[0].db) && Includes(db, events[0].db) && Feasible(events[0].db, events[1..])
      else Feasible(db, events[1..])
  }

  lemma CountsSections(size: nat, blocks: nat, sections: nat)
    requires size > 0 && sections == blocks / size
    ensures First(size, sections) <= blocks
    ensures forall i: nat :: i < sections <==> Last(size, i) < blocks
  {
    Complete(size, blocks, sections);
    forall i: nat
      ensures i < sections <==> Last(size, i) < blocks
    {
      Complete(size, blocks, i + 1);
    }
  }

  lemma LinksSurvive(before: Blocks, after: Blocks, size: nat, heads: map<nat, Hash>, stored: nat, checkpoint: nat)
    requires size > 0 && Includes(before, after) && HeadsLinked(before, size, heads, stored, checkpoint)
    ensures HeadsLinked(after, size, heads, stored, checkpoint)
  {
    forall i: nat | Lowest(stored, checkpoint) < i < stored
      ensures Linked(after, size, heads, i)
    {
      assert Linked(before, size, heads, i);
      AncestorSurvives(before, after, heads[i], Last(size, i), size);
    }
  }

  lemma ProgressSurvives(before: Blocks, after: Blocks, size: nat, w: Work)
    requires Includes(before, after) && (w.Working? ==> Progress(before, size, w))
    ensures w.Working? ==> Progress(after, size, w)
  {
    if w.Working? && w.section > 0 && w.number > 0 {
      AncestorSurvives(before, after, w.lastHead, w.number - 1, w.number - First(size, w.section));
    }
  }

  /** The head of a section processed to its end is linked to the head stored before it. */
  lemma Stores(db: Blocks, size: nat, heads: map<nat, Hash>, stored: nat, checkpoint: nat, w: Work)
    requires size > 0 && HeadsLinked(db, size, heads, stored, checkpoint)
    requires w.Working? && Progress(db, size, w) && w.number == First(size, w.section) + size
    requires stored == w.section && (w.section > 0 ==> heads[w.section - 1] == w.oldHead)
    ensures HeadsLinked(db, size, heads[w.section := w.lastHead], stored + 1, checkpoint)
  {
    var more := heads[w.section := w.lastHead];
    forall i: nat | Lowest(stored + 1, checkpoint) < i < stored + 1
      ensures Linked(db, size, more, i)
    {
      if i < stored {
        assert Linked(db, size, heads, i);
      }
    }
  }

  /** One section down a linked chain of canonical heads. */
  lemma {:induction false} Vouches(db: Blocks, canonical: map<nat, Hash>, head: Hash, size: nat,
                                   heads: map<nat, Hash>, stored: nat, checkpoint: nat, i: nat)
    requires size > 0 && WellFormed(db) && CanonicalFor(db, canonical, head)
    requires HeadsLinked(db, size, heads, stored, checkpoint)
    requires Lowest(stored, checkpoint) <= i < stored
    requires heads[stored - 1] == Read(canonical, Last(size, stored - 1))
    ensures heads[i] == Read(canonical, Last(size, i))
    decreases stored - i
  {
    if i < stored - 1 {
      Vouches(db, canonical, head, size, heads, stored, checkpoint, i + 1);
      assert Linked(db, size, heads, i + 1);
      CanonicalAncestor(db, canonical, head, Last(size, i + 1), size);
    }
  }

  lemma LastVouchesForAll(db: Blocks, canonical: map<nat, Hash>, head: Hash, size: nat, heads: map<nat, Hash>,
                          stored: nat, checkpoint: nat)
    requires size > 0 && WellFormed(db) && CanonicalFor(db, canonical, head) && stored > 0
    requires HeadsLinked(db, size, heads, stored, checkpoint)
    requires heads[stored - 1] == Read(canonical, Last(size, stored - 1))
    ensures AllCanonical(size, heads, stored, checkpoint, canonical)
  {
    forall i: nat | Lowest(stored, checkpoint) <= i < stored
      ensures heads[i] == Read(canonical, Last(size, i))
    {
      Vouches(db, canonical, head, size, heads, stored, checkpoint, i);
    }
  }
}
