/** The single writer of the canonical chain: it allocates dense ids for new blocks and
    finds the ids of returning ones. */
module CanonicalManager {
  import opened Options
  import opened CanonicalChain

  datatype BlockHash = BlockHash(digest: nat)

  datatype Metadata = Metadata(blockHash: BlockHash, parentId: nat)

  ghost predicate EntryAt(base: nat, entries: seq<Metadata>, id: nat, h: BlockHash) {
    base <= id < base + |entries| && entries[id - base].blockHash == h
  }

  /** `index` finds exactly the live entries, each under its own id. */
  ghost predicate Indexed(base: nat, entries: seq<Metadata>, index: map<BlockHash, nat>) {
    && (forall h :: h in index ==> EntryAt(base, entries, index[h], h))
    && (forall i :: 0 <= i < |entries| ==> entries[i].blockHash in index)
    && (forall i, j :: 0 <= i < j < |entries| ==> entries[i].blockHash != entries[j].blockHash)
  }

  class CanonicalChainManager {
    const chain: CanonicalChain
    var base: nat
    var entries: seq<Metadata>
    var index: map<BlockHash, nat>
    /** Every id ever allocated. */
    ghost var issued: set<nat>

    /** The id the next new block gets. */
    function NextId(): nat
      reads this
    {
      base + |entries|
    }

    ghost predicate Valid()
      reads this, chain
    {
      && chain.Valid() && base >= 1 && Indexed(base, entries, index)
      && (forall id :: id in issued ==> id < NextId())
      && chain.current.tip < NextId() && chain.current.hot.tailBucket * CAPACITY < NextId()
      && (chain.RingTip() > 0 ==> (chain.RingTip() + 1) * CAPACITY < NextId())
    }

    /** An empty manager with a chain of its own. */
    constructor ()
      ensures Valid() && fresh(chain) && NextId() == 1 && issued == {} && index == map[]
      ensures chain.Canonical() == {} && chain.Refines({}) && chain.floor == 1
      ensures chain.current.tip == 0 && chain.current.hot.tailBucket == 0 && chain.RingTip() == 0
    {
      hide Consistent;
      hide Exact;
      chain := new CanonicalChain();
      base, entries, index, issued := 1, [], map[], {};
    }

    /** Ingests a block. A new block gets a fresh id, which always fits; a returning one is
        canonical again if it lies above the tip, and the chain goes on as the plain set with
        it exactly if it fits. */
    method Append(m: Metadata) returns (id: nat, isNew: bool)
      requires Valid()
      modifies this, chain
      ensures Valid() && (isNew <==> m.blockHash !in old(index)) && id > 0
      ensures chain.floor == old(chain.floor)
      ensures Stable(old(chain.Cells()), chain.Cells(), old(chain.published), chain.floor)
      ensures isNew ==>
                && id == old(NextId()) && id !in old(issued) && issued == old(issued) + {id}
                && NextId() == id + 1 && index == old(index)[m.blockHash := id]
                && (old(chain.Refines(chain.Canonical())) ==>
                      chain.Refines(chain.Canonical()) && chain.Canonical() == old(chain.Canonical()) + {id})
      ensures !isNew ==>
                && id == old(index)[m.blockHash] && index == old(index)
                && issued == old(issued) && NextId() == old(NextId())
      ensures isNew || id > old(chain.current.tip) ==>
                && Appends(old(chain.Cells()), old(chain.current), chain.Cells(), chain.current, id)
                && (old(chain.Refines(chain.Canonical())) ==>
                      (chain.Refines(old(chain.Canonical()) + {id})
                       <==> Fits(old(chain.Cells()), old(chain.current), old(chain.Canonical()), chain.floor, id)))
      ensures !isNew && id <= old(chain.current.tip) ==>
                chain.Cells() == old(chain.Cells()) && chain.current == old(chain.current)
    {
      hide Consistent;
      hide Stable;
      hide RefsKnown;
      hide IsCanonical;
      hide Exact;
      if m.blockHash in index {
        id, isNew := index[m.blockHash], false;
        LocateIsExact(id);
        if id > chain.current.tip {
          chain.Append(id);
        } else {
          NothingIsStable(chain.Cells(), chain.published, chain.floor);
        }
        return;
      }
      id := Push(m);
      isNew := true;
      FreshIdsExtendTheChain(id, chain.current.hot.tailBucket);
      chain.Append(id);
    }

    /** Allocates the next dense id. */
    method Push(m: Metadata) returns (id: nat)
      requires Valid() && m.blockHash !in index
      modifies this
      ensures Valid() && id == old(NextId()) && NextId() == id + 1
      ensures base == old(base) && entries == old(entries) + [m] && index == old(index)[m.blockHash := id]
      ensures id !in old(issued) && issued == old(issued) + {id}
    {
      hide Consistent;
      id := base + |entries|;
      index := index[m.blockHash := id];
      entries := entries + [m];
      issued := issued + {id};
    }

    method Rollback(newTip: nat)
      requires Valid() && newTip <= chain.current.tip
      modifies chain
      ensures Valid() && NextId() == old(NextId())
      ensures chain.current.hot.tailBucket == old(chain.current.hot.tailBucket)
      ensures chain.RingTip() == old(chain.RingTip())
      ensures chain.current.tip == newTip && chain.Canonical() == UpTo(old(chain.Canonical()), newTip)
      ensures old(chain.published) <= chain.published && chain.floor == old(chain.floor)
      ensures old(chain.Refines(chain.Canonical())) ==> chain.Refines(chain.Canonical())
    {
      hide Consistent;
      hide Exact;
      chain.Rollback(newTip);
    }

    /** Finalizes the chain below `below` and drops the log entries of finalized ids. */
    method Finalize(below: nat)
      requires Valid()
      modifies this, chain
      ensures Valid() && NextId() == old(NextId()) && issued == old(issued)
      ensures chain.published == old(chain.published)
      ensures chain.floor == if below > old(chain.floor) then below else old(chain.floor)
      ensures var body := old(chain.current.body);
              body < |old(chain.rings)| == |chain.rings| &&
              (below > 1 ==> forall b: nat ::
                 chain.rings[body].Get(b) == if b < BucketOf(below) then None else old(chain.rings)[body].Get(b))
      ensures base == if below <= old(base) then old(base) else if below < NextId() then below else NextId()
      ensures entries == old(entries)[base - old(base)..]
      ensures old(chain.Refines(chain.Canonical())) ==> chain.Refines(chain.Canonical())
    {
      hide Consistent;
      hide Indexed;
      hide Exact;
      chain.Finalize(below);
      DropEntries(below);
    }

    method DropEntries(below: nat)
      requires base >= 1 && Indexed(base, entries, index)
      modifies this`base, this`entries, this`index
      ensures base >= 1 && Indexed(base, entries, index) && NextId() == old(NextId())
      ensures base == if below <= old(base) then old(base) else if below < NextId() then below else NextId()
      ensures entries == old(entries)[base - old(base)..]
    {
      hide Indexed;
      while base < below && entries != []
        invariant Indexed(base, entries, index)
        invariant old(base) <= base <= old(base) + |old(entries)| && (base <= below || base == old(base))
        invariant entries == old(entries)[base - old(base)..]
        decreases |entries|
      {
        DropFirst(base, entries, index);
        index := index - {entries[0].blockHash};
        entries := entries[1..];
        base := base + 1;
      }
    }
  }

  /** An id above every allocated one lies in or above the tail bucket. */
  lemma FreshIdsExtendTheChain(id: nat, tailBucket: nat)
    requires tailBucket * CAPACITY < id
    ensures BucketOf(id) >= tailBucket && BucketOf(id) * CAPACITY < id
  {
    LocateIsExact(id);
  }

  lemma DropFirst(base: nat, entries: seq<Metadata>, index: map<BlockHash, nat>)
    requires Indexed(base, entries, index) && entries != []
    ensures Indexed(base + 1, entries[1..], index - {entries[0].blockHash})
  {
    var rest, left := entries[1..], index - {entries[0].blockHash};
    forall h | h in left ensures EntryAt(base + 1, rest, left[h], h) {
      assert EntryAt(base, entries, index[h], h);
    }
  }

  lemma NothingIsStable(st: Store, published: seq<Published>, floor: nat)
    requires Consistent(st, published, floor)
    ensures Stable(st, st, published, floor)
  {
    ConsistentIsStable(st, st, published, published, floor, floor);
  }

  /** A returning id the ring has passed is lost to the next new block, in every state: it
      answers right after its return, and no more after that block. */
  method PassedBlockIsLostToTheNext(manager: CanonicalChainManager, returning: Metadata, next: Metadata)
    returns (before: bool, after: bool)
    requires manager.Valid() && manager.chain.Refines(manager.chain.Canonical())
    requires returning.blockHash in manager.index && next.blockHash !in manager.index
    requires var id := manager.index[returning.blockHash];
             id > manager.chain.current.tip && id >= manager.chain.floor && BucketOf(id) < manager.chain.RingTip()
    modifies manager, manager.chain
    ensures before && !after
  {
    hide Consistent;
    hide Stable;
    hide IsCanonical;
    hide Indexed;
    hide Stands;
    hide Fits;
    var chain := manager.chain;
    ConsistentIsKnown(chain.Cells(), chain.published, chain.floor);
    ghost var a, s, canonical := chain.Cells(), chain.current, chain.Canonical();
    var id, _ := manager.Append(returning);
    ghost var b, t := chain.Cells(), chain.current;
    before := chain.Query(chain.current, id);
    var later, _ := manager.Append(next);
    LocateIsExact(later);
    after := chain.Query(chain.current, id);
    PassedIdIsLost(a, s, b, t, chain.Cells(), chain.current, canonical, chain.floor, id, later);
  }

  /** A manager that has taken in blocks `1` to `count`, one after the other. */
  method Started(count: nat) returns (manager: CanonicalChainManager)
    requires count > 0
    ensures manager.Valid() && fresh(manager) && fresh(manager.chain)
    ensures manager.NextId() == count + 1 && manager.chain.floor == 1 && manager.chain.current.tip == count
    ensures manager.chain.Refines(manager.chain.Canonical())
    ensures forall x :: 0 < x <= count ==> x in manager.chain.Canonical()
    ensures manager.chain.current.hot.tailBucket == BucketOf(count)
    ensures manager.chain.RingTip() == if BucketOf(count) == 0 then 0 else BucketOf(count) - 1
    ensures forall h :: h in manager.index <==> 1 <= h.digest <= count
    ensures forall h :: h in manager.index ==> manager.index[h] == h.digest
  {
    hide Consistent;
    hide Stable;
    hide Indexed;
    hide Exact;
    hide Fits;
    hide MovedBits;
    manager := new CanonicalChainManager();
    var n := 0;
    while n < count
      invariant n <= count && manager.Valid() && fresh(manager) && fresh(manager.chain)
      invariant manager.NextId() == n + 1 && manager.chain.floor == 1 && manager.chain.current.tip == n
      invariant manager.chain.Refines(manager.chain.Canonical())
      invariant forall x :: 0 < x <= n ==> x in manager.chain.Canonical()
      invariant manager.chain.current.hot.tailBucket == if n == 0 then 0 else BucketOf(n)
      invariant manager.chain.RingTip() == if n == 0 || BucketOf(n) == 0 then 0 else BucketOf(n) - 1
      invariant forall h :: h in manager.index <==> 1 <= h.digest <= n
      invariant forall h :: h in manager.index ==> manager.index[h] == h.digest
    {
      n := n + 1;
      var id, isNew := manager.Append(Metadata(BlockHash(n), 0));
    }
  }

  /** The case arises: after 513 blocks and a rollback of them all, block 257 returns. Nothing
      is canonical then, so it is answered; but the ring has passed its bucket, and the next
      new block loses it. */
  method ReturnedBlockIsLostLater() returns (before: bool, after: bool)
    ensures before && !after
  {
    hide Consistent;
    hide Stable;
    hide Indexed;
    hide Exact;
    var manager := Started(513);
    manager.Rollback(0);
    before, after := PassedBlockIsLostToTheNext(manager, Metadata(BlockHash(257), 0), Metadata(BlockHash(514), 0));
  }

  /** And after 129 blocks and a rollback to the 120th, block 121 returns. Its id lies above the
      tip and below the tail bucket, and re-appending it takes block 120 and all before it out
      of the canonical chain at once. */
  method ReturningBlockErasesItsBucket() returns (before: bool, after: bool)
    ensures before && !after
  {
    hide Consistent;
    hide Stable;
    hide IsCanonical;
    hide Indexed;
    hide Exact;
    hide Fits;
    var manager := Started(129);
    manager.Rollback(120);
    var chain := manager.chain;
    ChainAnswers(chain, 120);
    before := chain.Query(chain.current, 120);
    ghost var a, s, canonical := chain.Cells(), chain.current, chain.Canonical();
    ConsistentIsKnown(a, chain.published, chain.floor);
    var id, isNew := manager.Append(Metadata(BlockHash(121), 0));
    ReturnedAnswers(a, s, chain.Cells(), chain.current, canonical, chain.floor, id);
    after := chain.Query(chain.current, 120);
  }

  lemma ChainAnswers(chain: CanonicalChain, id: nat)
    requires chain.Valid() && id >= chain.floor
    ensures RefsKnown(chain.Cells(), chain.current)
    ensures IsCanonical(chain.Cells(), chain.current, id) <==> id in chain.Canonical()
  {
    chain.AnswersThePlainSet(|chain.published| - 1, id);
  }
}
