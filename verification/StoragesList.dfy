/** The list of sorted, filtered storages, as an object. */
module StoragesList {
  import opened Records
  import opened BloomFilters
  import opened Storages
  import opened SortedStorages
  import opened Merging
  import opened Ranks
  import opened Collapsing

  /** The rank of a list node. The code asserts that a node's storage is not empty. */
  method GetRank<V>(storage: SingleFileIndexedStorage<V>, rankOneSize: nat) returns (rank: nat)
    requires rankOneSize > 0 && storage.Valid() && storage.items != []
    ensures rank == Rank(|storage.items|, rankOneSize)
  {
    var size := storage.GetItemsCount();
    CeilDivPositive(size, rankOneSize);
    return FloorLog2((size + rankOneSize - 1) / rankOneSize);
  }

  /** A storage that may stand in a list: sorted, not empty, and its filter knows all its keys. */
  ghost predicate Listable<V>(s: SingleFileIndexedStorage<V>)
    reads s, s.register.inner.Filters()
  {
    && s.Valid() && s.CanAppend() && s.register.inner.FilteringRegister?
    && s.items != [] && StrictlySorted(s.items)
  }

  lemma ListableIsSorted<V>(s: SingleFileIndexedStorage<V>)
    requires Listable(s)
    ensures s.items != [] && StrictlySorted(s.items)
  {
  }

  ghost function Contents<V>(storages: seq<SingleFileIndexedStorage<V>>): (blocks: seq<Block<V>>)
    reads storages
    ensures |blocks| == |storages|
    ensures forall i :: 0 <= i < |storages| ==> blocks[i] == storages[i].items
  {
    seq(|storages|, i requires 0 <= i < |storages| reads storages => storages[i].items)
  }

  lemma ContentsCons<V>(s: SingleFileIndexedStorage<V>, storages: seq<SingleFileIndexedStorage<V>>)
    ensures Contents([s] + storages) == [s.items] + Contents(storages)
  {
  }

  /** Merges copies of two storages and resets the older one with the result. */
  method MergeInto<V>(older: SingleFileIndexedStorage<V>, newer: SingleFileIndexedStorage<V>,
                      batchSize: nat, supplier: RegisterSupplier)
    returns (ghost recordReads: nat)
    requires Listable(older) && Listable(newer) && older != newer && supplier.FilterSupplier?
    modifies older
    ensures Listable(older) && older.items == MergedPair(old(older.items), newer.items)
    ensures fresh(older.register.inner.Filters())
    ensures older.register.inner.MadeBy(supplier) && older.ReservedFor(|old(older.items)| + |newer.items|)
    ensures recordReads == |old(older.items)| + |newer.items|
  {
    hide AsMap, Flatten, Union, TotalSize, SortedEntries;
    var olderCopy := new SingleFileIndexedStorage.CopyOf(older);
    var newerCopy := new SingleFileIndexedStorage.CopyOf(newer);
    ghost var ins := [older.items, newer.items];
    TotalSizePair(older.items, newer.items);
    var mergedKeys;
    mergedKeys, recordReads := Merge([olderCopy, newerCopy], ins, batchSize, supplier);
    assert mergedKeys.items == MergedPair(older.items, newer.items);
    MergedPairOverlays(older.items, newer.items);
    older.ResetWith(mergedKeys);
  }

  /** A binary search in one block costs no more than one in all keys of the list. */
  lemma {:induction false} SearchCost<V>(blocks: seq<Block<V>>, i: nat)
    requires GoodBlocks(blocks) && i < |blocks|
    ensures CeilLog2(|blocks[i]|) <= CeilLog2(|ListMap(blocks)|)
  {
    SortedSize(blocks[i]);
    BlockInListMap(blocks, i);
    SubmapSize(AsMap(blocks[i]), ListMap(blocks));
    CeilLog2Monotone(|blocks[i]|, |ListMap(blocks)|);
  }

  lemma OneMoreBlock(recordReads: nat, i: nat, n: nat, step: nat, perBlock: nat)
    requires i < n && recordReads <= i * perBlock && step <= perBlock
    ensures recordReads + step <= (i + 1) * perBlock <= n * perBlock
  {
    assert (i + 1) * perBlock == i * perBlock + perBlock;
    TimesMonotone(perBlock, i + 1, n);
  }

  class BinaryCollapsingSortedStoragesList<V> {
    /** The storages of the chain of nodes, from the head on: newest first. */
    var storages: seq<SingleFileIndexedStorage<V>>
    const batchSize: nat
    const supplier: RegisterSupplier
    ghost var Repr: set<object>

    ghost predicate Listed()
      reads this, Repr
    {
      && this in Repr && batchSize > 0 && supplier.FilterSupplier?
      && (forall i :: 0 <= i < |storages| ==> storages[i] in Repr && storages[i].register.inner.Filters() <= Repr)
      && (forall i :: 0 <= i < |storages| ==> Listable(storages[i]))
      && (forall i, j :: 0 <= i < j < |storages| ==> storages[i] != storages[j])
    }

    ghost predicate Valid()
      reads this, Repr
    {
      && Listed()
      && GoodBlocks(Blocks()) && RanksIncrease(Blocks(), batchSize)
    }

    ghost function Blocks(): (blocks: seq<Block<V>>)
      reads this, storages
    {
      Contents(storages)
    }

    /** The blocks with that of a new storage in front. */
    ghost function BlocksAfter(storage: SingleFileIndexedStorage<V>): (blocks: seq<Block<V>>)
      requires Valid() && storage.items != [] && StrictlySorted(storage.items)
      reads this, Repr, storage
      ensures GoodBlocks(blocks)
    {
      [storage.items] + Blocks()
    }

    lemma ListedAreGood()
      requires Listed()
      ensures GoodBlocks(Blocks())
    {
    }

    constructor (batchSize: nat, supplier: RegisterSupplier)
      requires batchSize > 0 && supplier.FilterSupplier?
      ensures Valid() && storages == [] && Blocks() == [] && Repr == {this}
      ensures this.batchSize == batchSize && this.supplier == supplier
    {
      this.batchSize := batchSize;
      this.supplier := supplier;
      storages := [];
      Repr := {this};
    }

    /** Merges the head of the chain into the next node, which becomes the head. */
    method CollapseHead() returns (ghost recordReads: nat)
      requires Listed() && |storages| >= 2
      modifies this, storages[1]
      ensures Listed() && storages == old(storages[1..])
      ensures fresh(Repr - old(Repr)) && old(Repr) <= Repr
      ensures Blocks() == CollapseOnce(old(Blocks()))
      ensures recordReads == |old(Blocks()[0])| + |old(Blocks()[1])|
    {
      hide AsMap, SortedEntries, StrictlySorted, MergedPair;
      var curNode, nextNode := storages[0], storages[1];
      recordReads := MergeInto(nextNode, curNode, batchSize, supplier);
      Repr := Repr + nextNode.register.inner.Filters();
      storages := storages[1..];
    }

    /** One turn of the loop of `Append`: merges the head into the next node if their ranks are equal. */
    method CollapseIfEqual() returns (collapsed: bool, ghost recordReads: nat)
      requires Listed() && |storages| >= 2 && Cascading(Blocks(), batchSize)
      modifies this, storages[1]
      ensures Listed() && GoodBlocks(Blocks()) && Cascading(Blocks(), batchSize)
      ensures collapsed == Collapses(old(Blocks()), batchSize)
      ensures storages == if collapsed then old(storages[1..]) else old(storages)
      ensures fresh(Repr - old(Repr)) && old(Repr) <= Repr
      ensures Blocks() == if collapsed then CollapseOnce(old(Blocks())) else old(Blocks())
      ensures recordReads == if collapsed then |old(Blocks()[0])| + |old(Blocks()[1])| else 0
    {
      hide Rank, CollapseOnce, MergedPair, StrictlySorted, RanksIncrease;
      var curRank := GetRank(storages[0], batchSize);
      var nextRank := GetRank(storages[1], batchSize);
      assert curRank <= nextRank;
      if curRank < nextRank {
        return false, 0;
      }
      CascadeStep(Blocks(), batchSize);
      recordReads := CollapseHead();
      return true, recordReads;
    }

    /** The loop of `Append`. */
    method CollapseWhileEqual() returns (ghost recordReads: nat)
      requires Listed() && storages != [] && Cascading(Blocks(), batchSize)
      modifies this, storages[1..]
      ensures Listed() && storages != []
      ensures forall s :: s in storages ==> s in old(storages)
      ensures fresh(Repr - old(Repr)) && old(Repr) <= Repr
      ensures Blocks() == Collapse(old(Blocks()), batchSize)
      ensures recordReads == CollapseReads(old(Blocks()), batchSize)
    {
      hide Rank, CollapseOnce, MergedPair, StrictlySorted, RanksIncrease, Collapse, CollapseReads,
           Cascading, Listable;
      ListedAreGood();
      ghost var all := Blocks();
      recordReads := 0;
      ghost var k := 0;
      while |storages| >= 2
        invariant 0 <= k < |old(storages)| && storages == old(storages)[k..]
        invariant fresh(Repr - old(Repr)) && old(Repr) <= Repr
        invariant Listed() && GoodBlocks(Blocks()) && Cascading(Blocks(), batchSize)
        invariant Collapse(Blocks(), batchSize) == Collapse(all, batchSize)
        invariant recordReads + CollapseReads(Blocks(), batchSize) == CollapseReads(all, batchSize)
        decreases |storages|
      {
        CollapseUnfolds(Blocks(), batchSize);
        assert storages[1] == old(storages)[1..][k];
        var collapsed, n := CollapseIfEqual();
        recordReads := recordReads + n;
        if !collapsed {
          break;
        }
        k := k + 1;
      }
      CollapseUnfolds(Blocks(), batchSize);
    }

    /** Makes a storage the head of the chain. */
    method Prepend(storage: SingleFileIndexedStorage<V>)
      requires Valid() && Listable(storage) && storage.Footprint() !! Repr
      modifies this
      ensures Listed() && storages == [storage] + old(storages)
      ensures Blocks() == old(BlocksAfter(storage))
      ensures Repr == old(Repr) + storage.Footprint()
    {
      hide StrictlySorted, RanksIncrease, Rank, GoodBlocks, Listable, Contents;
      ListableIsSorted(storage);
      ContentsCons(storage, storages);
      storages := [storage] + storages;
      Repr := Repr + storage.Footprint();
    }

    /** Appends the newest storage. The code asserts that its rank does not exceed that of the head. */
    method Append(storage: SingleFileIndexedStorage<V>) returns (ghost recordReads: nat)
      requires Valid() && Listable(storage) && storage.Footprint() !! Repr
      requires storages != [] ==> Rank(|storage.items|, batchSize) <= Rank(|Blocks()[0]|, batchSize)
      modifies this, storages
      ensures Valid()
      ensures forall s :: s in storages ==> s == storage || s in old(storages)
      ensures fresh(Repr - old(Repr) - storage.Footprint()) && old(Repr) + storage.Footprint() <= Repr
      ensures Blocks() == Collapse(old(BlocksAfter(storage)), batchSize)
      ensures recordReads == CollapseReads(old(BlocksAfter(storage)), batchSize)
    {
      hide Rank, Collapse, CollapseReads, MergedPair, StrictlySorted, RanksIncrease, Cascading, AsMap, ListMap,
           InnerRegister.Holds, InnerRegister.CanRegister;
      ghost var all := BlocksAfter(storage);
      CascadeStart(storage.items, Blocks(), batchSize);
      Prepend(storage);
      assert storages[1..] == old(storages);
      recordReads := CollapseWhileEqual();
      ListedAreGood();
      CollapseKeeps(all, batchSize);
    }

    /** Searches all storages, newest first. `recordReads` counts the records read. */
    method Find(pattern: Key) returns (r: Option<KeyValue<V>>, ghost recordReads: nat)
      requires Valid()
      ensures r == if pattern in ListMap(Blocks()) then Some(KeyValue(pattern, ListMap(Blocks())[pattern])) else None
      ensures recordReads <= |storages| * (CeilLog2(|ListMap(Blocks())|) + 1)
    {
      hide AsMap, ListMap, StrictlySorted, RanksIncrease, CeilLog2, Filled, InnerRegister.Holds, GoodBlocks, Rank;
      ListedAreGood();
      ghost var blocks := Blocks();
      ghost var perBlock := CeilLog2(|ListMap(blocks)|) + 1;
      recordReads := 0;
      var curNode := 0;
      assert blocks[0..] == blocks;
      while curNode < |storages|
        invariant 0 <= curNode <= |storages|
        invariant Lookup(ListMap(blocks), pattern) == Lookup(ListMap(blocks[curNode..]), pattern)
        invariant recordReads <= curNode * perBlock
      {
        ghost var n;
        var found;
        found, n := FilteredFind(storages[curNode], pattern);
        SearchCost(blocks, curNode);
        OneMoreBlock(recordReads, curNode, |storages|, n, perBlock);
        recordReads := recordReads + n;
        assert blocks[curNode..] == [blocks[curNode]] + blocks[curNode + 1..];
        ListMapCons(blocks[curNode], blocks[curNode + 1..]);
        if found.Some? {
          return found, recordReads;
        }
        curNode := curNode + 1;
      }
      assert blocks[curNode..] == [];
      ListMapEmpty<V>();
      return None, recordReads;
    }
  }
}
