/** The store as an object: every method computes the step of the state machine of module
    `SupermapModel`, through the real storages, filters and loops. */
module Supermap {
  import opened Records
  import opened Ranks
  import opened BloomFilters
  import opened Storages
  import opened SortedStorages
  import opened Collapsing
  import opened StoragesList
  import opened ShrinkableStorage
  import opened RamIndex
  import opened SupermapModel
  import opened SupermapCost

  class Supermap<V> {
    const innerStorage: BST
    const diskDataStorage: KeyValueShrinkableStorage<V>
    var diskIndex: BinaryCollapsingSortedStoragesList<int>
    const supplier: RegisterSupplier
    const config: Config
    ghost var Repr: set<object>
    /** All pairs ever added. */
    ghost var history: seq<KeyValue<V>>
    /** Records that the merges of the block list have read. */
    ghost var mergeReads: nat

    /** The objects of the store do not share parts. */
    ghost predicate Owned()
      reads this, Repr
    {
      && {this, innerStorage, diskDataStorage, diskDataStorage.sortedStorage, diskDataStorage.notSortedStorage} <= Repr
      && diskIndex in Repr && diskIndex.Repr <= Repr
      && {this, innerStorage, diskDataStorage.sortedStorage, diskDataStorage.notSortedStorage} !! diskIndex.Repr
    }

    ghost function State(): State<V>
      reads this, innerStorage, diskIndex, diskIndex.storages,
            diskDataStorage.sortedStorage, diskDataStorage.notSortedStorage
    {
      SupermapModel.State(innerStorage.map_, diskIndex.Blocks(),
                          diskDataStorage.sortedStorage.items, diskDataStorage.notSortedStorage.items)
    }

    /** All parts are consistent by themselves. */
    ghost predicate PartsValid()
      reads this, Repr
    {
      && Owned()
      && config.Valid() && supplier.FilterSupplier?
      && diskDataStorage.Valid() && diskDataStorage.supplier == supplier
      && diskIndex.Valid() && diskIndex.batchSize == config.batchSize && diskIndex.supplier == supplier
    }

    ghost predicate Valid()
      reads this, Repr
    {
      PartsValid() && State() == Run(config, history) && mergeReads == CollapseWork(config, history)
    }

    constructor (config: Config, supplier: RegisterSupplier)
      requires config.Valid() && supplier.FilterSupplier?
      ensures Valid() && fresh(Repr) && this in Repr
      ensures this.config == config && history == []
    {
      hide AsMap, SortedEntries, StrictlySorted, Rank, ListMap, Positions, Filled, KeysOf, Inv, Listable, GoodBlocks,
           RanksIncrease, Run, KeyValueShrinkableStorage.Valid, BinaryCollapsingSortedStoragesList.Listed,
           BinaryCollapsingSortedStoragesList.Valid, Contents;
      RunOfNothing<V>(config);
      var ram := new BST();
      var data := new KeyValueShrinkableStorage<V>(supplier);
      var index := new BinaryCollapsingSortedStoragesList<int>(config.batchSize, supplier);
      innerStorage := ram;
      diskDataStorage := data;
      diskIndex := index;
      this.config := config;
      this.supplier := supplier;
      history := [];
      mergeReads := 0;
      Repr := {this, ram, data, data.sortedStorage, data.notSortedStorage, index};
      new;
      assert State() == Empty();
    }

    /** Appends a new block to the list. */
    method AppendToIndex(newBlock: SingleFileIndexedStorage<int>)
      requires PartsValid() && Listable(newBlock) && newBlock.Footprint() !! Repr
      requires diskIndex.storages != [] ==>
        Rank(|newBlock.items|, config.batchSize) <= Rank(|diskIndex.Blocks()[0]|, config.batchSize)
      modifies this`Repr, this`mergeReads, diskIndex, diskIndex.storages
      ensures PartsValid() && fresh(Repr - old(Repr) - newBlock.Footprint()) && old(Repr) <= Repr
      ensures State() == old(State()).(blocks := Collapse(old(diskIndex.BlocksAfter(newBlock)), config.batchSize))
      ensures mergeReads
        == old(mergeReads) + CollapseReads(old(diskIndex.BlocksAfter(newBlock)), config.batchSize)
    {
      hide AsMap, SortedEntries, StrictlySorted, Rank, ListMap, Collapse, Positions, PositionMap, GoodBlocks,
           RanksIncrease, EntriesPointIntoLog, BlocksPointIntoLog, IndexesAgree, Listable, KeysOf, Filled,
           KeyValueShrinkableStorage.Valid, SingleFileIndexedStorage.Valid, InnerRegister.Holds,
           InnerRegister.CanRegister;
      ghost var recordReads := diskIndex.Append(newBlock);
      mergeReads := mergeReads + recordReads;
      Repr := Repr + diskIndex.Repr;
    }

    /** Turns the RAM index into the newest block of the list. */
    method DropRamIndexToDisk()
      requires PartsValid() && config.Valid() && Coupled(config, State()) && |State().ram| <= config.batchSize
      modifies this`Repr, this`mergeReads, innerStorage, diskIndex, diskIndex.storages
      ensures PartsValid() && fresh(Repr - old(Repr)) && old(Repr) <= Repr
      ensures State() == DropRam(config, old(State())) && State().Log() == old(State().Log())
      ensures mergeReads == old(mergeReads) + DropReads(config, old(State()))
    {
      hide AsMap, SortedEntries, StrictlySorted, Rank, ListMap, Collapse, Positions, PositionMap, GoodBlocks,
           RanksIncrease, EntriesPointIntoLog, BlocksPointIntoLog, IndexesAgree, KeyValueShrinkableStorage.Valid,
           SingleFileIndexedStorage.Valid, InnerRegister.CanRegister, InnerRegister.Holds, KeysOf, Filled,
           BinaryCollapsingSortedStoragesList.Listed, BinaryCollapsingSortedStoragesList.Valid, Contents;
      if innerStorage.GetUpperSizeBound() == 0 {
        return;
      }
      ghost var before := State();
      DroppedBlockHasRankZero(config, before);
      var newBlockKeyIndex := innerStorage.Extract();
      SortedTwice(before.ram);
      var newBlock := FromCollection(newBlockKeyIndex, true, supplier);
      AppendToIndex(newBlock);
    }

    lemma SortedTwice(m: map<Key, int>)
      ensures SortedEntries(AsMap(SortedEntries(m))) == SortedEntries(m)
    {
    }

    /** Makes a block the only one of a new list. */
    method ReplaceIndex(actualIndex: SingleFileIndexedStorage<int>)
      requires PartsValid() && Listable(actualIndex) && actualIndex.Footprint() !! Repr
      modifies this`Repr, this`diskIndex
      ensures PartsValid() && fresh(Repr - old(Repr) - actualIndex.Footprint()) && old(Repr) <= Repr
      ensures State() == old(State()).(blocks := [actualIndex.items])
    {
      hide AsMap, SortedEntries, StrictlySorted, Rank, ListMap, Collapse, Positions, PositionMap, GoodBlocks,
           RanksIncrease, EntriesPointIntoLog, BlocksPointIntoLog, IndexesAgree, KeyValueShrinkableStorage.Valid,
           SingleFileIndexedStorage.Valid, InnerRegister.CanRegister, InnerRegister.Holds, KeysOf, Filled,
           BinaryCollapsingSortedStoragesList.Listed, BinaryCollapsingSortedStoragesList.Valid, Contents;
      var newIndexList := new BinaryCollapsingSortedStoragesList<int>(config.batchSize, supplier);
      assert [actualIndex.items] == [actualIndex.items] + newIndexList.Blocks();
      CollapseSingle(actualIndex.items, config.batchSize);
      ghost var recordReads := newIndexList.Append(actualIndex);
      assert recordReads == 0;
      diskIndex := newIndexList;
      Repr := Repr + newIndexList.Repr;
    }

    lemma CollapseSingle(b: Block<int>, r: nat)
      requires r > 0 && b != [] && StrictlySorted(b)
      ensures GoodBlocks([b]) && Collapse([b], r) == [b] && CollapseReads([b], r) == 0
    {
    }

    /** Shrinks the log and replaces the list by the index of the new log. */
    method ShrinkDataStorage()
      requires PartsValid() && State().Log() != []
      modifies this`Repr, this`diskIndex, diskDataStorage.sortedStorage, diskDataStorage.notSortedStorage
      ensures PartsValid() && fresh(Repr - old(Repr)) && old(Repr) <= Repr
      ensures State() == Shrink(old(State()))
    {
      hide AsMap, SortedEntries, StrictlySorted, Rank, ListMap, Collapse, Positions, PositionMap, GoodBlocks,
           RanksIncrease, EntriesPointIntoLog, BlocksPointIntoLog, IndexesAgree, KeyValueShrinkableStorage.Valid,
           InnerRegister.Holds, KeysOf, Filled, BinaryCollapsingSortedStoragesList.Listed, Contents;
      ghost var before := State();
      ShrinkIsGood(before);
      var actualIndex := diskDataStorage.Shrink(config.batchSize);
      ReplaceIndex(actualIndex);
    }

    /** The first two statements of `Add`. */
    method RecordPair(key: Key, value: V)
      requires PartsValid()
      modifies this`history, innerStorage, diskDataStorage.notSortedStorage
      ensures PartsValid() && history == old(history) + [KeyValue(key, value)]
      ensures State() == Record(old(State()), key, value)
    {
      hide AsMap, SortedEntries, StrictlySorted, Rank, ListMap, Collapse, Positions, PositionMap, GoodBlocks,
           RanksIncrease, EntriesPointIntoLog, BlocksPointIntoLog, IndexesAgree, Filled, KeysOf,
           InnerRegister.Holds, InnerRegister.CanRegister;
      history := history + [KeyValue(key, value)];
      diskDataStorage.Append(KeyValue(key, value));
      innerStorage.Add(key, diskDataStorage.GetItemsCount() - 1);
    }

    /** `Add` up to the threshold test. */
    method IndexPair(key: Key, value: V)
      requires Valid()
      modifies Repr
      ensures PartsValid() && fresh(Repr - old(Repr)) && old(Repr) <= Repr
      ensures history == old(history) + [KeyValue(key, value)]
      ensures Coupled(config, State()) && |State().ram| <= config.batchSize
      ensures State() == Indexed(config, old(State()), key, value) && State().Log() != []
      ensures mergeReads == old(mergeReads) + OverflowReads(config, old(State()), key, value)
    {
      hide AsMap, SortedEntries, StrictlySorted, Rank, ListMap, Collapse, Positions, PositionMap, GoodBlocks,
           RanksIncrease, EntriesPointIntoLog, BlocksPointIntoLog, IndexesAgree, Owned, DropRam, Record, Filled,
           PartsValid, State, DropReads;
      PartsAreOwned();
      RunKeepsInv(config, history);
      RecordKeeps(config, State(), key, value);
      IndexedLog(config, State(), key, value);
      RecordPair(key, value);
      CountsAreSizes();
      if innerStorage.GetUpperSizeBound() >= config.batchSize {
        DropKeeps(config, State());
        DropRamIndexToDisk();
      }
    }

    lemma CountsAreSizes()
      requires PartsValid()
      ensures config.Valid() && diskDataStorage.GetNotSortedItemsCount() == |State().notSorted|
      ensures diskDataStorage.GetItemsCount() == |State().Log()|
      ensures innerStorage.GetUpperSizeBound() == |State().ram|
    {
    }

    lemma PartsAreOwned()
      requires PartsValid()
      ensures config.Valid()
      ensures {this, innerStorage, diskDataStorage.sortedStorage, diskDataStorage.notSortedStorage, diskIndex} <= Repr
      ensures forall s :: s in diskIndex.storages ==> s in Repr
    {
    }

    method Add(key: Key, value: V)
      requires Valid()
      modifies Repr
      ensures Valid() && fresh(Repr - old(Repr)) && old(Repr) <= Repr
      ensures history == old(history) + [KeyValue(key, value)]
    {
      hide AsMap, SortedEntries, StrictlySorted, Rank, ListMap, Collapse, Positions, PositionMap, GoodBlocks,
           RanksIncrease, EntriesPointIntoLog, BlocksPointIntoLog, IndexesAgree, Owned, DropRam, Shrink, Indexed,
           Filled, Coupled, PartsValid, State, DropReads, OverflowReads, CollapseWork;
      PartsAreOwned();
      RunSnoc(config, history, key, value);
      CollapseWorkSnoc(config, history, key, value);
      IndexPair(key, value);
      CountsAreSizes();
      PartsAreOwned();
      var notSortedStorageSize := diskDataStorage.GetNotSortedItemsCount();
      var totalStorageSize := diskDataStorage.GetItemsCount();
      if notSortedStorageSize * config.den >= config.num * totalStorageSize {
        DropRamIndexToDisk();
        PartsAreOwned();
        ShrinkDataStorage();
      }
    }

    /** The value of the last pair ever added with the key. The number of records read is polylogarithmic
        in the number of keys. */
    method GetValue(k: Key) returns (r: Option<V>, ghost recordReads: nat)
      requires Valid()
      ensures r == Lookup(AsMap(history), k)
      ensures forall i | 0 <= i < |history| && history[i].key == k
          && (forall j :: i < j < |history| ==> history[j].key != k) :: r == Some(history[i].value)
      ensures (forall i :: 0 <= i < |history| ==> history[i].key != k) ==> r == None
      ensures var keys := |AsMap(history)|;
        recordReads <= |State().blocks| * (CeilLog2(keys) + 1) + 1
          <= (Rank(keys, config.batchSize) + 1) * (CeilLog2(keys) + 1) + 1
    {
      hide *;
      r, recordReads := ReadIndexed(k);
      LookupIsLast(history, k);
    }

    /** Looks the key up in the indexes and reads the log there. Every position that is read is in bounds. */
    method ReadIndexed(k: Key) returns (r: Option<V>, ghost recordReads: nat)
      requires Valid()
      ensures r == Lookup(AsMap(history), k)
      ensures config.Valid()
      ensures var keys := |AsMap(history)|;
        recordReads <= |State().blocks| * (CeilLog2(keys) + 1) + 1
          <= (Rank(keys, config.batchSize) + 1) * (CeilLog2(keys) + 1) + 1
    {
      hide AsMap, SortedEntries, StrictlySorted, Rank, ListMap, Collapse, Positions, PositionMap, GoodBlocks,
           RanksIncrease, EntriesPointIntoLog, BlocksPointIntoLog, IndexesAgree, Run, CeilLog2,
           CollapseWork, BinaryCollapsingSortedStoragesList.Listed;
      RunReads(config, history, k);
      SearchedKeys();
      recordReads := 0;
      var index;
      var optIndex := innerStorage.GetValue(k);
      if optIndex.Some? {
        index := optIndex.value;
      } else {
        var foundOnDisk;
        foundOnDisk, recordReads := diskIndex.Find(k);
        if foundOnDisk.None? {
          return None, recordReads;
        }
        index := foundOnDisk.value.value;
      }
      return Some(diskDataStorage.Get(index).value), recordReads + 1;
    }

    /** What a lookup searches: logarithmically many blocks, which hold no more than all keys. */
    lemma SearchedKeys()
      requires Valid()
      ensures config.Valid() && diskIndex.Valid() && State().blocks == diskIndex.Blocks()
      ensures var keys := |AsMap(history)|;
        |diskIndex.storages| * (CeilLog2(|ListMap(diskIndex.Blocks())|) + 1)
          <= |State().blocks| * (CeilLog2(keys) + 1) <= (Rank(keys, config.batchSize) + 1) * (CeilLog2(keys) + 1)
    {
      hide AsMap, Run, Rank, CeilLog2, ListMap, StrictlySorted, Positions, Inv;
      LookupReads(config, history);
    }

    /** Never below the number of keys ever added, and never above the number of adds. */
    method GetUpperSizeBound() returns (size: nat)
      requires Valid()
      ensures size == UpperSizeBound(State()) == |State().Log()| && |AsMap(history)| <= size <= |history|
    {
      RunReads(config, history, 0);
      return diskDataStorage.GetSortedItemsCount() + diskDataStorage.GetNotSortedItemsCount();
    }

    /** What the merges of the block list have read since the store was made is paid by the pairs added. */
    lemma MergesArePaid()
      requires Valid() && history != []
      ensures config.Valid()
      ensures config.num * mergeReads
        <= 2 * (Rank(|history|, config.batchSize) + 2) * ((config.num + 2 * config.den) * |history|)
    {
      hide Run, CollapseWork, Rank;
      CollapsingIsPaidByAdds(config, history);
    }
  }
}
