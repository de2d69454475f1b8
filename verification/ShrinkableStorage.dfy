/** The data log: a sorted part without duplicates, followed by a part in order of arrival.
    Shrinking moves everything into the sorted part. */
module ShrinkableStorage {
  import opened Records
  import opened Ranks
  import opened BloomFilters
  import opened Storages
  import opened SortedStorages
  import opened Merging

  // ---------------------------------------------------------------- what shrinking computes

  /** The records an index points at. */
  ghost function Resolved<V>(log: seq<KeyValue<V>>, index: seq<KeyValue<int>>): (r: seq<KeyValue<V>>)
    requires forall i :: 0 <= i < |index| ==> 0 <= index[i].value < |log|
    ensures |r| == |index|
    ensures forall i :: 0 <= i < |index| ==> r[i] == KeyValue(index[i].key, log[index[i].value].value)
  {
    seq(|index|, i requires 0 <= i < |index| => KeyValue(index[i].key, log[index[i].value].value))
  }

  lemma ResolvedIsSorted<V>(log: seq<KeyValue<V>>, index: seq<KeyValue<int>>)
    requires forall i :: 0 <= i < |index| ==> 0 <= index[i].value < |log|
    requires StrictlySorted(index)
    ensures StrictlySorted(Resolved(log, index))
  {
  }

  lemma {:induction false} NextResolved<V>(log: seq<KeyValue<V>>, index: seq<KeyValue<int>>, from: nat, to: nat)
    requires forall i :: 0 <= i < |index| ==> 0 <= index[i].value < |log|
    requires from <= to <= |index|
    ensures Resolved(log, index)[..from] + Resolved(log, index[from..to]) == Resolved(log, index)[..to]
  {
  }

  /** Every entry of the merged index points at a record of the log that has its key. */
  lemma {:induction false} IndexIsInBounds<V>(log: seq<KeyValue<V>>, index: seq<KeyValue<int>>)
    requires index == SortedEntries(PositionMap(log))
    ensures forall i :: 0 <= i < |index| ==> 0 <= index[i].value < |log| && log[index[i].value].key == index[i].key
  {
    PositionsPointAtLast(log);
    forall i | 0 <= i < |index| ensures 0 <= index[i].value < |log| && log[index[i].value].key == index[i].key {
      LastRecordWins(index, i);
    }
  }

  /** Following the merged index rewrites the log as the sorted entries of its map. */
  lemma {:induction false} RewritingKeepsMeaning<V>(log: seq<KeyValue<V>>, index: seq<KeyValue<int>>)
    requires index == SortedEntries(PositionMap(log))
    requires forall i :: 0 <= i < |index| ==> 0 <= index[i].value < |log|
    ensures Resolved(log, index) == SortedEntries(AsMap(log))
  {
    hide AsMap, Positions, StrictlySorted, PositionMap, Resolved;
    var r := Resolved(log, index);
    assert AsMap(r) == AsMap(log) by {
      forall k
        ensures k in AsMap(r) <==> k in AsMap(log)
        ensures k in AsMap(r) ==> AsMap(r)[k] == AsMap(log)[k]
      {
        RewrittenLookup(log, index, k);
      }
    }
    ResolvedIsSorted(log, index);
    IsSortedEntries(r, AsMap(log));
  }

  lemma {:induction false} RewrittenLookup<V>(log: seq<KeyValue<V>>, index: seq<KeyValue<int>>, k: Key)
    requires index == SortedEntries(PositionMap(log))
    requires forall i :: 0 <= i < |index| ==> 0 <= index[i].value < |log|
    ensures var r := Resolved(log, index);
      && (k in AsMap(r) <==> k in AsMap(log))
      && (k in AsMap(r) ==> AsMap(r)[k] == AsMap(log)[k])
  {
    hide SortedEntries, AsMap, Positions;
    var r := Resolved(log, index);
    PositionsPointAtLast(log);
    AsMapKeys(r, k);
    AsMapKeys(index, k);
    if HasKey(r, k) {
      var i :| 0 <= i < |r| && r[i].key == k;
      assert index[i].key == k;
      LastRecordWins(index, i);
      LastRecordWins(r, i);
    }
    if HasKey(index, k) {
      var i :| 0 <= i < |index| && index[i].key == k;
      assert r[i].key == k;
    }
  }

  /** Positions `from..to` of the log, as index entries. */
  ghost function PositionsBetween<V>(log: seq<KeyValue<V>>, from: nat, to: nat): seq<KeyValue<int>>
    requires from <= to <= |log|
  {
    Positions(log)[from..to]
  }

  /** Sorting the next batch of positions extends the union of the batches by these positions. */
  lemma {:induction false} NextBatch<V>(
      log: seq<KeyValue<V>>, ins: seq<seq<KeyValue<int>>>, from: nat, to: nat, batch: seq<KeyValue<int>>)
    requires from <= to <= |log|
    requires Union(ins) == AsMap(PositionsBetween(log, 0, from))
    requires batch == PositionsBetween(log, from, to)
    ensures Union(ins + [SortedEntries(AsMap(batch))]) == AsMap(PositionsBetween(log, 0, to))
  {
    var sorted := SortedEntries(AsMap(batch));
    FlattenSnoc(ins, sorted);
    AsMapConcat(Flatten(ins), sorted);
    assert PositionsBetween(log, 0, to) == PositionsBetween(log, 0, from) + batch;
    AsMapConcat(PositionsBetween(log, 0, from), batch);
  }

  lemma {:induction false} ExportedPart<V>(sorted: seq<KeyValue<V>>, notSorted: seq<KeyValue<V>>)
    requires StrictlySorted(sorted)
    ensures var exported := Positions(sorted);
      && AllSorted([exported])
      && Union([exported]) == AsMap(PositionsBetween(sorted + notSorted, 0, |sorted|))
  {
    var exported := Positions(sorted);
    assert exported == PositionsBetween(sorted + notSorted, 0, |sorted|);
    assert [exported] == [] + [exported];
    FlattenSnoc([], exported);
    assert Flatten([exported]) == exported;
  }

  lemma WholeLog<V>(log: seq<KeyValue<V>>)
    ensures AsMap(PositionsBetween(log, 0, |log|)) == PositionMap(log)
  {
    assert PositionsBetween(log, 0, |log|) == Positions(log);
  }

  lemma BatchOfPositions<V>(log: seq<KeyValue<V>>, shift: nat, from: nat, to: nat, batch: seq<KeyValue<int>>)
    requires from <= to && shift + to <= |log| && |batch| == to - from
    requires forall j :: 0 <= j < |batch| ==> batch[j] == KeyValue(log[shift + from + j].key, from + j + shift)
    ensures batch == PositionsBetween(log, shift + from, shift + to)
  {
  }

  lemma {:induction false} NonEmptySorted(batch: seq<KeyValue<int>>)
    requires batch != []
    ensures SortedEntries(AsMap(batch)) != [] && StrictlySorted(SortedEntries(AsMap(batch)))
  {
    AsMapKeys(batch, batch[0].key);
  }

  /** After `i` batches of size `b`, `i * b` of `n` records were read, or all of them. */
  ghost predicate BatchesRead(read: nat, i: nat, n: nat, b: nat) {
    read == if b * i <= n then b * i else n
  }

  lemma {:induction false} BatchNotEmpty(read: nat, i: nat, batches: nat, n: nat, b: nat)
    requires b > 0 && BatchesRead(read, i, n, b) && i < batches && b * batches < n + b
    ensures read < n && BatchesRead(read + ChunkSize(n - read, b), i + 1, n, b)
  {
    TimesNext(b, i, batches);
    assert b * (i + 1) == b * i + b;
  }

  lemma AllRead(read: nat, batches: nat, n: nat, b: nat)
    requires BatchesRead(read, batches, n, b) && n <= b * batches
    ensures read == n
  {
  }

  lemma CeilDivIs(n: nat, r: nat)
    requires r > 0
    ensures (n + r - 1) / r == CeilDiv(n, r)
  {
  }

  /** The batches sorted so far: the keys of the sorted part, then non-empty batches that reach up to
      position `to` of the log. */
  ghost predicate Batched<V>(
      batches: seq<SingleFileIndexedStorage<int>>, ins: seq<seq<KeyValue<int>>>,
      sorted: seq<KeyValue<V>>, log: seq<KeyValue<V>>, to: nat)
    requires to <= |log|
    reads batches
  {
    && Inputs(batches, ins) && AllSorted(ins) && Union(ins) == AsMap(PositionsBetween(log, 0, to))
    && ins != [] && ins[0] == Positions(sorted) && forall i :: 0 < i < |ins| ==> ins[i] != []
  }

  lemma FirstBatch<V>(batch: SingleFileIndexedStorage<int>, sorted: seq<KeyValue<V>>, notSorted: seq<KeyValue<V>>)
    requires StrictlySorted(sorted) && batch.items == Positions(sorted) && batch.register.count == |batch.items|
    ensures Batched([batch], [batch.items], sorted, sorted + notSorted, |sorted|)
  {
    hide AsMap, Union, PositionsBetween, StrictlySorted;
    ExportedPart(sorted, notSorted);
  }

  lemma OneMoreBatch<V>(
      batches: seq<SingleFileIndexedStorage<int>>, ins: seq<seq<KeyValue<int>>>, batch: SingleFileIndexedStorage<int>,
      sorted: seq<KeyValue<V>>, log: seq<KeyValue<V>>, from: nat, to: nat)
    requires from <= to <= |log| && Batched(batches, ins, sorted, log, from)
    requires batch.register.count == |batch.items| && batch.items != [] && StrictlySorted(batch.items)
    requires Union(ins + [batch.items]) == AsMap(PositionsBetween(log, 0, to))
    ensures Batched(batches + [batch], ins + [batch.items], sorted, log, to)
  {
    hide AsMap, Union, PositionsBetween, StrictlySorted, Positions;
  }

  lemma EntireLog<V>(
      batches: seq<SingleFileIndexedStorage<int>>, ins: seq<seq<KeyValue<int>>>,
      sorted: seq<KeyValue<V>>, log: seq<KeyValue<V>>)
    requires Batched(batches, ins, sorted, log, |log|)
    ensures Union(ins) == PositionMap(log)
  {
    hide AsMap, Union, StrictlySorted, Positions;
    WholeLog(log);
  }

  lemma Extended<T>(all: seq<T>, done: nat, next: nat)
    requires done <= next <= |all|
    ensures all[..done] + all[done..next] == all[..next]
  {
  }

  // ---------------------------------------------------------------- the storage

  class KeyValueShrinkableStorage<V> {
    const sortedStorage: SingleFileIndexedStorage<V>
    const notSortedStorage: SingleFileIndexedStorage<V>
    const supplier: RegisterSupplier

    ghost predicate Valid()
      reads sortedStorage, notSortedStorage
    {
      && sortedStorage != notSortedStorage
      && sortedStorage.register == CountingRegister(|sortedStorage.items|, VoidRegister)
      && notSortedStorage.register == CountingRegister(|notSortedStorage.items|, VoidRegister)
      && StrictlySorted(sortedStorage.items)
    }

    lemma CountsAreSizes()
      requires Valid()
      ensures sortedStorage.GetItemsCount() == |sortedStorage.items|
      ensures notSortedStorage.GetItemsCount() == |notSortedStorage.items|
      ensures sortedStorage != notSortedStorage && StrictlySorted(sortedStorage.items)
    {
    }

    ghost function Log(): seq<KeyValue<V>>
      reads sortedStorage, notSortedStorage
    {
      sortedStorage.items + notSortedStorage.items
    }

    constructor (supplier: RegisterSupplier)
      ensures Valid() && sortedStorage.items == [] && notSortedStorage.items == []
      ensures fresh(sortedStorage) && fresh(notSortedStorage)
      ensures this.supplier == supplier
    {
      sortedStorage := new SingleFileIndexedStorage(VoidSupplier);
      notSortedStorage := new SingleFileIndexedStorage(VoidSupplier);
      this.supplier := supplier;
    }

    /** Copies the records that `actualIndex` points at into a new sorted part. */
    constructor Rewritten(oldStorage: KeyValueShrinkableStorage<V>, actualIndex: SingleFileIndexedStorage<int>,
                          indexBatchSize: nat)
      requires oldStorage.Valid()
      requires forall i :: 0 <= i < |actualIndex.items| ==> 0 <= actualIndex.items[i].value < |oldStorage.Log()|
      requires StrictlySorted(actualIndex.items)
      ensures Valid() && supplier == oldStorage.supplier
      ensures fresh(sortedStorage) && fresh(notSortedStorage)
      ensures sortedStorage.items == Resolved(oldStorage.Log(), actualIndex.items)
      ensures notSortedStorage.items == []
    {
      sortedStorage := new SingleFileIndexedStorage(VoidSupplier);
      notSortedStorage := new SingleFileIndexedStorage(VoidSupplier);
      supplier := oldStorage.supplier;
      new;
      hide StrictlySorted, AsMap, Filled, Resolved;
      oldStorage.CopyResolved(actualIndex, indexBatchSize, sortedStorage);
      ResolvedIsSorted(oldStorage.Log(), actualIndex.items);
    }

    /** Appends the records that `actualIndex` points at to an empty storage, batch by batch. */
    method CopyResolved(actualIndex: SingleFileIndexedStorage<int>, indexBatchSize: nat,
                        target: SingleFileIndexedStorage<V>)
      requires Valid() && target.Valid() && target.register.inner.VoidRegister? && target.items == []
      requires target != sortedStorage && target != notSortedStorage
      requires forall i :: 0 <= i < |actualIndex.items| ==> 0 <= actualIndex.items[i].value < |Log()|
      modifies target
      ensures target.Valid() && target.register.inner.VoidRegister?
      ensures target.items == old(Resolved(Log(), actualIndex.items))
    {
      hide StrictlySorted, AsMap, Resolved, KeysOf, Filled;
      ghost var all := Resolved(Log(), actualIndex.items);
      var indexIterator := new InputIterator(actualIndex);
      var currentBatchIndex := indexIterator.Collect(indexBatchSize);
      ghost var done := 0;
      while currentBatchIndex != []
        invariant fresh(indexIterator) && indexIterator.items == actualIndex.items
        invariant done <= indexIterator.index <= |all|
        invariant currentBatchIndex == actualIndex.items[done..indexIterator.index]
        invariant currentBatchIndex == [] ==> done == |all|
        invariant target.Valid() && target.register.inner.VoidRegister?
        invariant target.items == all[..done]
        decreases |all| - done
      {
        var records := GetAll(currentBatchIndex);
        NextResolved(Log(), actualIndex.items, done, indexIterator.index);
        target.AppendAll(records);
        done := indexIterator.index;
        currentBatchIndex := indexIterator.Collect(indexBatchSize);
      }
      assert all[..|all|] == all;
    }

    method Append(item: KeyValue<V>)
      requires Valid()
      modifies notSortedStorage
      ensures Valid() && notSortedStorage.items == old(notSortedStorage.items) + [item]
    {
      notSortedStorage.Append(item);
    }

    function GetSortedItemsCount(): nat
      reads sortedStorage
    {
      sortedStorage.GetItemsCount()
    }

    function GetNotSortedItemsCount(): nat
      reads notSortedStorage
    {
      notSortedStorage.GetItemsCount()
    }

    function GetItemsCount(): nat
      reads sortedStorage, notSortedStorage
    {
      sortedStorage.GetItemsCount() + notSortedStorage.GetItemsCount()
    }

    /** The record at a position of the log. The position must be in bounds. */
    function Get(index: nat): (r: KeyValue<V>)
      requires Valid() && index < GetItemsCount()
      reads sortedStorage, notSortedStorage
      ensures r == Log()[index]
    {
      if index >= sortedStorage.GetItemsCount()
      then notSortedStorage.Get(index - sortedStorage.GetItemsCount())
      else sortedStorage.Get(index)
    }

    /** The functor of the rewriting constructor, applied to a batch of index entries. */
    method GetAll(index: seq<KeyValue<int>>) returns (records: seq<KeyValue<V>>)
      requires Valid() && forall i :: 0 <= i < |index| ==> 0 <= index[i].value < |Log()|
      ensures records == Resolved(Log(), index)
    {
      records := [];
      for i := 0 to |index|
        invariant |records| == i
        invariant forall j :: 0 <= j < i ==> records[j] == KeyValue(index[j].key, Log()[index[j].value].value)
      {
        records := records + [KeyValue(index[i].key, Get(index[i].value).value)];
      }
    }

    /** Reads the next keys of the sorted part, with their positions. */
    method NextKeys(it: InputIterator<V>, batchSize: nat) returns (keys: seq<KeyValue<int>>)
      requires it.index <= |it.items|
      modifies it
      ensures old(it.index) <= it.index <= |it.items|
      ensures keys == Positions(it.items)[old(it.index)..it.index]
      ensures keys == [] ==> it.index == |it.items|
    {
      keys := it.CollectWith((kv: KeyValue<V>, ind: nat) => KeyValue(kv.key, ind), batchSize);
    }

    /** Writes the key of every record of the sorted part, with its position, to a new index storage. */
    method ExportKeys(batchSize: nat) returns (sortedIndex: SingleFileIndexedStorage<int>)
      requires Valid()
      ensures fresh(sortedIndex.Footprint()) && sortedIndex.Valid()
      ensures sortedIndex.register.inner.MadeBy(supplier) && sortedIndex.ReservedFor(|sortedStorage.items|)
      ensures sortedIndex.items != [] ==> sortedIndex.CanAppend()
      ensures sortedIndex.items == Positions(sortedStorage.items)
    {
      hide StrictlySorted, AsMap, Positions, KeysOf, InnerRegister.Holds, InnerRegister.CanRegister,
           KeyValueShrinkableStorage.Valid, KeyValueShrinkableStorage.Log;
      CountsAreSizes();
      ghost var all := Positions(sortedStorage.items);
      sortedIndex := new SingleFileIndexedStorage(supplier);
      ghost var inner := sortedIndex.register.inner;
      var it := new InputIterator(sortedStorage);
      var keys := NextKeys(it, batchSize);
      sortedIndex.Reserve(sortedStorage.GetItemsCount());
      ghost var done := 0;
      while keys != []
        invariant fresh(it) && it.items == sortedStorage.items && done <= it.index <= |all|
        invariant keys == all[done..it.index]
        invariant keys == [] ==> done == |all|
        invariant sortedIndex.Valid() && sortedIndex.register.inner == inner
        invariant sortedIndex.ReservedFor(|sortedStorage.items|)
        invariant all != [] ==> sortedIndex.CanAppend()
        invariant sortedIndex.items == all[..done]
        decreases |all| - done
      {
        sortedIndex.AppendAll(keys);
        Extended(all, done, it.index);
        done := it.index;
        keys := NextKeys(it, batchSize);
      }
      assert all[..|all|] == all;
    }

    /** Reads the next batch of keys of the unsorted part and sorts them. */
    method SortNextBatch(notSortedKeysStream: InputIterator<V>,
        ghost batches: seq<SingleFileIndexedStorage<int>>, ghost ins: seq<seq<KeyValue<int>>>, shrinkBatchSize: nat)
      returns (sortedBatch: SingleFileIndexedStorage<int>)
      requires Valid() && shrinkBatchSize > 0
      requires notSortedKeysStream.items == notSortedStorage.items
      requires notSortedKeysStream.index < |notSortedStorage.items|
      requires Batched(batches, ins, sortedStorage.items, Log(), |sortedStorage.items| + notSortedKeysStream.index)
      modifies notSortedKeysStream
      ensures notSortedKeysStream.index == old(notSortedKeysStream.index)
        + ChunkSize(|notSortedStorage.items| - old(notSortedKeysStream.index), shrinkBatchSize)
            <= |notSortedStorage.items|
      ensures fresh(sortedBatch) && sortedBatch.Valid() && sortedBatch.GetItemsCount() > 0
      ensures Batched(batches + [sortedBatch], ins + [sortedBatch.items], sortedStorage.items, Log(),
                      |sortedStorage.items| + notSortedKeysStream.index)
    {
      hide AsMap, StrictlySorted, SortedEntries, Union, Filled, PositionsBetween;
      var sortedStorageSize, from := sortedStorage.GetItemsCount(), notSortedKeysStream.index;
      var toKeyIndex := (svi: KeyValue<V>, index: nat) => KeyValue(svi.key, index + sortedStorageSize);
      var notSortedKeys: seq<KeyValue<int>> := notSortedKeysStream.CollectWith(toKeyIndex, shrinkBatchSize);
      ghost var to := notSortedKeysStream.index;
      BatchOfPositions(Log(), sortedStorageSize, from, to, notSortedKeys);
      NextBatch(Log(), ins, sortedStorageSize + from, sortedStorageSize + to, notSortedKeys);
      sortedBatch := FromCollection(notSortedKeys, false, supplier);
      NonEmptySorted(notSortedKeys);
      OneMoreBatch(batches, ins, sortedBatch, sortedStorage.items, Log(), sortedStorageSize + from,
                   sortedStorageSize + to);
    }

    /** The sorted batches that shrinking merges: the exported keys of the sorted part, then the
        unsorted part in batches of `shrinkBatchSize` records. No batch is empty. */
    method SortBatches(shrinkBatchSize: nat)
      returns (sortedBatches: seq<SingleFileIndexedStorage<int>>, ghost ins: seq<seq<KeyValue<int>>>)
      requires Valid() && shrinkBatchSize > 0
      ensures Batched(sortedBatches, ins, sortedStorage.items, Log(), |Log()|) && Union(ins) == PositionMap(Log())
      ensures |sortedBatches| == |ins| == 1 + CeilDiv(|notSortedStorage.items|, shrinkBatchSize)
    {
      hide AsMap, StrictlySorted, SortedEntries, Union, CeilDiv, PositionsBetween, Positions, InnerRegister.Holds,
           Batched, KeyValueShrinkableStorage.Valid;
      CountsAreSizes();
      ghost var sorted, notSorted := sortedStorage.items, notSortedStorage.items;
      var batchesCount := (notSortedStorage.GetItemsCount() + shrinkBatchSize - 1) / shrinkBatchSize;
      CeilDivIs(|notSorted|, shrinkBatchSize);
      CeilDivBounds(|notSorted|, shrinkBatchSize);
      var notSortedKeysStream := new InputIterator(notSortedStorage);
      var exportedKeys := ExportKeys(shrinkBatchSize);
      sortedBatches := [exportedKeys];
      ins := [exportedKeys.items];
      FirstBatch(exportedKeys, sorted, notSorted);
      for batchI := 0 to batchesCount
        invariant fresh(notSortedKeysStream) && notSortedKeysStream.items == notSorted
        invariant notSortedKeysStream.index <= |notSorted|
        invariant BatchesRead(notSortedKeysStream.index, batchI, |notSorted|, shrinkBatchSize)
        invariant |sortedBatches| == |ins| == 1 + batchI
        invariant Batched(sortedBatches, ins, sorted, Log(), |sorted| + notSortedKeysStream.index)
      {
        BatchNotEmpty(notSortedKeysStream.index, batchI, batchesCount, |notSorted|, shrinkBatchSize);
        var sortedBatch := SortNextBatch(notSortedKeysStream, sortedBatches, ins, shrinkBatchSize);
        assert sortedBatch.GetItemsCount() > 0;
        sortedBatches := sortedBatches + [sortedBatch];
        ins := ins + [sortedBatch.items];
      }
      AllRead(notSortedKeysStream.index, batchesCount, |notSorted|, shrinkBatchSize);
      EntireLog(sortedBatches, ins, sorted, Log());
    }

    /** Moves all records into the sorted part and returns the index of the new log. */
    method Shrink(shrinkBatchSize: nat) returns (updatedIndex: SingleFileIndexedStorage<int>)
      requires Valid() && shrinkBatchSize > 0
      modifies sortedStorage, notSortedStorage
      ensures Valid() && notSortedStorage.items == []
      ensures sortedStorage.items == SortedEntries(AsMap(old(Log())))
      ensures fresh(updatedIndex.Footprint()) && updatedIndex.Valid()
      ensures updatedIndex.register.inner.MadeBy(supplier) && updatedIndex.ReservedFor(|sortedStorage.items|)
      ensures updatedIndex.items != [] ==> updatedIndex.CanAppend()
      ensures updatedIndex.items == Positions(sortedStorage.items)
    {
      hide AsMap, SortedEntries, Union, Filled, StrictlySorted, InnerRegister.Holds, KeysOf, Resolved, Positions;
      ghost var log := Log();
      var sortedBatches, ins := SortBatches(shrinkBatchSize);
      ghost var recordReads;
      updatedIndex, recordReads := Merge(sortedBatches, ins, shrinkBatchSize, supplier);
      IndexIsInBounds(log, updatedIndex.items);
      RewritingKeepsMeaning(log, updatedIndex.items);
      var rewritten := new KeyValueShrinkableStorage.Rewritten(this, updatedIndex, shrinkBatchSize);
      ResetWith(rewritten);
      var actualExportedKeys := ExportKeys(shrinkBatchSize);
      updatedIndex.ResetWith(actualExportedKeys);
    }

    method ResetWith(other: KeyValueShrinkableStorage<V>)
      requires Valid() && other.Valid()
      requires other.sortedStorage !in {sortedStorage, notSortedStorage}
      requires other.notSortedStorage !in {sortedStorage, notSortedStorage}
      modifies sortedStorage, notSortedStorage, other.sortedStorage, other.notSortedStorage
      ensures Valid()
      ensures sortedStorage.items == old(other.sortedStorage.items)
      ensures notSortedStorage.items == old(other.notSortedStorage.items)
    {
      sortedStorage.ResetWith(other.sortedStorage);
      notSortedStorage.ResetWith(other.notSortedStorage);
    }
  }
}
