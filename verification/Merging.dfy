/** The k-way merge of sorted storages, given from the least to the most relevant one. */
module Merging {
  import opened Records
  import opened Storages
  import opened SortedStorages

  /** `ins` are the contents of the storages `newer`. */
  ghost predicate Inputs<V>(newer: seq<SingleFileIndexedStorage<V>>, ins: seq<seq<KeyValue<V>>>)
    reads newer
  {
    && |ins| == |newer|
    && forall i :: 0 <= i < |newer| ==> newer[i].items == ins[i] && newer[i].register.count == |ins[i]|
  }

  ghost predicate Pointers<V>(ins: seq<seq<KeyValue<V>>>, ptrs: seq<nat>) {
    |ptrs| == |ins| && forall i :: 0 <= i < |ins| ==> ptrs[i] <= |ins[i]|
  }

  /** The front line holds the record under each front pointer, if the input is not exhausted. */
  ghost predicate FrontLine<V>(ins: seq<seq<KeyValue<V>>>, ptrs: seq<nat>, front: seq<Option<KeyValue<V>>>) {
    && Pointers(ins, ptrs)
    && |front| == |ins|
    && forall i :: 0 <= i < |ins| ==>
      front[i] == if ptrs[i] < |ins[i]| then Some(ins[i][ptrs[i]]) else None
  }

  /** The records read so far: those up to and including the one under the front pointer. */
  ghost function Loaded<V>(ins: seq<seq<KeyValue<V>>>, ptrs: seq<nat>): (r: seq<seq<KeyValue<V>>>)
    requires Pointers(ins, ptrs)
    ensures |r| == |ins|
  {
    seq(|ins|, i requires 0 <= i < |ins| => if ptrs[i] < |ins[i]| then ins[i][..ptrs[i] + 1] else ins[i])
  }

  /** Advancing one pointer. */
  lemma {:induction false} Advance<V>(ins: seq<seq<KeyValue<V>>>, ptrs: seq<nat>, i: nat)
    requires Pointers(ins, ptrs) && i < |ins| && ptrs[i] < |ins[i]|
    ensures var ptrs' := ptrs[i := ptrs[i] + 1];
      && Pointers(ins, ptrs')
      && Remaining(ins, ptrs)[i] != []
      && Remaining(ins, ptrs') == DropFirst(Remaining(ins, ptrs), i)
      && TotalSize(Remaining(ins, ptrs')) == TotalSize(Remaining(ins, ptrs)) - 1
      && TotalSize(Loaded(ins, ptrs'))
           == TotalSize(Loaded(ins, ptrs)) + if ptrs[i] + 1 < |ins[i]| then 1 else 0
  {
    var ptrs' := ptrs[i := ptrs[i] + 1];
    var rem := Remaining(ins, ptrs);
    assert Remaining(ins, ptrs') == DropFirst(rem, i);
    TotalSizeOfUpdate(rem, i, rem[i][1..]);
    assert Loaded(ins, ptrs') == Loaded(ins, ptrs)[i := Loaded(ins, ptrs')[i]];
    TotalSizeOfUpdate(Loaded(ins, ptrs), i, Loaded(ins, ptrs')[i]);
  }

  /** Moves the front pointer of one input and reads the record under it. */
  method UpdateOnce<V>(
      newer: seq<SingleFileIndexedStorage<V>>, ghost ins: seq<seq<KeyValue<V>>>,
      currentFrontPointers: seq<nat>, frontLine: seq<Option<KeyValue<V>>>, i: nat)
    returns (ptrs: seq<nat>, front: seq<Option<KeyValue<V>>>, ghost recordReads: nat)
    requires Inputs(newer, ins) && FrontLine(ins, currentFrontPointers, frontLine)
    requires i < |ins| && currentFrontPointers[i] < |ins[i]|
    ensures ptrs == currentFrontPointers[i := currentFrontPointers[i] + 1]
    ensures FrontLine(ins, ptrs, front)
    ensures recordReads == if ptrs[i] < |ins[i]| then 1 else 0
  {
    ptrs := currentFrontPointers[i := currentFrontPointers[i] + 1];
    if ptrs[i] < newer[i].GetItemsCount() {
      front := frontLine[i := Some(newer[i].Get(ptrs[i]))];
      recordReads := 1;
    } else {
      front := frontLine[i := None];
      recordReads := 0;
    }
  }

  /** `min` has the least key of the inputs from `from` on, and no other one has it. */
  ghost predicate LeastFrom<V>(front: seq<Option<KeyValue<V>>>, from: int, min: nat) {
    && from <= min < |front| && front[min].Some?
    && forall j :: 0 <= j < |front| && from <= j && j != min && front[j].Some? ==>
      front[min].value.key < front[j].value.key
  }

  /** What a pass over the fronts keeps: it moves pointers forward past shadowed records only. */
  ghost predicate Scanned<V>(ins: seq<seq<KeyValue<V>>>, ptrs0: seq<nat>, ptrs: seq<nat>, recordReads: nat)
    requires Pointers(ins, ptrs0)
  {
    && Pointers(ins, ptrs)
    && (forall i :: 0 <= i < |ins| ==> ptrs0[i] <= ptrs[i])
    && Union(Remaining(ins, ptrs)) == Union(Remaining(ins, ptrs0))
    && TotalSize(Remaining(ins, ptrs)) <= TotalSize(Remaining(ins, ptrs0))
    && TotalSize(Loaded(ins, ptrs)) == TotalSize(Loaded(ins, ptrs0)) + recordReads
  }

  lemma NothingScanned<V>(ins: seq<seq<KeyValue<V>>>, ptrs: seq<nat>)
    requires Pointers(ins, ptrs)
    ensures Scanned(ins, ptrs, ptrs, 0)
  {
  }

  /** Skipping an older record that has the key of the least newer one. */
  lemma {:induction false} SkipShadowed<V>(
      ins: seq<seq<KeyValue<V>>>, ptrs0: seq<nat>, ptrs: seq<nat>, front: seq<Option<KeyValue<V>>>,
      i: nat, min: nat, recordReads: nat)
    requires Pointers(ins, ptrs0) && Scanned(ins, ptrs0, ptrs, recordReads)
    requires FrontLine(ins, ptrs, front)
    requires i < min < |ins| && front[i].Some? && front[min].Some? && front[i].value.key == front[min].value.key
    ensures Scanned(ins, ptrs0, ptrs[i := ptrs[i] + 1], recordReads + if ptrs[i] + 1 < |ins[i]| then 1 else 0)
  {
    hide AsMap, Flatten, Union;
    Advance(ins, ptrs, i);
    SkippingShadowedRecord(Remaining(ins, ptrs), i, min);
  }

  lemma SkippedLiesAbove<V>(
      ins: seq<seq<KeyValue<V>>>, ptrs: seq<nat>, front: seq<Option<KeyValue<V>>>, front': seq<Option<KeyValue<V>>>,
      i: nat, min: nat)
    requires FrontLine(ins, ptrs, front) && i < min && LeastFrom(front, i + 1, min)
    requires front[i].Some? && front[i].value.key == front[min].value.key && AllSorted(ins)
    requires FrontLine(ins, ptrs[i := ptrs[i] + 1], front')
    ensures LeastFrom(front', i, min)
  {
    assert StrictlySorted(ins[i]);
    forall j | 0 <= j < |front| && j != i ensures front'[j] == front[j] {
      assert front[j] == if ptrs[j] < |ins[j]| then Some(ins[j][ptrs[j]]) else None;
    }
  }

  /** Skips the record under a front pointer whose key is that of the least newer record. */
  method SkipOnce<V>(
      newer: seq<SingleFileIndexedStorage<V>>, ghost ins: seq<seq<KeyValue<V>>>, ghost ptrs0: seq<nat>,
      ptrs: seq<nat>, front: seq<Option<KeyValue<V>>>, i: nat, min: nat, ghost recordReads: nat)
    returns (ptrs': seq<nat>, front': seq<Option<KeyValue<V>>>, ghost recordReads': nat)
    requires Inputs(newer, ins) && AllSorted(ins) && FrontLine(ins, ptrs, front)
    requires Pointers(ins, ptrs0) && Scanned(ins, ptrs0, ptrs, recordReads)
    requires i < min && LeastFrom(front, i + 1, min)
    requires front[i].Some? && front[i].value.key == front[min].value.key
    ensures FrontLine(ins, ptrs', front') && Scanned(ins, ptrs0, ptrs', recordReads') && LeastFrom(front', i, min)
  {
    hide Scanned, AllSorted;
    SkipShadowed(ins, ptrs0, ptrs, front, i, min, recordReads);
    ghost var n;
    ptrs', front', n := UpdateOnce(newer, ins, ptrs, front, i);
    recordReads' := recordReads + n;
    SkippedLiesAbove(ins, ptrs, front, front', i, min);
  }

  /** One pass over the fronts, newest first: finds the least key and skips older records
      that have the key of the least one so far. */
  method ScanFronts<V>(
      newer: seq<SingleFileIndexedStorage<V>>, ghost ins: seq<seq<KeyValue<V>>>,
      currentFrontPointers: seq<nat>, frontLine: seq<Option<KeyValue<V>>>)
    returns (ptrs: seq<nat>, front: seq<Option<KeyValue<V>>>, hasMin: bool, min: nat, ghost recordReads: nat)
    requires Inputs(newer, ins) && AllSorted(ins) && FrontLine(ins, currentFrontPointers, frontLine)
    ensures FrontLine(ins, ptrs, front) && Scanned(ins, currentFrontPointers, ptrs, recordReads)
    ensures hasMin ==> LeastFrom(front, 0, min)
    ensures !hasMin ==> forall i :: 0 <= i < |ins| ==> front[i].None?
  {
    hide Scanned, AllSorted, Union, TotalSize, Remaining, Loaded;
    ptrs, front, hasMin, min, recordReads := currentFrontPointers, frontLine, false, 0, 0;
    NothingScanned(ins, ptrs);
    var i := |newer| - 1;
    while i >= 0
      invariant -1 <= i < |newer| && |front| == |newer|
      invariant FrontLine(ins, ptrs, front) && Scanned(ins, currentFrontPointers, ptrs, recordReads)
      invariant hasMin ==> LeastFrom(front, i + 1, min)
      invariant !hasMin ==> forall j :: i < j < |ins| ==> front[j].None?
    {
      if front[i].None? {
      } else if !hasMin {
        hasMin, min := true, i;
      } else if front[i].value.key < front[min].value.key {
        min := i;
      } else if front[i].value.key == front[min].value.key {
        ptrs, front, recordReads
          := SkipOnce(newer, ins, currentFrontPointers, ptrs, front, i, min, recordReads);
      }
      i := i - 1;
    }
  }

  /** All that was emitted lies below all that remains. */
  ghost predicate Below<V>(out: seq<KeyValue<V>>, ins: seq<seq<KeyValue<V>>>, ptrs: seq<nat>) {
    && Pointers(ins, ptrs)
    && forall o, i, p :: 0 <= o < |out| && 0 <= i < |ins| && ptrs[i] <= p < |ins[i]| ==> out[o].key < ins[i][p].key
  }

  /** What was emitted, overlaid by what remains, is the union of the inputs. */
  ghost predicate Progress<V>(out: seq<KeyValue<V>>, ins: seq<seq<KeyValue<V>>>, ptrs: seq<nat>) {
    && Below(out, ins, ptrs)
    && StrictlySorted(out)
    && AsMap(out) + Union(Remaining(ins, ptrs)) == Union(ins)
  }

  /** The least front record lies below everything that remains after it. */
  lemma {:induction false} LeastIsBelow<V>(
      out: seq<KeyValue<V>>, ins: seq<seq<KeyValue<V>>>, ptrs: seq<nat>, front: seq<Option<KeyValue<V>>>, min: nat)
    requires AllSorted(ins) && FrontLine(ins, ptrs, front) && LeastFrom(front, 0, min)
    requires Below(out, ins, ptrs)
    ensures Below(out + [front[min].value], ins, ptrs[min := ptrs[min] + 1])
    ensures forall o :: 0 <= o < |out| ==> out[o].key < front[min].value.key
  {
    var r := front[min].value;
    var ptrs' := ptrs[min := ptrs[min] + 1];
    forall o, i, p | 0 <= o < |out + [r]| && 0 <= i < |ins| && ptrs'[i] <= p < |ins[i]|
      ensures (out + [r])[o].key < ins[i][p].key
    {
      if o == |out| {
        assert front[i] == Some(ins[i][ptrs[i]]);
        assert StrictlySorted(ins[i]);
      } else {
        assert (out + [r])[o] == out[o];
      }
    }
  }

  lemma {:induction false} EmitLeast<V>(
      out: seq<KeyValue<V>>, ins: seq<seq<KeyValue<V>>>, ptrs: seq<nat>, front: seq<Option<KeyValue<V>>>, min: nat)
    requires AllSorted(ins) && FrontLine(ins, ptrs, front) && LeastFrom(front, 0, min)
    requires Progress(out, ins, ptrs)
    ensures Progress(out + [front[min].value], ins, ptrs[min := ptrs[min] + 1])
  {
    hide TotalSize, Union, Loaded;
    var rem := Remaining(ins, ptrs);
    var r := front[min].value;
    LeastIsBelow(out, ins, ptrs, front, min);
    Advance(ins, ptrs, min);
    assert rem[min][0] == r;
    assert FrontIsLeast(rem, min) by {
      forall i | 0 <= i < |rem| && i != min && rem[i] != [] ensures rem[min][0].key < rem[i][0].key {
        assert front[i] == Some(rem[i][0]);
      }
    }
    TakingLeastFront(rem, min);
    AsMapSnoc(out, r);
    PutAcross(AsMap(out), Union(DropFirst(rem, min)), r.key, r.value);
  }

  lemma PutAcross<V>(a: map<Key, V>, b: map<Key, V>, k: Key, v: V)
    requires k !in b
    ensures a[k := v] + b == a + b[k := v]
  {
  }

  lemma {:induction false} NothingRemains<V>(out: seq<KeyValue<V>>, ins: seq<seq<KeyValue<V>>>, ptrs: seq<nat>)
    requires Progress(out, ins, ptrs) && forall i :: 0 <= i < |ins| ==> ptrs[i] == |ins[i]|
    ensures out == SortedEntries(Union(ins)) && Loaded(ins, ptrs) == ins
  {
    hide AsMap, Union, SortedEntries;
    AsMapEmpty<V>();
    forall k ensures k !in Union(Remaining(ins, ptrs)) {
      KeyOfNoInput(Remaining(ins, ptrs), k);
    }
    assert AsMap(out) == Union(ins);
    IsSortedEntries(out, Union(ins));
    assert Loaded(ins, ptrs) == ins;
  }

  lemma NothingEmitted<V>(ins: seq<seq<KeyValue<V>>>, ptrs: seq<nat>)
    requires Pointers(ins, ptrs) && Remaining(ins, ptrs) == ins
    ensures Progress([], ins, ptrs)
  {
  }

  lemma ScanKeepsProgress<V>(
      out: seq<KeyValue<V>>, ins: seq<seq<KeyValue<V>>>, ptrs0: seq<nat>, ptrs: seq<nat>, recordReads: nat)
    requires Progress(out, ins, ptrs0) && Scanned(ins, ptrs0, ptrs, recordReads)
    ensures Progress(out, ins, ptrs)
  {
  }

  /** Fills the front line with the first record of every input. */
  method InitialFronts<V>(newer: seq<SingleFileIndexedStorage<V>>, ghost ins: seq<seq<KeyValue<V>>>)
    returns (ptrs: seq<nat>, front: seq<Option<KeyValue<V>>>, totalSize: nat, ghost recordReads: nat)
    requires Inputs(newer, ins)
    ensures FrontLine(ins, ptrs, front) && Remaining(ins, ptrs) == ins
    ensures totalSize == TotalSize(ins) && recordReads == TotalSize(Loaded(ins, ptrs))
  {
    hide TotalSize;
    NothingHasNoSize<KeyValue<V>>();
    ptrs := seq(|newer|, _ => 0);
    front, totalSize, recordReads := [], 0, 0;
    for i := 0 to |newer|
      invariant |front| == i
      invariant forall j :: 0 <= j < i ==> front[j] == if 0 < |ins[j]| then Some(ins[j][0]) else None
      invariant totalSize == TotalSize(ins[..i])
      invariant recordReads == TotalSize(Loaded(ins, ptrs)[..i])
    {
      TotalSizeNext(ins, i);
      TotalSizeNext(Loaded(ins, ptrs), i);
      if newer[i].GetItemsCount() > 0 {
        front := front + [Some(newer[i].Get(0))];
        totalSize := totalSize + newer[i].GetItemsCount();
        recordReads := recordReads + 1;
      } else {
        front := front + [None];
      }
    }
    assert ins[..|newer|] == ins && Loaded(ins, ptrs)[..|newer|] == Loaded(ins, ptrs);
    assert Remaining(ins, ptrs) == ins;
  }

  /** One turn of the merge loop: finds the next record to write and moves past it. */
  method TakeMin<V>(
      newer: seq<SingleFileIndexedStorage<V>>, ghost ins: seq<seq<KeyValue<V>>>,
      currentFrontPointers: seq<nat>, frontLine: seq<Option<KeyValue<V>>>, ghost out: seq<KeyValue<V>>)
    returns (ptrs: seq<nat>, front: seq<Option<KeyValue<V>>>, minItem: Option<KeyValue<V>>, ghost recordReads: nat)
    requires Inputs(newer, ins) && AllSorted(ins) && FrontLine(ins, currentFrontPointers, frontLine)
    requires Progress(out, ins, currentFrontPointers)
    ensures FrontLine(ins, ptrs, front)
    ensures minItem.None? ==> Progress(out, ins, ptrs) && forall i :: 0 <= i < |ins| ==> ptrs[i] == |ins[i]|
    ensures minItem.Some? ==>
      && Progress(out + [minItem.value], ins, ptrs)
      && TotalSize(Remaining(ins, ptrs)) < TotalSize(Remaining(ins, currentFrontPointers))
    ensures TotalSize(Loaded(ins, ptrs)) == TotalSize(Loaded(ins, currentFrontPointers)) + recordReads
  {
    hide TotalSize, Union, Loaded, Remaining, AsMap, Progress, StrictlySorted, AllSorted;
    var hasMin, min;
    ptrs, front, hasMin, min, recordReads := ScanFronts(newer, ins, currentFrontPointers, frontLine);
    ScanKeepsProgress(out, ins, currentFrontPointers, ptrs, recordReads);
    if !hasMin {
      return ptrs, front, None, recordReads;
    }
    var least := front[min].value;
    EmitLeast(out, ins, ptrs, front, min);
    Advance(ins, ptrs, min);
    ghost var n;
    ptrs, front, n := UpdateOnce(newer, ins, ptrs, front, min);
    return ptrs, front, Some(least), recordReads + n;
  }

  /** Puts a record into the write buffer and drops the buffer when it is full. */
  method PushBack<V>(merged: SingleFileIndexedStorage<V>, writeBuffer: seq<KeyValue<V>>, item: KeyValue<V>,
      batchSize: nat)
    returns (buffer: seq<KeyValue<V>>)
    requires merged.Valid() && merged.CanAppend()
    modifies merged.Footprint()
    ensures merged.Valid() && merged.CanAppend() && merged.register.inner == old(merged.register.inner)
    ensures merged.items + buffer == old(merged.items) + writeBuffer + [item]
    ensures forall n :: old(merged.ReservedFor(n)) ==> merged.ReservedFor(n)
  {
    hide InnerRegister.Holds, KeysOf;
    buffer := writeBuffer + [item];
    assert merged.items + buffer == merged.items + writeBuffer + [item];
    if |buffer| >= batchSize {
      merged.AppendAll(buffer);
      buffer := [];
      assert merged.items + buffer == merged.items;
    }
  }

  /** Merges the storages. The result does not depend on the size of the write buffer,
      and every record of the inputs is read once. */
  method Merge<V>(newer: seq<SingleFileIndexedStorage<V>>, ghost ins: seq<seq<KeyValue<V>>>,
                  batchSize: nat, supplier: RegisterSupplier)
    returns (merged: SingleFileIndexedStorage<V>, ghost recordReads: nat)
    requires Inputs(newer, ins) && AllSorted(ins)
    ensures fresh(merged.Footprint()) && merged.Valid()
    ensures merged.items == SortedEntries(Union(ins))
    ensures merged.items != [] ==> merged.CanAppend()
    ensures merged.register.inner.MadeBy(supplier) && merged.ReservedFor(TotalSize(ins))
    ensures recordReads == TotalSize(ins)
  {
    hide TotalSize, Union, Loaded, Remaining, AsMap, SortedEntries, Progress, StrictlySorted, AllSorted,
         InnerRegister.Holds, KeysOf;
    merged := new SingleFileIndexedStorage(supplier);
    var currentFrontPointers, frontLine, totalSize, n := InitialFronts(newer, ins);
    recordReads := n;
    merged.Reserve(totalSize);
    var writeBuffer: seq<KeyValue<V>> := [];
    assert merged.items + writeBuffer == [];
    NothingEmitted(ins, currentFrontPointers);
    while true
      invariant fresh(merged.Footprint()) && merged.Valid()
      invariant merged.register.inner.MadeBy(supplier) && merged.ReservedFor(TotalSize(ins))
      invariant TotalSize(ins) > 0 ==> merged.CanAppend()
      invariant TotalSize(ins) == 0 ==> merged.items + writeBuffer == []
      invariant Inputs(newer, ins) && FrontLine(ins, currentFrontPointers, frontLine)
      invariant Progress(merged.items + writeBuffer, ins, currentFrontPointers)
      invariant TotalSize(Remaining(ins, currentFrontPointers)) <= TotalSize(ins)
      invariant recordReads == TotalSize(Loaded(ins, currentFrontPointers))
      decreases TotalSize(Remaining(ins, currentFrontPointers))
    {
      var minItem;
      currentFrontPointers, frontLine, minItem, n
        := TakeMin(newer, ins, currentFrontPointers, frontLine, merged.items + writeBuffer);
      recordReads := recordReads + n;
      if minItem.None? {
        break;
      }
      writeBuffer := PushBack(merged, writeBuffer, minItem.value, batchSize);
    }
    NothingRemains(merged.items + writeBuffer, ins, currentFrontPointers);
    merged.AppendAll(writeBuffer);
  }

  /** A record of a merge result comes from the highest-numbered input that has its key. */
  ghost predicate FromNewest<V>(r: KeyValue<V>, ins: seq<seq<KeyValue<V>>>, i: nat) {
    && i < |ins| && r in ins[i]
    && forall j :: i < j < |ins| ==> !HasKey(ins[j], r.key)
  }

  /** The result of a merge, record by record. */
  lemma {:induction false} MergeIsNewestWinsUnion<V>(ins: seq<seq<KeyValue<V>>>, out: seq<KeyValue<V>>, k: Key)
    requires AllSorted(ins) && out == SortedEntries(Union(ins))
    ensures StrictlySorted(out)
    ensures HasKey(out, k) <==> exists i :: 0 <= i < |ins| && HasKey(ins[i], k)
    ensures forall e :: 0 <= e < |out| && out[e].key == k ==> exists i :: FromNewest(out[e], ins, i)
  {
    hide AsMap, Union, SortedEntries, Flatten;
    AsMapKeys(out, k);
    UnionKeys(ins, k);
    forall i | 0 <= i < |ins| ensures k in AsMap(ins[i]) <==> HasKey(ins[i], k) {
      AsMapKeys(ins[i], k);
    }
    forall e | 0 <= e < |out| && out[e].key == k ensures exists i :: FromNewest(out[e], ins, i) {
      var i := NewestWith(ins, k);
      UnionTakesNewest(ins, k, i);
      LastRecordWins(out, e);
      var p :| 0 <= p < |ins[i]| && ins[i][p].key == k;
      LastRecordWins(ins[i], p);
      assert ins[i][p] == out[e];
      assert FromNewest(out[e], ins, i);
    }
  }

  lemma {:induction false} NewestWith<V>(ins: seq<seq<KeyValue<V>>>, k: Key) returns (i: nat)
    requires exists j :: 0 <= j < |ins| && HasKey(ins[j], k)
    ensures i < |ins| && HasKey(ins[i], k) && k in AsMap(ins[i])
    ensures forall j :: i < j < |ins| ==> !HasKey(ins[j], k) && k !in AsMap(ins[j])
  {
    var j :| 0 <= j < |ins| && HasKey(ins[j], k);
    i := |ins| - 1;
    while !HasKey(ins[i], k)
      invariant j <= i < |ins|
      invariant forall j' :: i < j' < |ins| ==> !HasKey(ins[j'], k)
      decreases i
    {
      i := i - 1;
    }
    forall j' | 0 <= j' < |ins| ensures k in AsMap(ins[j']) <==> HasKey(ins[j'], k) {
      AsMapKeys(ins[j'], k);
    }
  }
}
