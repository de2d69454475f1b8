/** Storages whose records are strictly sorted: creation from a collection, binary search,
    and the newest-wins merge. */
module SortedStorages {
  import opened Records
  import opened BloomFilters
  import opened Storages
  import opened Sorting
  import opened Ranks

  // ---------------------------------------------------------------- creation

  /** Creates a storage from a collection. Unless it is `sorted`, the last record of each key stays. */
  method FromCollection<V>(collection: seq<KeyValue<V>>, sorted: bool, supplier: RegisterSupplier)
    returns (s: SingleFileIndexedStorage<V>)
    requires sorted ==> StrictlySorted(collection)
    ensures fresh(s.Footprint()) && s.Valid() && s.CanAppend()
    ensures s.register.inner.MadeBy(supplier) && s.ReservedFor(|collection| + 1)
    ensures s.items == SortedEntries(AsMap(collection))
  {
    hide AsMap, SortedEntries, InnerRegister.Holds, KeysOf;
    var content := collection;
    if !sorted {
      content := SortedCopy(collection);
    } else {
      IsSortedEntries(collection, AsMap(collection));
    }
    s := new SingleFileIndexedStorage(supplier);
    s.Reserve(|collection| + 1);
    s.AppendAll(content);
    assert s.items == content;
  }

  method SortedCopy<V>(collection: seq<KeyValue<V>>) returns (r: seq<KeyValue<V>>)
    ensures r == SortedEntries(AsMap(collection))
  {
    var a := new KeyValue<V>[|collection|](i requires 0 <= i < |collection| => collection[i]);
    assert a[..] == collection;
    var end := SortedEndIterator(a);
    return a[..end];
  }

  // ---------------------------------------------------------------- binary search

  function CeilLog2(n: nat): nat {
    if n <= 1 then 0 else 1 + CeilLog2((n + 1) / 2)
  }

  /** The least `k` with `n <= 2^k`. */
  lemma {:induction false} CeilLog2Bounds(n: nat)
    requires n > 0
    ensures n <= Pow2(CeilLog2(n)) < 2 * n
    decreases n
  {
    if n > 1 {
      CeilLog2Bounds((n + 1) / 2);
    }
  }

  lemma {:induction false} CeilLog2Monotone(m: nat, n: nat)
    requires m <= n
    ensures CeilLog2(m) <= CeilLog2(n)
    decreases n
  {
    if m > 1 {
      CeilLog2Monotone((m + 1) / 2, (n + 1) / 2);
    }
  }

  /** Each half of a range costs one read less than the range. */
  lemma {:induction false} HalvingStep(first: nat, last: nat)
    requires last - first > 1
    ensures var middle := (first + last) / 2;
      && first < middle < last
      && 1 + CeilLog2(last - middle) <= CeilLog2(last - first)
      && 1 + CeilLog2(middle - first) <= CeilLog2(last - first)
  {
    var middle, half := (first + last) / 2, (last - first + 1) / 2;
    CeilLog2Monotone(last - middle, half);
    CeilLog2Monotone(middle - first, half);
  }

  /** Binary search. `recordReads` counts the records read. */
  method Find<V>(s: SingleFileIndexedStorage<V>, pattern: Key) returns (r: Option<KeyValue<V>>, ghost recordReads: nat)
    requires s.Valid() && StrictlySorted(s.items)
    ensures r == if pattern in AsMap(s.items) then Some(KeyValue(pattern, AsMap(s.items)[pattern])) else None
    ensures recordReads <= CeilLog2(|s.items|) + 1
  {
    hide AsMap, CeilLog2, InnerRegister.Holds;
    recordReads := 0;
    AsMapKeys(s.items, pattern);
    if s.GetItemsCount() == 0 {
      return None, recordReads;
    }
    var firstLeq, lastGt := 0, s.GetItemsCount();
    while lastGt - firstLeq > 1
      invariant 0 <= firstLeq < lastGt <= |s.items|
      invariant forall i :: 0 <= i < firstLeq ==> s.items[i].key < pattern
      invariant forall i :: lastGt <= i < |s.items| ==> pattern < s.items[i].key
      invariant recordReads + CeilLog2(lastGt - firstLeq) <= CeilLog2(|s.items|)
      decreases lastGt - firstLeq
    {
      var middle := (firstLeq + lastGt) / 2;
      var middleElem := s.Get(middle);
      recordReads := recordReads + 1;
      HalvingStep(firstLeq, lastGt);
      if middleElem.key < pattern || middleElem.key == pattern {
        firstLeq := middle;
      } else {
        lastGt := middle;
      }
    }
    if firstLeq >= s.GetItemsCount() {
      return None, recordReads;
    }
    var firstLeqElem := s.Get(firstLeq);
    recordReads := recordReads + 1;
    if firstLeqElem.key == pattern {
      LastRecordWins(s.items, firstLeq);
      return Some(firstLeqElem), recordReads;
    }
    return None, recordReads;
  }

  /** Search behind the storage's filter. A filter that is not reserved would make it throw. */
  method FilteredFind<V>(s: SingleFileIndexedStorage<V>, pattern: Key) returns (r: Option<KeyValue<V>>,
      ghost recordReads: nat)
    requires s.Valid() && StrictlySorted(s.items)
    requires s.register.inner.FilteringRegister? && s.CanAppend()
    ensures r == if pattern in AsMap(s.items) then Some(KeyValue(pattern, AsMap(s.items)[pattern])) else None
    ensures recordReads <= CeilLog2(|s.items|) + 1
  {
    var filter := s.register.inner.filter;
    var answer := filter.MightContain(pattern);
    assert answer.Returned?;
    if !answer.value {
      AsMapKeys(s.items, pattern);
      if i :| 0 <= i < |s.items| && s.items[i].key == pattern {
        AddedKeysAreAccepted(filter.params, |filter.elements|, KeysOf(s.items), i);
      }
      return None, 0;
    }
    r, recordReads := Find(s, pattern);
  }

  // ---------------------------------------------------------------- merge

  ghost predicate AllSorted<V>(ins: seq<seq<KeyValue<V>>>) {
    forall i :: 0 <= i < |ins| ==> StrictlySorted(ins[i])
  }

  /** The newest-wins union of record sequences given oldest first. */
  ghost function Union<V>(ins: seq<seq<KeyValue<V>>>): map<Key, V> {
    AsMap(Flatten(ins))
  }

  lemma UnionConcat<V>(a: seq<seq<KeyValue<V>>>, b: seq<seq<KeyValue<V>>>)
    ensures Union(a + b) == Union(a) + Union(b)
  {
    FlattenConcat(a, b);
    AsMapConcat(Flatten(a), Flatten(b));
  }

  lemma {:induction false} UnionSplit<V>(ins: seq<seq<KeyValue<V>>>, i: nat)
    requires i < |ins|
    ensures Union(ins) == Union(ins[..i]) + AsMap(ins[i]) + Union(ins[i + 1..])
  {
    assert ins == ins[..i] + [ins[i]] + ins[i + 1..];
    UnionConcat(ins[..i] + [ins[i]], ins[i + 1..]);
    FlattenSnoc(ins[..i], ins[i]);
    AsMapConcat(Flatten(ins[..i]), ins[i]);
  }

  lemma {:induction false} UnionKeys<V>(ins: seq<seq<KeyValue<V>>>, k: Key)
    ensures k in Union(ins) <==> exists i :: 0 <= i < |ins| && k in AsMap(ins[i])
    decreases |ins|
  {
    if ins != [] {
      var n := |ins| - 1;
      UnionSplit(ins, n);
      assert ins[n + 1..] == [];
      UnionKeys(ins[..n], k);
      if i :| 0 <= i < |ins| && k in AsMap(ins[i]) {
        assert i < n ==> ins[..n][i] == ins[i];
      }
      if i :| 0 <= i < n && k in AsMap(ins[..n][i]) {
        assert ins[..n][i] == ins[i];
      }
    }
  }

  lemma KeyOfNoInput<V>(ins: seq<seq<KeyValue<V>>>, k: Key)
    requires forall i :: 0 <= i < |ins| ==> k !in AsMap(ins[i])
    ensures k !in Union(ins)
  {
    UnionKeys(ins, k);
  }

  /** The union takes the record of a key from the highest-numbered input that has the key. */
  lemma {:induction false} UnionTakesNewest<V>(ins: seq<seq<KeyValue<V>>>, k: Key, i: nat)
    requires i < |ins| && k in AsMap(ins[i])
    requires forall j :: i < j < |ins| ==> k !in AsMap(ins[j])
    ensures k in Union(ins) && Union(ins)[k] == AsMap(ins[i])[k]
  {
    UnionSplit(ins, i);
    KeyOfNoInput(ins[i + 1..], k);
  }

  /** What the inputs still hold after their first `ptrs[i]` records. */
  ghost function Remaining<V>(ins: seq<seq<KeyValue<V>>>, ptrs: seq<nat>): (rem: seq<seq<KeyValue<V>>>)
    requires |ptrs| == |ins| && forall i :: 0 <= i < |ins| ==> ptrs[i] <= |ins[i]|
    ensures |rem| == |ins| && forall i :: 0 <= i < |ins| ==> rem[i] == ins[i][ptrs[i]..]
  {
    seq(|ins|, i requires 0 <= i < |ins| => ins[i][ptrs[i]..])
  }

  ghost function DropFirst<V>(rem: seq<seq<KeyValue<V>>>, i: nat): seq<seq<KeyValue<V>>>
    requires i < |rem| && rem[i] != []
  {
    rem[i := rem[i][1..]]
  }

  /** Dropping the front record of an input is harmless when a newer input still has the key. */
  lemma {:induction false} SkippingShadowedRecord<V>(rem: seq<seq<KeyValue<V>>>, i: nat, newest: nat)
    requires i < newest < |rem| && rem[i] != [] && rem[newest] != []
    requires rem[i][0].key == rem[newest][0].key
    ensures Union(DropFirst(rem, i)) == Union(rem)
  {
    hide AsMap, Union, Flatten;
    var k := rem[i][0].key;
    var rem' := DropFirst(rem, i);
    UnionSplit(rem, i);
    UnionSplit(rem', i);
    assert rem'[..i] == rem[..i] && rem'[i + 1..] == rem[i + 1..];
    assert rem[i] == [rem[i][0]] + rem[i][1..];
    AsMapCons(rem[i][0], rem[i][1..]);
    UnionKeys(rem[i + 1..], k);
    AsMapKeys(rem[newest], k);
    assert rem[i + 1..][newest - (i + 1)] == rem[newest];
    Hidden(Union(rem[..i]), AsMap(rem[i][1..]), Union(rem[i + 1..]), k, rem[i][0].value);
  }

  lemma Hidden<V>(a: map<Key, V>, b: map<Key, V>, c: map<Key, V>, k: Key, v: V)
    requires k in c
    ensures a + (map[k := v] + b) + c == a + b + c
  {
  }

  /** Every other remaining record has a key above the front record of input `m`. */
  ghost predicate FrontIsLeast<V>(rem: seq<seq<KeyValue<V>>>, m: nat)
    requires m < |rem| && rem[m] != []
  {
    forall i :: 0 <= i < |rem| && i != m && rem[i] != [] ==> rem[m][0].key < rem[i][0].key
  }

  lemma {:induction false} LeastFrontIsUnique<V>(rem: seq<seq<KeyValue<V>>>, m: nat)
    requires AllSorted(rem) && m < |rem| && rem[m] != [] && FrontIsLeast(rem, m)
    ensures forall i :: 0 <= i < |rem| ==> rem[m][0].key !in AsMap(DropFirst(rem, m)[i])
  {
    hide AsMap;
    var k := rem[m][0].key;
    forall i | 0 <= i < |rem| ensures k !in AsMap(DropFirst(rem, m)[i]) {
      AsMapKeys(DropFirst(rem, m)[i], k);
      assert StrictlySorted(rem[i]);
    }
  }

  /** Taking the least front record out of the inputs takes exactly its key out of the union. */
  lemma {:induction false} TakingLeastFront<V>(rem: seq<seq<KeyValue<V>>>, m: nat)
    requires AllSorted(rem) && m < |rem| && rem[m] != [] && FrontIsLeast(rem, m)
    ensures var r := rem[m][0];
      && r.key !in Union(DropFirst(rem, m))
      && Union(rem) == Union(DropFirst(rem, m))[r.key := r.value]
  {
    hide AsMap, Union, StrictlySorted, FrontIsLeast;
    var r := rem[m][0];
    var rem' := DropFirst(rem, m);
    LeastFrontIsUnique(rem, m);
    KeyOfNoInput(rem', r.key);
    KeyOfNoInput(rem'[m + 1..], r.key);
    UnionSplit(rem, m);
    UnionSplit(rem', m);
    assert rem'[..m] == rem[..m] && rem'[m + 1..] == rem[m + 1..];
    assert rem[m] == [r] + rem[m][1..];
    AsMapCons(r, rem[m][1..]);
    PullOut(Union(rem[..m]), AsMap(rem[m][1..]), Union(rem[m + 1..]), r.key, r.value);
  }

  lemma PullOut<V>(a: map<Key, V>, b: map<Key, V>, c: map<Key, V>, k: Key, v: V)
    requires k !in b && k !in c
    ensures a + (map[k := v] + b) + c == (a + b + c)[k := v]
  {
  }

  ghost function TotalSize<T>(ins: seq<seq<T>>): nat {
    if ins == [] then 0 else TotalSize(ins[..|ins| - 1]) + |ins[|ins| - 1]|
  }

  lemma {:induction false} TotalSizeOfUpdate<T>(ins: seq<seq<T>>, i: nat, s: seq<T>)
    requires i < |ins|
    ensures TotalSize(ins[i := s]) + |ins[i]| == TotalSize(ins) + |s|
    decreases |ins|
  {
    var n := |ins| - 1;
    if i < n {
      assert ins[i := s][..n] == ins[..n][i := s];
      TotalSizeOfUpdate(ins[..n], i, s);
    } else {
      assert ins[i := s][..n] == ins[..n];
    }
  }

  lemma {:induction false} TotalSizeNext<T>(ss: seq<seq<T>>, i: nat)
    requires i < |ss|
    ensures TotalSize(ss[..i + 1]) == TotalSize(ss[..i]) + |ss[i]|
  {
    assert ss[..i + 1][..i] == ss[..i];
  }

  lemma NothingHasNoSize<T>()
    ensures TotalSize<T>([]) == 0
  {
  }

  lemma TotalSizeSingle<T>(s: seq<T>)
    ensures TotalSize([s]) == |s|
  {
    assert [s][..0] == [];
  }

  lemma {:induction false} TotalSizeConcat<T>(a: seq<seq<T>>, b: seq<seq<T>>)
    ensures TotalSize(a + b) == TotalSize(a) + TotalSize(b)
    decreases |b|
  {
    if b == [] {
      assert a + b == a;
    } else {
      TotalSizeConcat(a, b[..|b| - 1]);
      assert (a + b)[..|a + b| - 1] == a + b[..|b| - 1];
    }
  }

  lemma TotalSizePair<T>(a: seq<T>, b: seq<T>)
    ensures TotalSize([a, b]) == |a| + |b|
  {
    assert [a, b] == [a] + [b];
    TotalSizeConcat([a], [b]);
    TotalSizeSingle(a);
    TotalSizeSingle(b);
  }
}
