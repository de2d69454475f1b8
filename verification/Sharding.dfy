/** Sharding by key hash, and deletion by tombstones, on top of the store. */
module Sharding {
  import opened Records
  import opened SupermapModel
  import opened Supermap

  // ---------------------------------------------------------------- routing

  const HASH_SEED: nat := 239

  function ShardIdForKey(hash: (Key, nat) -> nat, n: nat, k: Key): (i: nat)
    requires n > 0
    ensures i == hash(k, 239) % n < n
  {
    hash(k, HASH_SEED) % n
  }

  /** The pairs that go to shard `i`, in order. */
  ghost function Routed<V>(hash: (Key, nat) -> nat, n: nat, adds: seq<KeyValue<V>>, i: nat): seq<KeyValue<V>>
    requires n > 0
  {
    if adds == [] then []
    else
      var last := adds[|adds| - 1];
      Routed(hash, n, adds[..|adds| - 1], i) + if ShardIdForKey(hash, n, last.key) == i then [last] else []
  }

  /** `at` lists the positions of the pairs whose keys hash to shard `i`, in order. */
  ghost predicate HashedTo<V>(hash: (Key, nat) -> nat, n: nat, adds: seq<KeyValue<V>>, i: nat, at: seq<nat>)
    requires n > 0
  {
    && (forall a, b :: 0 <= a < b < |at| ==> at[a] < at[b])
    && (forall a :: 0 <= a < |at| ==> at[a] < |adds|)
    && (forall j :: 0 <= j < |adds| ==> (j in at <==> hash(adds[j].key, 239) % n == i))
  }

  ghost function PairsAt<V>(adds: seq<KeyValue<V>>, at: seq<nat>): (r: seq<KeyValue<V>>)
    requires forall a :: 0 <= a < |at| ==> at[a] < |adds|
    ensures |r| == |at| && forall a :: 0 <= a < |at| ==> r[a] == adds[at[a]]
  {
    seq(|at|, a requires 0 <= a < |at| => adds[at[a]])
  }

  lemma {:induction false} LastHashedTo<V>(hash: (Key, nat) -> nat, n: nat, adds: seq<KeyValue<V>>, i: nat,
      at: seq<nat>)
    requires n > 0 && adds != [] && HashedTo(hash, n, adds, i, at)
    ensures var m := |adds| - 1;
      if hash(adds[m].key, 239) % n == i
      then at != [] && at[|at| - 1] == m && HashedTo(hash, n, adds[..m], i, at[..|at| - 1])
      else HashedTo(hash, n, adds[..m], i, at)
  {
    var m := |adds| - 1;
    if hash(adds[m].key, 239) % n == i {
      assert m in at;
      var init := at[..|at| - 1];
      assert at == init + [m];
      forall j | 0 <= j < m ensures j in init <==> hash(adds[..m][j].key, 239) % n == i {
        assert j in init <==> j in at;
      }
    } else {
      assert forall a :: 0 <= a < |at| ==> at[a] in at;
    }
  }

  lemma PairsAtSnoc<V>(adds: seq<KeyValue<V>>, at: seq<nat>, m: nat)
    requires |adds| == m + 1 && forall a :: 0 <= a < |at| ==> at[a] < m
    ensures PairsAt(adds, at) == PairsAt(adds[..m], at)
    ensures PairsAt(adds, at + [m]) == PairsAt(adds[..m], at) + [adds[m]]
  {
  }

  /** A shard's pairs are those whose keys hash to it. */
  lemma {:induction false} RoutedIsFilter<V>(hash: (Key, nat) -> nat, n: nat, adds: seq<KeyValue<V>>, i: nat,
      at: seq<nat>)
    requires n > 0 && HashedTo(hash, n, adds, i, at)
    ensures Routed(hash, n, adds, i) == PairsAt(adds, at)
    decreases |adds|
  {
    hide PairsAt;
    if adds == [] {
      assert PairsAt(adds, at) == [];
    } else {
      var m := |adds| - 1;
      LastHashedTo(hash, n, adds, i, at);
      var init := if hash(adds[m].key, 239) % n == i then at[..|at| - 1] else at;
      assert hash(adds[m].key, 239) % n == i ==> at == init + [m];
      RoutedIsFilter(hash, n, adds[..m], i, init);
      PairsAtSnoc(adds, init, m);
    }
  }

  lemma RoutedSnoc<V>(hash: (Key, nat) -> nat, n: nat, adds: seq<KeyValue<V>>, r: KeyValue<V>, i: nat)
    requires n > 0
    ensures Routed(hash, n, adds + [r], i)
      == Routed(hash, n, adds, i) + if hash(r.key, 239) % n == i then [r] else []
  {
    assert (adds + [r])[..|adds|] == adds;
  }

  /** A shard's pairs give the values of exactly the keys that belong to it. */
  lemma {:induction false} RoutedLookup<V>(hash: (Key, nat) -> nat, n: nat, adds: seq<KeyValue<V>>, i: nat, k: Key)
    requires n > 0
    ensures Lookup(AsMap(Routed(hash, n, adds, i)), k)
      == if hash(k, 239) % n == i then Lookup(AsMap(adds), k) else None
    decreases |adds|
  {
    hide ShardIdForKey, AsMap;
    if adds == [] {
      AsMapEmpty<V>();
    } else {
      var last := adds[|adds| - 1];
      var rest := adds[..|adds| - 1];
      assert adds == rest + [last];
      RoutedLookup(hash, n, rest, i, k);
      AsMapSnoc(rest, last);
      AsMapSnoc(Routed(hash, n, rest, i), last);
      assert Routed(hash, n, rest, i) + [] == Routed(hash, n, rest, i);
    }
  }

  /** The keys that belong to the first `m` shards. */
  ghost function KeysOfShards<V>(hash: (Key, nat) -> nat, n: nat, adds: seq<KeyValue<V>>, m: nat): set<Key>
    requires n > 0
  {
    set k | k in AsMap(adds).Keys && ShardIdForKey(hash, n, k) < m
  }

  ghost function SumOfSizes(sizes: seq<nat>): nat {
    if sizes == [] then 0 else SumOfSizes(sizes[..|sizes| - 1]) + sizes[|sizes| - 1]
  }

  lemma NothingSummed()
    ensures SumOfSizes([]) == 0
  {
  }

  lemma SumNext(sizes: seq<nat>, i: nat)
    requires i < |sizes|
    ensures SumOfSizes(sizes[..i + 1]) == SumOfSizes(sizes[..i]) + sizes[i]
  {
    assert sizes[..i + 1][..i] == sizes[..i];
  }

  /** The shards together store no fewer keys than were added. */
  lemma {:induction false} ShardsCoverKeys<V>(hash: (Key, nat) -> nat, n: nat, adds: seq<KeyValue<V>>, sizes: seq<nat>)
    requires n > 0 && |sizes| <= n
    requires forall i :: 0 <= i < |sizes| ==> sizes[i] >= |AsMap(Routed(hash, n, adds, i))|
    ensures SumOfSizes(sizes) >= |KeysOfShards(hash, n, adds, |sizes|)|
    decreases |sizes|
  {
    hide AsMap, Routed, ShardIdForKey;
    if sizes == [] {
      assert KeysOfShards(hash, n, adds, 0) == {};
    } else {
      var m := |sizes| - 1;
      ShardsCoverKeys(hash, n, adds, sizes[..m]);
      var before, all := KeysOfShards(hash, n, adds, m), KeysOfShards(hash, n, adds, m + 1);
      var own := AsMap(Routed(hash, n, adds, m)).Keys;
      forall k | k in all ensures k in before + own {
        RoutedLookup(hash, n, adds, m, k);
      }
      SubsetSize(all, before + own);
      assert |before + own| <= |before| + |own|;
    }
  }

  /** The numbers of pairs that go to the shards. */
  ghost function RoutedSizes<V>(hash: (Key, nat) -> nat, n: nat, adds: seq<KeyValue<V>>): (sizes: seq<nat>)
    requires n > 0
    ensures |sizes| == n
  {
    seq(n, i requires 0 <= i < n => |Routed(hash, n, adds, i)|)
  }

  lemma {:induction false} SumOfUpdate(sizes: seq<nat>, i: nat, size: nat)
    requires i < |sizes|
    ensures SumOfSizes(sizes[i := size]) + sizes[i] == SumOfSizes(sizes) + size
    decreases |sizes|
  {
    var n := |sizes| - 1;
    if i < n {
      assert sizes[i := size][..n] == sizes[..n][i := size];
      SumOfUpdate(sizes[..n], i, size);
    } else {
      assert sizes[i := size][..n] == sizes[..n];
    }
  }

  lemma {:induction false} SumIsMonotone(a: seq<nat>, b: seq<nat>)
    requires |a| == |b| && forall i :: 0 <= i < |a| ==> a[i] <= b[i]
    ensures SumOfSizes(a) <= SumOfSizes(b)
    decreases |a|
  {
    if a != [] {
      SumIsMonotone(a[..|a| - 1], b[..|b| - 1]);
    }
  }

  lemma {:induction false} SumOfZeros(sizes: seq<nat>)
    requires forall i :: 0 <= i < |sizes| ==> sizes[i] == 0
    ensures SumOfSizes(sizes) == 0
    decreases |sizes|
  {
    if sizes != [] {
      SumOfZeros(sizes[..|sizes| - 1]);
    }
  }

  /** Every pair goes to exactly one shard. */
  lemma {:induction false} ShardsShareAdds<V>(hash: (Key, nat) -> nat, n: nat, adds: seq<KeyValue<V>>)
    requires n > 0
    ensures SumOfSizes(RoutedSizes(hash, n, adds)) == |adds|
    decreases |adds|
  {
    hide SumOfSizes, ShardIdForKey;
    if adds == [] {
      SumOfZeros(RoutedSizes(hash, n, adds));
    } else {
      var last, rest := adds[|adds| - 1], adds[..|adds| - 1];
      var before, shard := RoutedSizes(hash, n, rest), ShardIdForKey(hash, n, last.key);
      ShardsShareAdds(hash, n, rest);
      SumOfUpdate(before, shard, before[shard] + 1);
      assert RoutedSizes(hash, n, adds) == before[shard := before[shard] + 1];
    }
  }

  /** The size bound of the sharded store is never below the number of keys, and never above the number
      of pairs added, if this is so for every shard. */
  lemma {:induction false} SummedBoundIsUpper<V>(hash: (Key, nat) -> nat, n: nat, adds: seq<KeyValue<V>>,
      sizes: seq<nat>)
    requires n > 0 && |sizes| == n
    requires forall i :: 0 <= i < n ==> |AsMap(Routed(hash, n, adds, i))| <= sizes[i]
    requires forall i :: 0 <= i < n ==> sizes[i] <= |Routed(hash, n, adds, i)|
    ensures |AsMap(adds)| <= SumOfSizes(sizes) <= |adds|
  {
    hide AsMap, Routed, SumOfSizes;
    ShardsShareAdds(hash, n, adds);
    SumIsMonotone(sizes, RoutedSizes(hash, n, adds));
    ShardsCoverKeys(hash, n, adds, sizes);
    assert KeysOfShards(hash, n, adds, n) == AsMap(adds).Keys;
    assert |AsMap(adds)| == |AsMap(adds).Keys|;
  }

  // ---------------------------------------------------------------- tombstones

  datatype Op<V> = AddOp(key: Key, value: V) | RemoveOp(key: Key)

  /** The plain map that the operations stand for. */
  ghost function Applied<V>(ops: seq<Op<V>>): map<Key, V> {
    if ops == [] then map[]
    else
      var m := Applied(ops[..|ops| - 1]);
      match ops[|ops| - 1]
      case AddOp(k, v) => m[k := v]
      case RemoveOp(k) => m - {k}
  }

  lemma {:induction false} AfterLastOperation<V>(ops: seq<Op<V>>, i: nat)
    requires i < |ops| && forall j :: i < j < |ops| ==> ops[j].key != ops[i].key
    ensures Lookup(Applied(ops), ops[i].key) == if ops[i].AddOp? then Some(ops[i].value) else None
    decreases |ops|
  {
    if i < |ops| - 1 {
      AfterLastOperation(ops[..|ops| - 1], i);
    }
  }

  lemma {:induction false} NoOperation<V>(ops: seq<Op<V>>, k: Key)
    requires forall i :: 0 <= i < |ops| ==> ops[i].key != k
    ensures k !in Applied(ops)
    decreases |ops|
  {
    if ops != [] {
      NoOperation(ops[..|ops| - 1], k);
    }
  }

  /** The plain map has what the last operation on a key left there: the value of an add, nothing after
      a removal. */
  lemma {:induction false} LastOperationWins<V>(ops: seq<Op<V>>, k: Key)
    ensures forall i :: 0 <= i < |ops| && ops[i].key == k && (forall j :: i < j < |ops| ==> ops[j].key != k) ==>
      Lookup(Applied(ops), k) == if ops[i].AddOp? then Some(ops[i].value) else None
  {
    hide Applied;
    forall i | 0 <= i < |ops| && ops[i].key == k && (forall j :: i < j < |ops| ==> ops[j].key != k)
      ensures Lookup(Applied(ops), k) == if ops[i].AddOp? then Some(ops[i].value) else None
    {
      AfterLastOperation(ops, i);
    }
  }

  /** ... and nothing if there was no operation on the key. */
  lemma {:induction false} UntouchedKey<V>(ops: seq<Op<V>>, k: Key)
    ensures (forall i :: 0 <= i < |ops| ==> ops[i].key != k) ==> Lookup(Applied(ops), k) == None
  {
    hide Applied;
    if forall i :: 0 <= i < |ops| ==> ops[i].key != k {
      NoOperation(ops, k);
    }
  }

  /** What is stored for an operation. A removal stores a default value. */
  function Entry<V>(op: Op<V>, default: V): KeyValue<MaybeRemoved<V>> {
    match op
    case AddOp(k, v) => KeyValue(k, MaybeRemoved(v, false))
    case RemoveOp(k) => KeyValue(k, MaybeRemoved(default, true))
  }

  ghost function Entries<V>(ops: seq<Op<V>>, default: V): (r: seq<KeyValue<MaybeRemoved<V>>>)
    ensures |r| == |ops|
  {
    seq(|ops|, i requires 0 <= i < |ops| => Entry(ops[i], default))
  }

  function Live<V>(o: Option<MaybeRemoved<V>>): Option<V> {
    match o
    case None => None
    case Some(m) => if m.removed then None else Some(m.value)
  }

  lemma EntriesSnoc<V>(ops: seq<Op<V>>, op: Op<V>, default: V)
    ensures Entries(ops + [op], default) == Entries(ops, default) + [Entry(op, default)]
  {
  }

  /** Reading through tombstones is reading the plain map. */
  lemma {:induction false} TombstonesHide<V>(ops: seq<Op<V>>, default: V, k: Key)
    ensures Live(Lookup(AsMap(Entries(ops, default)), k)) == Lookup(Applied(ops), k)
    decreases |ops|
  {
    hide Entries, AsMap;
    if ops == [] {
      assert Entries(ops, default) == [];
      AsMapEmpty<MaybeRemoved<V>>();
    } else {
      var n := |ops| - 1;
      TombstonesHide(ops[..n], default, k);
      assert ops == ops[..n] + [ops[n]];
      EntriesSnoc(ops[..n], ops[n], default);
      AsMapSnoc(Entries(ops[..n], default), Entry(ops[n], default));
    }
  }

  /** There are no more live keys than stored ones. */
  lemma {:induction false} LiveKeysAreStored<V>(ops: seq<Op<V>>, default: V)
    ensures |Applied(ops)| <= |AsMap(Entries(ops, default))|
  {
    hide Entries, AsMap, Applied;
    var stored := AsMap(Entries(ops, default));
    forall k | k in Applied(ops) ensures k in stored {
      TombstonesHide(ops, default, k);
    }
    SubmapSize(Applied(ops), stored);
  }

  // ---------------------------------------------------------------- the objects

  /** The objects that the shards consist of. */
  ghost function PartsOf<V>(storages: seq<Supermap<V>>): set<object>
    reads storages
  {
    set i, o | 0 <= i < |storages| && o in storages[i].Repr :: o
  }

  lemma PartsOfEach<V>(storages: seq<Supermap<V>>)
    ensures forall i :: 0 <= i < |storages| ==> storages[i].Repr <= PartsOf(storages)
  {
  }

  lemma PartOfSome<V>(storages: seq<Supermap<V>>)
    ensures forall o :: o in PartsOf(storages) ==> exists i :: 0 <= i < |storages| && o in storages[i].Repr
  {
  }

  lemma PartsOfSnoc<V>(storages: seq<Supermap<V>>, storage: Supermap<V>)
    ensures PartsOf(storages + [storage]) == PartsOf(storages) + storage.Repr
  {
    var all := storages + [storage];
    PartsOfEach(storages);
    PartOfSome(storages);
    PartOfSome(all);
    forall o ensures o in PartsOf(all) <==> o in PartsOf(storages) || o in storage.Repr {
      if o in PartsOf(storages) {
        var i :| 0 <= i < |storages| && o in storages[i].Repr;
        assert o in all[i].Repr;
      }
      if o in storage.Repr {
        assert o in all[|storages|].Repr;
      }
    }
  }

  class KeyHashingShardedKVS<V> {
    const nestedStorages: seq<Supermap<V>>
    const hash: (Key, nat) -> nat
    ghost var Repr: set<object>
    /** All pairs ever added. */
    ghost var history: seq<KeyValue<V>>

    ghost predicate Valid()
      reads this, Repr
    {
      && this in Repr && nestedStorages != []
      && (forall i :: 0 <= i < |nestedStorages| ==>
        nestedStorages[i] in Repr && nestedStorages[i] in nestedStorages[i].Repr
        && nestedStorages[i].Repr <= Repr && this !in nestedStorages[i].Repr)
      && (forall i, j :: 0 <= i < j < |nestedStorages| ==> nestedStorages[i].Repr !! nestedStorages[j].Repr)
      && (forall i :: 0 <= i < |nestedStorages| ==> nestedStorages[i].Valid())
      && (forall i :: 0 <= i < |nestedStorages| ==>
        nestedStorages[i].history == Routed(hash, |nestedStorages|, history, i))
    }

    /** The size bounds of the shards. */
    ghost function Bounds(): (b: seq<nat>)
      requires Valid()
      reads this, Repr
      ensures |b| == |nestedStorages|
    {
      seq(|nestedStorages|, i requires 0 <= i < |nestedStorages| && Valid() reads this, Repr =>
        UpperSizeBound(nestedStorages[i].State()))
    }

    constructor (nestedStorages: seq<Supermap<V>>, hash: (Key, nat) -> nat)
      requires nestedStorages != []
      requires forall i :: 0 <= i < |nestedStorages| ==>
        nestedStorages[i].Valid() && nestedStorages[i] in nestedStorages[i].Repr && nestedStorages[i].history == []
      requires forall i, j :: 0 <= i < j < |nestedStorages| ==> nestedStorages[i].Repr !! nestedStorages[j].Repr
      ensures Valid() && history == []
      ensures this.nestedStorages == nestedStorages && this.hash == hash
      ensures Repr == {this} + PartsOf(nestedStorages)
    {
      hide AsMap, ShardIdForKey, Supermap.Valid, PartsOf;
      PartsOfEach(nestedStorages);
      this.nestedStorages := nestedStorages;
      this.hash := hash;
      history := [];
      Repr := {this} + PartsOf(nestedStorages);
    }

    method Add(key: Key, value: V)
      requires Valid()
      modifies Repr
      ensures Valid() && fresh(Repr - old(Repr)) && old(Repr) <= Repr
      ensures history == old(history) + [KeyValue(key, value)]
      ensures forall i | 0 <= i < |nestedStorages| ::
        var own := if i == hash(key, 239) % |nestedStorages| then [KeyValue(key, value)] else [];
        nestedStorages[i].history == old(nestedStorages[i].history) + own
    {
      hide ShardIdForKey, AsMap, Routed, Supermap.Valid;
      var n := |nestedStorages|;
      var shard := ShardIdForKey(hash, n, key);
      forall i ensures Routed(hash, n, history + [KeyValue(key, value)], i)
        == Routed(hash, n, history, i) + if shard == i then [KeyValue(key, value)] else []
      {
        RoutedSnoc(hash, n, history, KeyValue(key, value), i);
      }
      nestedStorages[shard].Add(key, value);
      Repr := Repr + nestedStorages[shard].Repr;
      history := history + [KeyValue(key, value)];
    }

    method GetValue(key: Key) returns (r: Option<V>)
      requires Valid()
      ensures r == Lookup(AsMap(history), key)
      ensures forall i | 0 <= i < |history| && history[i].key == key
          && (forall j :: i < j < |history| ==> history[j].key != key) :: r == Some(history[i].value)
      ensures (forall i :: 0 <= i < |history| ==> history[i].key != key) ==> r == None
    {
      hide AsMap, Routed, Lookup, Supermap.Valid;
      LookupIsLast(history, key);
      var shard := ShardIdForKey(hash, |nestedStorages|, key);
      RoutedLookup(hash, |nestedStorages|, history, shard, key);
      ghost var recordReads;
      r, recordReads := nestedStorages[shard].GetValue(key);
    }

    /** The sum of the bounds of the shards: never below the number of keys ever added, and never above
        the number of adds. */
    method GetUpperSizeBound() returns (size: nat)
      requires Valid()
      ensures size == SumOfSizes(Bounds()) && |AsMap(history)| <= size <= |history|
    {
      hide AsMap, Routed, SumOfSizes, Supermap.Valid;
      size := 0;
      ghost var sizes := Bounds();
      NothingSummed();
      for i := 0 to |nestedStorages|
        invariant size == SumOfSizes(sizes[..i])
        invariant forall j :: 0 <= j < i ==>
          var routed := Routed(hash, |nestedStorages|, history, j);
          |AsMap(routed)| <= sizes[j] <= |routed|
      {
        var bound := nestedStorages[i].GetUpperSizeBound();
        size := size + bound;
        SumNext(sizes, i);
      }
      assert sizes[..|nestedStorages|] == sizes;
      SummedBoundIsUpper(hash, |nestedStorages|, history, sizes);
    }
  }

  class DefaultRemovableKvs<V> {
    const storageOfMaybeRemoved: KeyHashingShardedKVS<MaybeRemoved<V>>
    const default: V
    ghost var Repr: set<object>
    /** All operations so far. */
    ghost var ops: seq<Op<V>>

    ghost predicate Valid()
      reads this, Repr
    {
      && this in Repr && storageOfMaybeRemoved in Repr && storageOfMaybeRemoved.Repr <= Repr
      && this !in storageOfMaybeRemoved.Repr
      && storageOfMaybeRemoved.Valid()
      && storageOfMaybeRemoved.history == Entries(ops, default)
    }

    constructor (innerStorage: KeyHashingShardedKVS<MaybeRemoved<V>>, default: V)
      requires innerStorage.Valid() && innerStorage.history == []
      ensures Valid() && ops == []
      ensures storageOfMaybeRemoved == innerStorage && this.default == default && Repr == {this} + innerStorage.Repr
    {
      storageOfMaybeRemoved := innerStorage;
      this.default := default;
      ops := [];
      Repr := {this} + innerStorage.Repr;
    }

    method Add(key: Key, value: V)
      requires Valid()
      modifies Repr
      ensures Valid() && fresh(Repr - old(Repr)) && old(Repr) <= Repr
      ensures ops == old(ops) + [AddOp(key, value)]
    {
      hide AsMap, Entries, Routed, KeyHashingShardedKVS.Valid;
      EntriesSnoc(ops, AddOp(key, value), default);
      storageOfMaybeRemoved.Add(key, MaybeRemoved(value, false));
      Repr := Repr + storageOfMaybeRemoved.Repr;
      ops := ops + [AddOp(key, value)];
    }

    method Remove(key: Key)
      requires Valid()
      modifies Repr
      ensures Valid() && fresh(Repr - old(Repr)) && old(Repr) <= Repr
      ensures ops == old(ops) + [RemoveOp(key)]
    {
      hide AsMap, Entries, Routed, KeyHashingShardedKVS.Valid;
      EntriesSnoc(ops, RemoveOp(key), default);
      storageOfMaybeRemoved.Add(key, MaybeRemoved(default, true));
      Repr := Repr + storageOfMaybeRemoved.Repr;
      ops := ops + [RemoveOp(key)];
    }

    /** The value of the key in the plain map of all operations. */
    method GetValue(key: Key) returns (r: Option<V>)
      requires Valid()
      ensures r == Lookup(Applied(ops), key)
      ensures forall i :: 0 <= i < |ops| && ops[i].key == key && (forall j :: i < j < |ops| ==> ops[j].key != key) ==>
        r == if ops[i].AddOp? then Some(ops[i].value) else None
      ensures (forall i :: 0 <= i < |ops| ==> ops[i].key != key) ==> r == None
    {
      hide AsMap, Applied, Entries, Lookup, KeyHashingShardedKVS.Valid;
      LastOperationWins(ops, key);
      UntouchedKey(ops, key);
      TombstonesHide(ops, default, key);
      var optMaybeRemoved := storageOfMaybeRemoved.GetValue(key);
      if optMaybeRemoved.None? {
        return None;
      }
      var maybeInnerValue := optMaybeRemoved.value;
      if maybeInnerValue.removed {
        return None;
      }
      return Some(maybeInnerValue.value);
    }

    /** Never below the number of live keys, and never above the number of operations. */
    method GetUpperSizeBound() returns (size: nat)
      requires Valid()
      ensures size == SumOfSizes(storageOfMaybeRemoved.Bounds()) && |Applied(ops)| <= size <= |ops|
    {
      LiveKeysAreStored(ops, default);
      size := storageOfMaybeRemoved.GetUpperSizeBound();
    }
  }

  // ---------------------------------------------------------------- whole runs, as values

  /** The shards after a run: each one ran the pairs routed to it. */
  ghost function ShardRuns<V>(c: Config, hash: (Key, nat) -> nat, n: nat, adds: seq<KeyValue<V>>): (s: seq<State<V>>)
    requires c.Valid() && n > 0
    ensures |s| == n
    decreases |adds|
  {
    if adds == [] then seq(n, _ => Empty())
    else
      var last := adds[|adds| - 1];
      var before := ShardRuns(c, hash, n, adds[..|adds| - 1]);
      var i := ShardIdForKey(hash, n, last.key);
      before[i := SupermapModel.Add(c, before[i], last.key, last.value)]
  }

  lemma {:induction false} ShardsRunSeparately<V>(c: Config, hash: (Key, nat) -> nat, n: nat, adds: seq<KeyValue<V>>,
      i: nat)
    requires c.Valid() && i < n
    ensures ShardRuns(c, hash, n, adds)[i] == Run(c, Routed(hash, n, adds, i))
    decreases |adds|
  {
    hide SupermapModel.Add, ShardIdForKey;
    if adds != [] {
      var last := adds[|adds| - 1];
      var rest := adds[..|adds| - 1];
      ShardsRunSeparately(c, hash, n, rest, i);
      if ShardIdForKey(hash, n, last.key) == i {
        RunSnoc(c, Routed(hash, n, rest, i), last.key, last.value);
      } else {
        assert Routed(hash, n, adds, i) == Routed(hash, n, rest, i);
      }
    }
  }

  /** The full stack: tombstones over sharded stores behave as a plain map with add, remove and get,
      for every run, hash function and number of shards. */
  lemma {:induction false} StackRefinesMap<V>(
      c: Config, hash: (Key, nat) -> nat, n: nat, ops: seq<Op<V>>, default: V, k: Key)
    requires c.Valid() && n > 0
    ensures var shard := ShardRuns(c, hash, n, Entries(ops, default))[hash(k, 239) % n];
      && (FindIndex(shard, k).Some? ==> 0 <= FindIndex(shard, k).value < |shard.Log()|)
      && var r := Live(GetValue(shard, k));
      && r == Lookup(Applied(ops), k)
      && (forall i :: 0 <= i < |ops| && ops[i].key == k && (forall j :: i < j < |ops| ==> ops[j].key != k) ==>
          r == if ops[i].AddOp? then Some(ops[i].value) else None)
      && ((forall i :: 0 <= i < |ops| ==> ops[i].key != k) ==> r == None)
  {
    var entries, i := Entries(ops, default), ShardIdForKey(hash, n, k);
    ShardsRunSeparately(c, hash, n, entries, i);
    RunReads(c, Routed(hash, n, entries, i), k);
    RoutedLookup(hash, n, entries, i, k);
    TombstonesHide(ops, default, k);
    LastOperationWins(ops, k);
    UntouchedKey(ops, k);
  }
}
