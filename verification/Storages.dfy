/** Append-only record storages and the registers that count and filter what is stored. */
module Storages {
  import opened Records
  import opened BloomFilters

  ghost function KeysOf<V>(s: seq<KeyValue<V>>): (r: seq<Key>)
    ensures |r| == |s| && forall i :: 0 <= i < |s| ==> r[i] == s[i].key
  {
    seq(|s|, i requires 0 <= i < |s| => s[i].key)
  }

  lemma KeysOfSnoc<V>(s: seq<KeyValue<V>>, r: KeyValue<V>)
    ensures KeysOf(s + [r]) == KeysOf(s) + [r.key]
  {
  }

  /** What a counting register passes its items on to: nothing, or a filter. */
  datatype InnerRegister = VoidRegister | FilteringRegister(filter: BloomFilter) {

    ghost function Filters(): set<object> {
      if VoidRegister? then {} else {filter}
    }

    /** Items can be registered without `IllegalStateException`. */
    ghost predicate CanRegister()
      reads Filters()
    {
      FilteringRegister? ==> filter.elements != []
    }

    /** The filter is what adding exactly these keys to a cleared filter gives. */
    ghost predicate Holds(keys: seq<Key>)
      reads Filters()
    {
      FilteringRegister? ==>
        && (filter.elements == [] ==> keys == [])
        && filter.elements == Filled(filter.params, |filter.elements|, keys)
    }

    /** No item was registered and no space was reserved. */
    ghost predicate Unused()
      reads Filters()
    {
      FilteringRegister? ==> filter.elements == [] && !filter.wasReserved
    }

    /** Space was reserved for `n` items. */
    ghost predicate Sized(n: nat)
      reads Filters()
    {
      FilteringRegister? ==> filter.wasReserved && |filter.elements| == Ceil(n as real * filter.sizeMultiplier)
    }

    /** The register is of the supplier's kind, with its parameters. */
    ghost predicate MadeBy(supplier: RegisterSupplier) {
      && VoidRegister? == supplier.VoidSupplier?
      && (FilteringRegister? ==>
        && filter.params.hash == supplier.hash && |filter.params.seeds| == supplier.seedsCount
        && filter.sizeMultiplier == supplier.sizeMultiplier)
    }

    method RegisterItem(key: Key, ghost keys: seq<Key>)
      requires CanRegister() && Holds(keys)
      modifies Filters()
      ensures CanRegister() && Holds(keys + [key])
      ensures forall n :: old(Sized(n)) ==> Sized(n)
    {
      if FilteringRegister? {
        var o := filter.Add(key);
        assert o == Done;
        FilledSnoc(filter.params, |filter.elements|, keys, key);
      }
    }

    method Reserve(n: nat)
      requires Unused()
      modifies Filters()
      ensures Holds([]) && Sized(n)
      ensures n > 0 ==> CanRegister()
      ensures FilteringRegister? ==>
        filter.wasReserved && |filter.elements| == Ceil(n as real * filter.sizeMultiplier)
    {
      if FilteringRegister? {
        var o := filter.Reserve(n);
        assert o == Done;
      }
    }

    method Clone() returns (c: InnerRegister)
      ensures c.VoidRegister? == VoidRegister? && fresh(c.Filters())
      ensures c.CanRegister() == CanRegister()
      ensures forall keys :: Holds(keys) ==> c.Holds(keys)
      ensures forall n :: Sized(n) ==> c.Sized(n)
      ensures FilteringRegister? ==>
        && c.filter.elements == filter.elements && c.filter.wasReserved == filter.wasReserved
        && c.filter.params == filter.params && c.filter.sizeMultiplier == filter.sizeMultiplier
    {
      if VoidRegister? {
        return VoidRegister;
      }
      var copy := new BloomFilter.CopyOf(filter);
      return FilteringRegister(copy);
    }
  }

  datatype CountingRegister = CountingRegister(count: nat, inner: InnerRegister)

  /** Creates the inner register of a new storage. The seeds of a filter are arbitrary. */
  datatype RegisterSupplier =
    | VoidSupplier
    | FilterSupplier(hash: (Key, nat) -> nat, seedsCount: nat, sizeMultiplier: Multiplier)
  {
    method Supply() returns (r: InnerRegister)
      ensures r.VoidRegister? == VoidSupplier? && fresh(r.Filters()) && r.Unused() && r.MadeBy(this)
      ensures FilterSupplier? ==>
        && r.filter.params.hash == hash && |r.filter.params.seeds| == seedsCount
        && r.filter.sizeMultiplier == sizeMultiplier
    {
      if VoidSupplier? {
        return VoidRegister;
      }
      assert |seq(seedsCount, _ => 0 as nat)| == seedsCount;
      var seeds: seq<nat> :| |seeds| == seedsCount;
      var filter := new BloomFilter(Params(hash, seeds), sizeMultiplier);
      return FilteringRegister(filter);
    }
  }

  class SingleFileIndexedStorage<V> {
    /** The contents of the storage file. */
    var items: seq<KeyValue<V>>
    var register: CountingRegister

    ghost predicate Valid()
      reads this, register.inner.Filters()
    {
      register.count == |items| && register.inner.Holds(KeysOf(items))
    }

    ghost predicate CanAppend()
      reads this, register.inner.Filters()
    {
      register.inner.CanRegister()
    }

    /** Space was reserved for `n` items. */
    ghost predicate ReservedFor(n: nat)
      reads this, register.inner.Filters()
    {
      register.inner.Sized(n)
    }

    /** What a reservation for `n` items amounts to: at least one bit for every item. */
    lemma SpaceFor(n: nat, supplier: RegisterSupplier)
      requires register.inner.MadeBy(supplier) && ReservedFor(n) && supplier.FilterSupplier?
      ensures register.inner.FilteringRegister?
      ensures var bits := |register.inner.filter.elements|;
        bits >= n && bits as real - 1.0 < n as real * supplier.sizeMultiplier <= bits as real
    {
      CeilOfProduct(n, supplier.sizeMultiplier);
    }

    ghost function Footprint(): set<object>
      reads this
    {
      {this} + register.inner.Filters()
    }

    constructor (supplier: RegisterSupplier)
      ensures items == [] && fresh(Footprint())
      ensures register.count == 0 && register.inner.Unused()
      ensures register.inner.MadeBy(supplier)
    {
      var inner := supplier.Supply();
      items := [];
      register := CountingRegister(0, inner);
    }

    /** The copy constructor: shares the file, clones the register. */
    constructor CopyOf(other: SingleFileIndexedStorage<V>)
      requires other.Valid()
      ensures items == other.items && fresh(Footprint()) && Valid()
      ensures register.inner.VoidRegister? == other.register.inner.VoidRegister?
      ensures forall n :: other.ReservedFor(n) ==> ReservedFor(n)
    {
      var inner := other.register.inner.Clone();
      items := other.items;
      register := CountingRegister(other.register.count, inner);
    }

    method Reserve(n: nat)
      requires items == [] && register.count == 0 && register.inner.Unused()
      modifies register.inner.Filters()
      ensures Valid() && ReservedFor(n)
      ensures n > 0 ==> CanAppend()
    {
      register.inner.Reserve(n);
      assert KeysOf(items) == [];
    }

    function GetItemsCount(): nat
      reads this
    {
      register.count
    }

    function Get(index: nat): KeyValue<V>
      requires register.count == |items|
      requires index < GetItemsCount()
      reads this
    {
      items[index]
    }

    method Append(item: KeyValue<V>)
      requires Valid() && CanAppend()
      modifies Footprint()
      ensures Valid() && CanAppend() && register.inner == old(register.inner)
      ensures items == old(items) + [item]
      ensures forall n :: old(ReservedFor(n)) ==> ReservedFor(n)
    {
      KeysOfSnoc(items, item);
      items := items + [item];
      register := register.(count := register.count + 1);
      register.inner.RegisterItem(item.key, old(KeysOf(items)));
    }

    method AppendAll(newItems: seq<KeyValue<V>>)
      requires Valid()
      requires newItems != [] ==> CanAppend()
      modifies Footprint()
      ensures Valid() && register.inner == old(register.inner)
      ensures old(CanAppend()) ==> CanAppend()
      ensures items == old(items) + newItems
      ensures forall n :: old(ReservedFor(n)) ==> ReservedFor(n)
    {
      assert items + newItems[..0] == items;
      for i := 0 to |newItems|
        invariant register.inner == old(register.inner) && items == old(items)
        invariant register.count == |items| + i
        invariant newItems != [] || old(CanAppend()) ==> CanAppend()
        invariant forall n :: old(ReservedFor(n)) ==> ReservedFor(n)
        invariant register.inner.Holds(KeysOf(items + newItems[..i]))
      {
        assert items + newItems[..i + 1] == (items + newItems[..i]) + [newItems[i]];
        KeysOfSnoc(items + newItems[..i], newItems[i]);
        register := register.(count := register.count + 1);
        register.inner.RegisterItem(newItems[i].key, KeysOf(items + newItems[..i]));
      }
      assert newItems[..|newItems|] == newItems;
      items := items + newItems;
    }

    /** Takes over the register of `other` and swaps the file contents with it. */
    method ResetWith(other: SingleFileIndexedStorage<V>)
      requires other != this && other.Valid()
      modifies this, other
      ensures items == old(other.items) && register == old(other.register)
      ensures other.items == old(items)
      ensures Valid() && forall n :: old(other.ReservedFor(n)) ==> ReservedFor(n)
    {
      register := other.register;
      items, other.items := other.items, items;
    }
  }

  /** Objects that one chunk holds when `available` are left. A limit of 0 means no limit. */
  function ChunkSize(available: nat, limit: nat): nat {
    if limit == 0 then available else if available < limit then available else limit
  }

  /** Reads the objects of a storage file in order, chunk by chunk. */
  class InputIterator<V> {
    const items: seq<KeyValue<V>>
    var index: nat

    constructor (storage: SingleFileIndexedStorage<V>)
      ensures items == storage.items && index == 0
    {
      items := storage.items;
      index := 0;
    }

    /** Applies `functor` to the next objects and their indices. */
    method CollectWith<R>(functor: (KeyValue<V>, nat) -> R, limit: nat) returns (collection: seq<R>)
      requires index <= |items|
      modifies this
      ensures index == old(index) + ChunkSize(|items| - old(index), limit) <= |items|
      ensures limit == 0 ==> index == |items|
      ensures limit > 0 ==> index - old(index) <= limit && (index - old(index) < limit ==> index == |items|)
      ensures |collection| == index - old(index)
      ensures forall j :: 0 <= j < |collection| ==> collection[j] == functor(items[old(index) + j], old(index) + j)
    {
      var objectsToRead := ChunkSize(|items| - index, limit);
      collection := [];
      for objectI := 0 to objectsToRead
        invariant index == old(index) + objectI && |collection| == objectI
        invariant forall j :: 0 <= j < objectI ==> collection[j] == functor(items[old(index) + j], old(index) + j)
      {
        collection := collection + [functor(items[index], index)];
        index := index + 1;
      }
    }

    /** Reads the next objects. Only at the end there are none. */
    method Collect(limit: nat) returns (collection: seq<KeyValue<V>>)
      requires index <= |items|
      modifies this
      ensures index == old(index) + ChunkSize(|items| - old(index), limit) <= |items|
      ensures limit == 0 ==> index == |items|
      ensures limit > 0 ==> index - old(index) <= limit && (index - old(index) < limit ==> index == |items|)
      ensures collection == items[old(index)..index]
      ensures collection == [] ==> index == |items|
    {
      collection := CollectWith((item, _) => item, limit);
    }
  }
}
