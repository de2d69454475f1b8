/** Building the stack of stores, and using it. */
module Builders {
  import opened Records
  import opened Storages
  import opened SupermapModel
  import opened Supermap
  import opened Sharding

  /** Objects that were just built: empty, valid, and sharing no parts. */
  ghost predicate NewShards<V>(storages: seq<Supermap<V>>, config: Config)
    reads storages, PartsOf(storages)
  {
    && (forall i :: 0 <= i < |storages| ==>
      && storages[i] in storages[i].Repr && storages[i].Valid()
      && storages[i].config == config && storages[i].history == [])
    && (forall i, j :: 0 <= i < j < |storages| ==> storages[i].Repr !! storages[j].Repr)
  }

  /** Builds one store for every shard. */
  method BuildShards<V>(nShards: nat, config: Config, supplier: RegisterSupplier)
    returns (storages: seq<Supermap<V>>)
    requires config.Valid() && supplier.FilterSupplier?
    ensures |storages| == nShards && NewShards(storages, config)
    ensures fresh(PartsOf(storages))
  {
    hide Supermap.Valid, PartsOf;
    storages := [];
    PartOfSome(storages);
    for shard := 0 to nShards
      invariant |storages| == shard && NewShards(storages, config)
      invariant fresh(PartsOf(storages))
    {
      var storage := new Supermap<V>(config, supplier);
      PartsOfSnoc(storages, storage);
      storages := storages + [storage];
    }
  }

  /** The sharded store. There must be a shard. */
  method BuildSharded<V>(nShards: nat, hash: (Key, nat) -> nat, config: Config, supplier: RegisterSupplier)
    returns (kvs: KeyHashingShardedKVS<V>)
    requires nShards > 0 && config.Valid() && supplier.FilterSupplier?
    ensures kvs.Valid() && fresh(kvs.Repr) && kvs.history == []
    ensures |kvs.nestedStorages| == nShards && kvs.hash == hash
    ensures NewShards(kvs.nestedStorages, config)
  {
    hide Supermap.Valid, KeyHashingShardedKVS.Valid;
    var storages := BuildShards<V>(nShards, config, supplier);
    kvs := new KeyHashingShardedKVS(storages, hash);
  }

  /** The sharded store with removal on top. */
  method BuildRemovable<V>(nShards: nat, hash: (Key, nat) -> nat, config: Config, supplier: RegisterSupplier,
                           default: V)
    returns (kvs: DefaultRemovableKvs<V>)
    requires nShards > 0 && config.Valid() && supplier.FilterSupplier?
    ensures kvs.Valid() && fresh(kvs.Repr) && kvs.ops == [] && kvs.default == default
  {
    hide KeyHashingShardedKVS.Valid;
    var sharded := BuildSharded<MaybeRemoved<V>>(nShards, hash, config, supplier);
    kvs := new DefaultRemovableKvs(sharded, default);
  }

  /** Builds a stack, applies operations to it and reads a key: what is read is what a plain map
      would say after the same operations, and the size bound lies between the size of that map and
      the number of operations. */
  method Replay<V>(nShards: nat, hash: (Key, nat) -> nat, config: Config, supplier: RegisterSupplier,
                   default: V, ops: seq<Op<V>>, k: Key)
    returns (r: Option<V>, size: nat)
    requires nShards > 0 && config.Valid() && supplier.FilterSupplier?
    ensures r == Lookup(Applied(ops), k)
    ensures forall i :: 0 <= i < |ops| && ops[i].key == k && (forall j :: i < j < |ops| ==> ops[j].key != k) ==>
      r == if ops[i].AddOp? then Some(ops[i].value) else None
    ensures (forall i :: 0 <= i < |ops| ==> ops[i].key != k) ==> r == None
    ensures |Applied(ops)| <= size <= |ops|
  {
    hide DefaultRemovableKvs.Valid, Applied;
    var kvs := BuildRemovable(nShards, hash, config, supplier, default);
    for i := 0 to |ops|
      invariant kvs.Valid() && fresh(kvs.Repr) && kvs.ops == ops[..i]
    {
      if ops[i].AddOp? {
        kvs.Add(ops[i].key, ops[i].value);
      } else {
        kvs.Remove(ops[i].key);
      }
    }
    assert ops[..|ops|] == ops;
    r := kvs.GetValue(k);
    size := kvs.GetUpperSizeBound();
  }
}
