/** Files of records as bytes: writing at the end, reading at an offset, and reading in chunks.
    A storage of module `Storages` with the bytes of its file stays one in every operation. */
module RecordFiles {
  import opened Records
  import opened Ranks
  import opened Codecs
  import opened Storages

  /** Reads consecutive records from the bytes of a file. */
  class ByteIterator<V(!new)> {
    const layout: Layout<V>
    const bytes: seq<Byte>
    /** The read position of the stream. */
    var position: nat
    /** The number of records read. */
    var index_: nat

    constructor (layout: Layout<V>, bytes: seq<Byte>, offset: nat)
      requires offset <= |bytes|
      ensures this.layout == layout && this.bytes == bytes && position == offset && index_ == 0
    {
      this.layout := layout;
      this.bytes := bytes;
      position := offset;
      index_ := 0;
    }

    /** The stream stands before record `first + index_` of `rs`. */
    ghost predicate At(rs: seq<KeyValue<V>>, first: nat)
      reads this
    {
      && layout.Valid() && layout.AllFit(rs) && bytes == layout.SerializeAll(rs)
      && first + index_ <= |rs| && position == (first + index_) * layout.EachSize()
    }

    method HasNext(ghost rs: seq<KeyValue<V>>, ghost first: nat) returns (b: bool)
      requires At(rs, first)
      ensures b <==> first + index_ < |rs|
    {
      layout.SerializedSize(rs);
      RecordsLeft(|rs|, first + index_, layout.EachSize());
      b := |bytes| - position >= layout.EachSize();
    }

    method Next(ghost rs: seq<KeyValue<V>>, ghost first: nat) returns (r: KeyValue<V>)
      requires At(rs, first) && first + index_ < |rs|
      modifies this
      ensures At(rs, first) && index_ == old(index_) + 1
      ensures r == rs[first + old(index_)]
    {
      RecordBytes(rs, first + index_);
      r := layout.Deserialize(bytes[position..position + layout.EachSize()]);
      position := position + layout.EachSize();
      index_ := index_ + 1;
    }

    /** The bytes of record `i`. */
    lemma RecordBytes(rs: seq<KeyValue<V>>, i: nat)
      requires layout.Valid() && layout.AllFit(rs) && bytes == layout.SerializeAll(rs) && i < |rs|
      ensures layout.RecordAt(bytes, i * layout.EachSize(), rs[i])
      ensures (i + 1) * layout.EachSize() == i * layout.EachSize() + layout.EachSize()
    {
      hide Layout.Valid, Layout.EachSize, Layout.Serialize, Layout.SerializeAll, Layout.Fits, Layout.RecordAt,
           Layout.Deserialize, Layout.DeserializeKey;
      var at := i * layout.EachSize();
      SumTimes(i, 1, layout.EachSize());
      layout.SerializedSlice(rs, i, i + 1);
      assert rs[i..i + 1] == [rs[i]];
      layout.SerializeSingle(rs[i]);
      layout.RecordOfSlice(bytes, at, rs[i]);
    }

    /** The bytes of the record `i` places behind record `start`. */
    lemma RecordInChunk(rs: seq<KeyValue<V>>, start: nat, i: nat)
      requires layout.Valid() && layout.AllFit(rs) && bytes == layout.SerializeAll(rs) && start + i < |rs|
      ensures layout.RecordAt(bytes, start * layout.EachSize() + i * layout.EachSize(), rs[start + i])
    {
      hide Layout.RecordAt, Layout.SerializeAll, Layout.AllFit;
      RecordBytes(rs, start + i);
      SumTimes(start, i, layout.EachSize());
    }

    /** Reads a chunk of bytes at once and decodes it record by record. */
    method CollectWith<R>(functor: (KeyValue<V>, nat) -> R, limit: nat, ghost rs: seq<KeyValue<V>>, ghost first: nat)
      returns (collection: seq<R>)
      requires At(rs, first)
      modifies this
      ensures At(rs, first)
      ensures index_ == old(index_) + ChunkSize(|rs| - (first + old(index_)), limit)
      ensures limit == 0 ==> first + index_ == |rs|
      ensures limit > 0 ==> index_ - old(index_) <= limit && (index_ - old(index_) < limit ==> first + index_ == |rs|)
      ensures |collection| == index_ - old(index_)
      ensures forall j :: 0 <= j < |collection| ==>
        collection[j] == functor(rs[first + old(index_) + j], old(index_) + j)
    {
      hide Layout.Serialize, Layout.SerializeAll, Layout.Deserialize, Layout.DeserializeKey, Layout.AllFit;
      ghost var start := first + index_;
      var eachSize, from := layout.EachSize(), position;
      layout.SerializedSize(rs);
      RecordsLeft(|rs|, start, eachSize);
      var available := |bytes| - position;
      assert available % eachSize == 0;
      var objectsInStream := available / eachSize;
      var objectsToRead := ChunkSize(objectsInStream, limit);
      position := position + objectsToRead * eachSize;
      SumTimes(start, objectsToRead, eachSize);
      collection := [];
      for objectI := 0 to objectsToRead
        invariant index_ == old(index_) + objectI && |collection| == objectI
        invariant position == (start + objectsToRead) * eachSize
        invariant forall j :: 0 <= j < objectI ==> collection[j] == functor(rs[start + j], old(index_) + j)
      {
        RecordInChunk(rs, start, objectI);
        var at := from + objectI * eachSize;
        collection := collection + [functor(layout.Deserialize(bytes[at..at + eachSize]), index_)];
        index_ := index_ + 1;
      }
    }

    /** Like `CollectWith`, but the values are skipped. */
    method CollectKeys(limit: nat, ghost rs: seq<KeyValue<V>>, ghost first: nat) returns (keys: seq<(Key, nat)>)
      requires At(rs, first)
      modifies this
      ensures At(rs, first)
      ensures index_ == old(index_) + ChunkSize(|rs| - (first + old(index_)), limit)
      ensures limit == 0 ==> first + index_ == |rs|
      ensures limit > 0 ==> index_ - old(index_) <= limit && (index_ - old(index_) < limit ==> first + index_ == |rs|)
      ensures |keys| == index_ - old(index_)
      ensures forall j :: 0 <= j < |keys| ==> keys[j] == (rs[first + old(index_) + j].key, old(index_) + j)
    {
      hide Layout.Serialize, Layout.SerializeAll, Layout.Deserialize, Layout.DeserializeKey, Layout.AllFit;
      ghost var start := first + index_;
      var eachSize, from := layout.EachSize(), position;
      layout.SerializedSize(rs);
      RecordsLeft(|rs|, start, eachSize);
      var objectsToRead := ChunkSize((|bytes| - position) / eachSize, limit);
      position := position + objectsToRead * eachSize;
      SumTimes(start, objectsToRead, eachSize);
      keys := [];
      for objectI := 0 to objectsToRead
        invariant index_ == old(index_) + objectI && |keys| == objectI
        invariant position == (start + objectsToRead) * eachSize
        invariant forall j :: 0 <= j < objectI ==> keys[j] == (rs[start + j].key, old(index_) + j)
      {
        RecordInChunk(rs, start, objectI);
        var at := from + objectI * eachSize;
        keys := keys + [(layout.DeserializeKey(bytes[at..at + eachSize]), index_)];
        index_ := index_ + 1;
      }
    }
  }

  lemma SumTimes(a: nat, b: nat, size: nat)
    ensures (a + b) * size == a * size + b * size
  {
  }

  lemma {:induction false} RecordsLeft(n: nat, i: nat, size: nat)
    requires i <= n && size > 0
    ensures n * size - i * size == (n - i) * size
    ensures (n - i) * size / size == n - i && (n - i) * size % size == 0
    ensures (n - i) * size >= size <==> i < n
  {
    assert n * size == i * size + (n - i) * size;
    MultipleDivides(n - i, size);
    if i < n {
      TimesMonotone(size, 1, n - i);
    }
  }

  lemma MultipleDivides(m: nat, size: nat)
    requires size > 0
    ensures m * size / size == m && m * size % size == 0
  {
    var q := m * size / size;
    assert m * size == size * q + m * size % size;
    if m < q {
      TimesNext(size, m, q);
    } else if q < m {
      TimesNext(size, q, m);
    }
  }

  /** A file of records. */
  class RecordFile<V(!new)> {
    const layout: Layout<V>
    var bytes: seq<Byte>

    constructor (layout: Layout<V>)
      ensures this.layout == layout && bytes == []
    {
      this.layout := layout;
      bytes := [];
    }

    /** The file consists of exactly these records. */
    ghost predicate Holds(rs: seq<KeyValue<V>>)
      reads this
    {
      layout.Valid() && layout.AllFit(rs) && bytes == layout.SerializeAll(rs)
    }

    method Append(item: KeyValue<V>, ghost rs: seq<KeyValue<V>>)
      requires Holds(rs) && layout.Fits(item)
      modifies this
      ensures Holds(rs + [item])
    {
      layout.SerializeAllConcat(rs, [item]);
      layout.SerializeSingle(item);
      bytes := bytes + layout.Serialize(item);
    }

    /** Serializes all items to a buffer and writes the buffer. */
    method AppendAll(items: seq<KeyValue<V>>, ghost rs: seq<KeyValue<V>>)
      requires Holds(rs) && layout.AllFit(items)
      modifies this
      ensures Holds(rs + items)
    {
      var stringStream: seq<Byte> := [];
      for i := 0 to |items|
        invariant stringStream == layout.SerializeAll(items[..i])
      {
        assert items[..i + 1][..i] == items[..i];
        stringStream := stringStream + layout.Serialize(items[i]);
      }
      assert items[..|items|] == items;
      layout.SerializeAllConcat(rs, items);
      bytes := bytes + stringStream;
    }

    /** Reads the record at an index by its offset. */
    method Get(index: nat, ghost rs: seq<KeyValue<V>>) returns (r: KeyValue<V>)
      requires Holds(rs) && index < |rs|
      ensures r == rs[index]
    {
      layout.SerializedSlice(rs, index, index);
      var it := new ByteIterator(layout, bytes, index * layout.EachSize());
      r := it.Next(rs, index);
    }

    /** Reads the whole file in chunks. */
    method ReadAll(limit: nat, ghost rs: seq<KeyValue<V>>) returns (all: seq<KeyValue<V>>)
      requires Holds(rs)
      ensures all == rs
    {
      var it := new ByteIterator(layout, bytes, 0);
      var chunk := it.CollectWith((r, _) => r, limit, rs, 0);
      all := [];
      ghost var done := 0;
      while chunk != []
        invariant fresh(it) && it.At(rs, 0) && it.layout == layout
        invariant done <= it.index_ && chunk == rs[done..it.index_]
        invariant chunk == [] ==> done == |rs|
        invariant all == rs[..done]
        decreases |rs| - done
      {
        all := all + chunk;
        done := it.index_;
        chunk := it.CollectWith((r, _) => r, limit, rs, 0);
      }
    }

    /** Swaps the contents of two files. */
    method SwapWith(other: RecordFile<V>)
      requires layout == other.layout
      modifies this, other
      ensures bytes == old(other.bytes) && other.bytes == old(bytes)
    {
      bytes, other.bytes := other.bytes, bytes;
    }
  }

  /** A storage with the bytes of its file: every operation does to the file what it does to the
      records of the storage, and reading the file gives the records. */
  class FileBackedStorage<V(!new)> {
    const storage: SingleFileIndexedStorage<V>
    const file: RecordFile<V>

    ghost predicate Valid()
      reads storage, storage.register.inner.Filters(), file
    {
      storage.Valid() && file.Holds(storage.items)
    }

    ghost predicate CanAppend()
      reads storage, storage.register.inner.Filters()
    {
      storage.CanAppend()
    }

    constructor (layout: Layout<V>, supplier: RegisterSupplier)
      requires layout.Valid()
      ensures Valid() && storage.items == [] && file.layout == layout
      ensures fresh(storage.Footprint()) && fresh(file)
      ensures storage.register.inner.Unused()
      ensures supplier.VoidSupplier? ==> CanAppend()
    {
      var s := new SingleFileIndexedStorage<V>(supplier);
      var f := new RecordFile(layout);
      assert KeysOf(s.items) == [];
      storage := s;
      file := f;
    }

    method Append(item: KeyValue<V>)
      requires Valid() && CanAppend() && file.layout.Fits(item)
      modifies storage.Footprint(), file
      ensures Valid() && CanAppend() && storage.items == old(storage.items) + [item]
    {
      hide InnerRegister.Holds, InnerRegister.CanRegister, Layout.SerializeAll, Layout.Fits;
      file.Append(item, storage.items);
      storage.Append(item);
    }

    method AppendAll(newItems: seq<KeyValue<V>>)
      requires Valid() && file.layout.AllFit(newItems)
      requires newItems != [] ==> CanAppend()
      modifies storage.Footprint(), file
      ensures Valid() && storage.items == old(storage.items) + newItems
      ensures old(CanAppend()) ==> CanAppend()
    {
      hide InnerRegister.Holds, InnerRegister.CanRegister, Layout.SerializeAll, Layout.Fits;
      file.AppendAll(newItems, storage.items);
      storage.AppendAll(newItems);
    }

    /** Decodes the record from the bytes of the file. */
    method Get(index: nat) returns (r: KeyValue<V>)
      requires Valid() && index < storage.GetItemsCount()
      ensures r == storage.Get(index) == storage.items[index]
    {
      r := file.Get(index, storage.items);
    }

    /** Decodes all records from the bytes of the file, in chunks. */
    method ReadAll(limit: nat) returns (all: seq<KeyValue<V>>)
      requires Valid()
      ensures all == storage.items
    {
      all := file.ReadAll(limit, storage.items);
    }

    /** Takes over the register of `other` and swaps the files. Both hold records of one type. */
    method ResetWith(other: FileBackedStorage<V>)
      requires Valid() && other.Valid() && file.layout == other.file.layout
      requires storage != other.storage && file != other.file
      modifies storage, other.storage, file, other.file
      ensures Valid() && storage.items == old(other.storage.items)
      ensures storage.register == old(other.storage.register)
      ensures other.storage.items == old(storage.items) && other.file.Holds(other.storage.items)
    {
      storage.ResetWith(other.storage);
      file.SwapWith(other.file);
    }
  }
}
