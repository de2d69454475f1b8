/** Fixed-width byte representations of keys, values and records. */
module Codecs {
  import opened Records
  import opened Ranks

  type Byte = b: int | 0 <= b < 256

  function Pow256(n: nat): (p: nat)
    ensures p > 0
  {
    if n == 0 then 1 else 256 * Pow256(n - 1)
  }

  // ---------------------------------------------------------------- numbers

  /** The `len` lowest base-256 digits of a number, most significant first. */
  function BigEndian(n: nat, len: nat): (bs: seq<Byte>)
    ensures |bs| == len
  {
    if len == 0 then [] else BigEndian(n / 256, len - 1) + [n % 256]
  }

  function FromBigEndian(bs: seq<Byte>): nat {
    if bs == [] then 0 else FromBigEndian(bs[..|bs| - 1]) * 256 + bs[|bs| - 1]
  }

  /** Digits determine a number that fits. */
  lemma {:induction false} BigEndianRoundTrip(n: nat, len: nat)
    requires n < Pow256(len)
    ensures FromBigEndian(BigEndian(n, len)) == n
    decreases len
  {
    if len > 0 {
      BigEndianRoundTrip(n / 256, len - 1);
      assert BigEndian(n, len)[..len - 1] == BigEndian(n / 256, len - 1);
    }
  }

  /** Every byte string of length `len` is the key of a number below `256^len`. */
  lemma {:induction false} FromBigEndianRoundTrip(bs: seq<Byte>)
    ensures FromBigEndian(bs) < Pow256(|bs|)
    ensures BigEndian(FromBigEndian(bs), |bs|) == bs
    decreases |bs|
  {
    if bs != [] {
      var n := |bs| - 1;
      FromBigEndianRoundTrip(bs[..n]);
      assert bs == bs[..n] + [bs[n]];
    }
  }

  /** The leading byte counts `256^(len - 1)`. */
  lemma {:induction false} LeadingByte(bs: seq<Byte>)
    requires bs != []
    ensures FromBigEndian(bs) == bs[0] * Pow256(|bs| - 1) + FromBigEndian(bs[1..])
    decreases |bs|
  {
    hide FromBigEndian;
    var n := |bs| - 1;
    LastByte(bs);
    if n > 0 {
      var init, tail := bs[..n], bs[1..];
      LeadingByte(init);
      LastByte(tail);
      assert init[1..] == tail[..n - 1];
      ShiftByte(bs[0], Pow256(n - 1), FromBigEndian(tail[..n - 1]), bs[n]);
    } else {
      NoBytes();
      assert bs[..n] == [] && bs[1..] == [];
    }
  }

  lemma LastByte(bs: seq<Byte>)
    requires bs != []
    ensures FromBigEndian(bs) == FromBigEndian(bs[..|bs| - 1]) * 256 + bs[|bs| - 1]
  {
  }

  lemma NoBytes()
    ensures FromBigEndian([]) == 0
  {
  }

  lemma ShiftByte(d: nat, p: nat, x: nat, b: nat)
    ensures (d * p + x) * 256 + b == d * (256 * p) + (x * 256 + b)
  {
    assert (d * p) * 256 == d * (256 * p);
  }

  /** `memcmp(a, b, n) < 0` for arrays of one length. */
  predicate MemcmpLess(a: seq<Byte>, b: seq<Byte>)
    requires |a| == |b|
  {
    a != [] && (a[0] < b[0] || (a[0] == b[0] && MemcmpLess(a[1..], b[1..])))
  }

  /** Comparing keys byte by byte is comparing the numbers they stand for. */
  lemma {:induction false} MemcmpIsNumericOrder(a: seq<Byte>, b: seq<Byte>)
    requires |a| == |b|
    ensures MemcmpLess(a, b) <==> FromBigEndian(a) < FromBigEndian(b)
    decreases |a|
  {
    if a != [] {
      LeadingByte(a);
      LeadingByte(b);
      FromBigEndianRoundTrip(a[1..]);
      FromBigEndianRoundTrip(b[1..]);
      MemcmpIsNumericOrder(a[1..], b[1..]);
      DigitsDominate(a[0], FromBigEndian(a[1..]), b[0], FromBigEndian(b[1..]), Pow256(|a| - 1));
    }
  }

  lemma DigitsDominate(d: nat, x: nat, e: nat, y: nat, p: nat)
    requires x < p && y < p
    ensures d * p + x < e * p + y <==> d < e || (d == e && x < y)
  {
    assert d * p == p * d && e * p == p * e;
    if d < e {
      TimesNext(p, d, e);
    } else if e < d {
      TimesNext(p, e, d);
    }
  }

  // ---------------------------------------------------------------- values

  /** A fixed-width representation of the values that fit it. */
  datatype Codec<!V(!new)> = Codec(size: nat, fits: V -> bool, encode: V -> seq<Byte>, decode: seq<Byte> -> V) {
    ghost predicate Valid() {
      forall v :: fits(v) ==> |encode(v)| == size && decode(encode(v)) == v
    }
  }

  /** Byte arrays of a given length are written as they are. */
  function ByteArrayCodec(len: nat): Codec<seq<Byte>> {
    Codec(len, (v: seq<Byte>) => |v| == len, (v: seq<Byte>) => v, (bs: seq<Byte>) => bs)
  }

  lemma ByteArrayCodecValid(len: nat)
    ensures ByteArrayCodec(len).Valid() && ByteArrayCodec(len).size == len
    ensures forall v: seq<Byte> :: ByteArrayCodec(len).fits(v) <==> |v| == len
    ensures forall v: seq<Byte> :: ByteArrayCodec(len).encode(v) == v
  {
  }

  function LittleEndian(n: nat, len: nat): (bs: seq<Byte>)
    ensures |bs| == len
  {
    if len == 0 then [] else [n % 256] + LittleEndian(n / 256, len - 1)
  }

  function FromLittleEndian(bs: seq<Byte>): nat {
    if bs == [] then 0 else bs[0] + 256 * FromLittleEndian(bs[1..])
  }

  lemma {:induction false} LittleEndianRoundTrip(n: nat, len: nat)
    requires n < Pow256(len)
    ensures FromLittleEndian(LittleEndian(n, len)) == n
    decreases len
  {
    if len > 0 {
      LittleEndianRoundTrip(n / 256, len - 1);
    }
  }

  /** The least significant byte comes first: the bytes are those of the big-endian form, reversed. */
  lemma {:induction false} LittleEndianIsReversed(n: nat, len: nat, i: nat)
    requires i < len
    ensures LittleEndian(n, len)[i] == BigEndian(n, len)[len - 1 - i]
    decreases len
  {
    if i > 0 {
      LittleEndianIsReversed(n / 256, len - 1, i - 1);
    }
  }

  /** Positions are written as they lie in memory, in `width` bytes. */
  function IndexCodec(width: nat): Codec<int> {
    Codec(width, (i: int) => 0 <= i < Pow256(width),
          (i: int) => if i < 0 then [] else LittleEndian(i, width), (bs: seq<Byte>) => FromLittleEndian(bs))
  }

  lemma IndexCodecValid(width: nat)
    ensures IndexCodec(width).Valid() && IndexCodec(width).size == width
    ensures forall i :: IndexCodec(width).fits(i) <==> 0 <= i < Pow256(width)
  {
    forall i | IndexCodec(width).fits(i)
      ensures |IndexCodec(width).encode(i)| == width && IndexCodec(width).decode(IndexCodec(width).encode(i)) == i
    {
      LittleEndianRoundTrip(i, width);
    }
  }

  /** A value followed by its removal flag. */
  function MaybeRemovedCodec<V(!new)>(inner: Codec<V>): Codec<MaybeRemoved<V>> {
    Codec(inner.size + 1,
          (m: MaybeRemoved<V>) => inner.fits(m.value),
          (m: MaybeRemoved<V>) => inner.encode(m.value) + [if m.removed then 1 else 0],
          (bs: seq<Byte>) =>
            if bs == [] then MaybeRemoved(inner.decode([]), false)
            else MaybeRemoved(inner.decode(bs[..|bs| - 1]), bs[|bs| - 1] != 0))
  }

  lemma {:induction false} MaybeRemovedCodecValid<V(!new)>(inner: Codec<V>)
    requires inner.Valid()
    ensures MaybeRemovedCodec(inner).Valid() && MaybeRemovedCodec(inner).size == inner.size + 1
    ensures forall m :: MaybeRemovedCodec(inner).fits(m) <==> inner.fits(m.value)
    ensures forall m ::
      MaybeRemovedCodec(inner).encode(m) == inner.encode(m.value) + [if m.removed then 1 else 0]
  {
    var c := MaybeRemovedCodec(inner);
    forall m | c.fits(m) ensures |c.encode(m)| == c.size && c.decode(c.encode(m)) == m {
      var bs := c.encode(m);
      assert bs[..|bs| - 1] == inner.encode(m.value);
    }
  }

  // ---------------------------------------------------------------- records

  /** Keys of `keyLength` bytes followed by values. */
  datatype Layout<!V(!new)> = Layout(keyLength: nat, values: Codec<V>) {

    ghost predicate Valid() {
      values.Valid() && keyLength + values.size > 0
    }

    function EachSize(): nat {
      keyLength + values.size
    }

    predicate Fits(r: KeyValue<V>) {
      r.key < Pow256(keyLength) && values.fits(r.value)
    }

    function Serialize(r: KeyValue<V>): seq<Byte> {
      BigEndian(r.key, keyLength) + values.encode(r.value)
    }

    /** Reads the key, then the value. */
    function Deserialize(bytes: seq<Byte>): KeyValue<V>
      requires |bytes| == EachSize()
    {
      KeyValue(FromBigEndian(bytes[..keyLength]), values.decode(bytes[keyLength..]))
    }

    /** Reads the key and skips the value. */
    function DeserializeKey(bytes: seq<Byte>): Key
      requires |bytes| == EachSize()
    {
      FromBigEndian(bytes[..keyLength])
    }

    /** The bytes at an offset decode to the record, and to its key if the value is skipped. */
    ghost predicate RecordAt(bytes: seq<Byte>, at: int, r: KeyValue<V>) {
      && 0 <= at <= at + EachSize() <= |bytes|
      && Deserialize(bytes[at..at + EachSize()]) == r
      && DeserializeKey(bytes[at..at + EachSize()]) == r.key
    }

    lemma RecordRoundTrip(r: KeyValue<V>)
      requires Valid() && Fits(r)
      ensures |Serialize(r)| == EachSize()
      ensures Deserialize(Serialize(r)) == r && DeserializeKey(Serialize(r)) == r.key
    {
      var bytes := Serialize(r);
      assert bytes[..keyLength] == BigEndian(r.key, keyLength);
      assert bytes[keyLength..] == values.encode(r.value);
      BigEndianRoundTrip(r.key, keyLength);
    }

    /** The bytes of a record are those of its key, most significant first, and then those of its value. */
    lemma KeyComesFirst(r: KeyValue<V>)
      requires Valid() && Fits(r)
      ensures |Serialize(r)| == keyLength + values.size
      ensures FromBigEndian(Serialize(r)[..keyLength]) == r.key
      ensures Serialize(r)[keyLength..] == values.encode(r.value)
    {
      RecordRoundTrip(r);
      assert Serialize(r)[..keyLength] == BigEndian(r.key, keyLength);
    }

    lemma RecordOfSlice(bytes: seq<Byte>, at: nat, r: KeyValue<V>)
      requires Valid() && Fits(r)
      requires at + EachSize() <= |bytes| && bytes[at..at + EachSize()] == Serialize(r)
      ensures RecordAt(bytes, at, r)
    {
      RecordRoundTrip(r);
    }

    function SerializeAll(rs: seq<KeyValue<V>>): seq<Byte> {
      if rs == [] then [] else SerializeAll(rs[..|rs| - 1]) + Serialize(rs[|rs| - 1])
    }

    ghost predicate AllFit(rs: seq<KeyValue<V>>) {
      forall i :: 0 <= i < |rs| ==> Fits(rs[i])
    }

    lemma {:induction false} SerializeAllConcat(a: seq<KeyValue<V>>, b: seq<KeyValue<V>>)
      ensures SerializeAll(a + b) == SerializeAll(a) + SerializeAll(b)
      decreases |b|
    {
      hide Layout.Serialize;
      if b == [] {
        assert a + b == a;
      } else {
        var n := |b| - 1;
        SerializeAllConcat(a, b[..n]);
        assert (a + b)[..|a + b| - 1] == a + b[..n];
        Associative(SerializeAll(a), SerializeAll(b[..n]), Serialize(b[n]));
      }
    }

    static lemma Associative(a: seq<Byte>, b: seq<Byte>, c: seq<Byte>)
      ensures a + b + c == a + (b + c)
    {
    }

    lemma {:induction false} SerializedSize(rs: seq<KeyValue<V>>)
      requires Valid() && AllFit(rs)
      ensures |SerializeAll(rs)| == |rs| * EachSize()
      decreases |rs|
    {
      hide Layout.EachSize, Layout.Serialize, Layout.Fits, Layout.Valid;
      if rs != [] {
        var n := |rs| - 1;
        SerializedSize(rs[..n]);
        RecordRoundTrip(rs[n]);
        assert (n + 1) * EachSize() == n * EachSize() + EachSize();
      }
    }

    /** The bytes between two record boundaries are those of the records in between. */
    lemma {:induction false} SerializedSlice(rs: seq<KeyValue<V>>, from: nat, to: nat)
      requires Valid() && AllFit(rs) && from <= to <= |rs|
      ensures from * EachSize() <= to * EachSize() <= |SerializeAll(rs)|
      ensures SerializeAll(rs)[from * EachSize()..to * EachSize()] == SerializeAll(rs[from..to])
    {
      var a, b, c := rs[..from], rs[from..to], rs[to..];
      assert rs == a + b + c && rs[..to] == a + b;
      SerializeAllConcat(a + b, c);
      SerializeAllConcat(a, b);
      SerializedSize(a);
      SerializedSize(rs[..to]);
    }

    lemma SerializeSingle(r: KeyValue<V>)
      ensures SerializeAll([r]) == Serialize(r)
    {
      assert [r][..0] == [];
    }
  }
}
