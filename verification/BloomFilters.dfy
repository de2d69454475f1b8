/** A Bloom filter: `Params` and the functions on bit vectors say what it computes, the class
    does it in place. */
module BloomFilters {
  import opened Records

  /** The hash function and the seeds it is called with. */
  datatype Params = Params(hash: (Key, nat) -> nat, seeds: seq<nat>)

  /** A call returns normally or throws `IllegalStateException`. */
  datatype Outcome = Done | IllegalState

  datatype Answer<+T> = Returned(value: T) | Threw

  function Bucket(p: Params, size: nat, k: Key, i: nat): (b: nat)
    requires size > 0 && i < |p.seeds|
    ensures b < size
  {
    p.hash(k, p.seeds[i]) % size
  }

  /** Some seed sends `k` to bit `b`. */
  ghost predicate Hits(p: Params, size: nat, k: Key, b: nat)
    requires size > 0
  {
    exists i :: 0 <= i < |p.seeds| && Bucket(p, size, k, i) == b
  }

  lemma HitsExactly(p: Params, size: nat, k: Key, b: nat)
    requires size > 0
    ensures Hits(p, size, k, b) <==> exists i :: 0 <= i < |p.seeds| && p.hash(k, p.seeds[i]) % size == b
  {
    if i :| 0 <= i < |p.seeds| && p.hash(k, p.seeds[i]) % size == b {
      assert Bucket(p, size, k, i) == b;
    }
  }

  ghost function WithKey(p: Params, bits: seq<bool>, k: Key): (r: seq<bool>)
    requires |bits| > 0
    ensures |r| == |bits|
    ensures forall b :: 0 <= b < |bits| ==> (r[b] <==> bits[b] || Hits(p, |bits|, k, b))
  {
    seq(|bits|, b requires 0 <= b < |bits| => bits[b] || Hits(p, |bits|, k, b))
  }

  ghost predicate Accepts(p: Params, bits: seq<bool>, k: Key) {
    |bits| > 0 && forall i :: 0 <= i < |p.seeds| ==> bits[Bucket(p, |bits|, k, i)]
  }

  lemma AcceptedBits(p: Params, bits: seq<bool>, k: Key)
    requires bits != []
    ensures Accepts(p, bits, k) <==> forall i :: 0 <= i < |p.seeds| ==> bits[p.hash(k, p.seeds[i]) % |bits|]
  {
    forall i | 0 <= i < |p.seeds| ensures Bucket(p, |bits|, k, i) == p.hash(k, p.seeds[i]) % |bits| {
    }
  }

  ghost function Cleared(size: nat): (r: seq<bool>)
    ensures |r| == size
  {
    seq(size, _ => false)
  }

  /** The bits of a filter of the given size after adding `keys` one by one. */
  ghost function Filled(p: Params, size: nat, keys: seq<Key>): (r: seq<bool>)
    requires size > 0 || keys == []
    ensures |r| == size
    decreases |keys|
  {
    if keys == [] then Cleared(size)
    else WithKey(p, Filled(p, size, keys[..|keys| - 1]), keys[|keys| - 1])
  }

  lemma FilledSnoc(p: Params, size: nat, keys: seq<Key>, k: Key)
    requires size > 0
    ensures Filled(p, size, keys + [k]) == WithKey(p, Filled(p, size, keys), k)
  {
    assert (keys + [k])[..|keys|] == keys;
  }

  ghost predicate HitBySome(p: Params, size: nat, keys: seq<Key>, b: nat)
    requires size > 0
  {
    exists j :: 0 <= j < |keys| && Hits(p, size, keys[j], b)
  }

  /** A bit is set exactly when one of the added keys hashes to it with one of the seeds. */
  lemma {:induction false} BitsAreTheHits(p: Params, size: nat, keys: seq<Key>, b: nat)
    requires b < size
    ensures Filled(p, size, keys)[b] <==>
      exists q, t :: q in keys && t in p.seeds && p.hash(q, t) % size == b
  {
    hide Filled, Hits, HitBySome;
    BitsAreHit(p, size, keys, b);
    HitBySomeExactly(p, size, keys, b);
  }

  lemma {:induction false} BitsAreHit(p: Params, size: nat, keys: seq<Key>, b: nat)
    requires b < size
    ensures Filled(p, size, keys)[b] <==> HitBySome(p, size, keys, b)
    decreases |keys|
  {
    hide Hits;
    if keys != [] {
      var n := |keys| - 1;
      BitsAreHit(p, size, keys[..n], b);
      if j :| 0 <= j < |keys| && Hits(p, size, keys[j], b) {
        assert j < n ==> keys[..n][j] == keys[j];
      }
      if j :| 0 <= j < n && Hits(p, size, keys[..n][j], b) {
        assert keys[..n][j] == keys[j];
      }
    }
  }

  lemma HitBySomeExactly(p: Params, size: nat, keys: seq<Key>, b: nat)
    requires size > 0
    ensures HitBySome(p, size, keys, b) <==>
      exists q, t :: q in keys && t in p.seeds && p.hash(q, t) % size == b
  {
    if HitBySome(p, size, keys, b) {
      var j :| 0 <= j < |keys| && Hits(p, size, keys[j], b);
      var m :| 0 <= m < |p.seeds| && Bucket(p, size, keys[j], m) == b;
      assert keys[j] in keys && p.seeds[m] in p.seeds && p.hash(keys[j], p.seeds[m]) % size == b;
    }
    if q, t :| q in keys && t in p.seeds && p.hash(q, t) % size == b {
      var j :| 0 <= j < |keys| && keys[j] == q;
      var m :| 0 <= m < |p.seeds| && p.seeds[m] == t;
      assert Bucket(p, size, keys[j], m) == b;
      assert Hits(p, size, keys[j], b);
    }
  }

  /** A filter accepts a key exactly when every bit that the key hashes to is one that some added key
      hashes to. */
  lemma {:induction false} AcceptsExactly(p: Params, size: nat, keys: seq<Key>, k: Key)
    requires size > 0
    ensures Accepts(p, Filled(p, size, keys), k) <==>
      forall s :: s in p.seeds ==>
        exists q, t :: q in keys && t in p.seeds && p.hash(q, t) % size == p.hash(k, s) % size
  {
    hide Filled, Hits, HitBySome, Accepts;
    AcceptsWhenHit(p, size, keys, k);
    forall s | s in p.seeds
      ensures HitBySome(p, size, keys, p.hash(k, s) % size) <==>
        exists q, t :: q in keys && t in p.seeds && p.hash(q, t) % size == p.hash(k, s) % size
    {
      HitBySomeExactly(p, size, keys, p.hash(k, s) % size);
    }
    assert forall i :: 0 <= i < |p.seeds| ==> p.seeds[i] in p.seeds;
  }

  lemma {:induction false} AcceptsWhenHit(p: Params, size: nat, keys: seq<Key>, k: Key)
    requires size > 0
    ensures Accepts(p, Filled(p, size, keys), k) <==>
      forall i :: 0 <= i < |p.seeds| ==> HitBySome(p, size, keys, p.hash(k, p.seeds[i]) % size)
  {
    hide Filled, Hits, HitBySome, Accepts;
    AcceptedBits(p, Filled(p, size, keys), k);
    forall i | 0 <= i < |p.seeds|
      ensures Filled(p, size, keys)[p.hash(k, p.seeds[i]) % size]
        <==> HitBySome(p, size, keys, p.hash(k, p.seeds[i]) % size)
    {
      BitsAreHit(p, size, keys, p.hash(k, p.seeds[i]) % size);
    }
  }

  /** No false negatives, under any hash function. */
  lemma {:induction false} AddedKeysAreAccepted(p: Params, size: nat, keys: seq<Key>, j: nat)
    requires size > 0 && j < |keys|
    ensures Accepts(p, Filled(p, size, keys), keys[j])
  {
    hide Filled;
    forall i | 0 <= i < |p.seeds| ensures Filled(p, size, keys)[Bucket(p, size, keys[j], i)] {
      assert Hits(p, size, keys[j], Bucket(p, size, keys[j], i));
      BitsAreHit(p, size, keys, Bucket(p, size, keys[j], i));
    }
  }

  /** `max(1.0, ...)` in the filter's constructor. */
  type Multiplier = m: real | m >= 1.0 witness 1.0

  /** The least integer that is not below `x`. */
  function Ceil(x: real): (c: int)
    ensures x <= c as real < x + 1.0
  {
    -((-x).Floor)
  }

  lemma {:induction false} CeilOfProduct(n: nat, m: Multiplier)
    ensures Ceil(n as real * m) >= n
  {
    assert n as real * m >= n as real;
  }

  class BloomFilter {
    const params: Params
    const sizeMultiplier: Multiplier
    var elements: seq<bool>
    var wasReserved: bool

    constructor (params: Params, sizeMultiplier: Multiplier)
      ensures this.params == params && this.sizeMultiplier == sizeMultiplier
      ensures elements == [] && !wasReserved
    {
      this.params := params;
      this.sizeMultiplier := sizeMultiplier;
      elements := [];
      wasReserved := false;
    }

    /** The copy constructor. */
    constructor CopyOf(other: BloomFilter)
      ensures params == other.params && sizeMultiplier == other.sizeMultiplier
      ensures elements == other.elements && wasReserved == other.wasReserved
    {
      params := other.params;
      sizeMultiplier := other.sizeMultiplier;
      elements := other.elements;
      wasReserved := other.wasReserved;
    }

    method Add(value: Key) returns (o: Outcome)
      modifies this`elements
      ensures o == if old(elements) == [] then IllegalState else Done
      ensures elements == if old(elements) == [] then [] else WithKey(params, old(elements), value)
      ensures |elements| == |old(elements)|
      ensures forall b :: 0 <= b < |elements| ==>
        (elements[b] <==>
          old(elements)[b]
          || exists i :: 0 <= i < |params.seeds| && params.hash(value, params.seeds[i]) % |elements| == b)
    {
      if elements == [] {
        return IllegalState;
      }
      for i := 0 to |params.seeds|
        invariant |elements| == |old(elements)|
        invariant forall b :: 0 <= b < |elements| ==>
          (elements[b] <==>
            old(elements)[b] || exists j :: 0 <= j < i && Bucket(params, |elements|, value, j) == b)
      {
        var index := Bucket(params, |elements|, value, i);
        elements := elements[index := true];
      }
      assert elements == WithKey(params, old(elements), value);
      forall b | 0 <= b < |elements|
        ensures Hits(params, |elements|, value, b) <==>
          exists i :: 0 <= i < |params.seeds| && params.hash(value, params.seeds[i]) % |elements| == b
      {
        HitsExactly(params, |elements|, value, b);
      }
      return Done;
    }

    method MightContain(value: Key) returns (a: Answer<bool>)
      ensures a == if elements == [] then Threw else Returned(Accepts(params, elements, value))
      ensures elements != [] ==>
        (a == Returned(true) <==>
          forall i :: 0 <= i < |params.seeds| ==> elements[params.hash(value, params.seeds[i]) % |elements|])
    {
      if elements == [] {
        return Threw;
      }
      AcceptedBits(params, elements, value);
      for i := 0 to |params.seeds|
        invariant forall j :: 0 <= j < i ==> elements[Bucket(params, |elements|, value, j)]
      {
        var index := Bucket(params, |elements|, value, i);
        if !elements[index] {
          return Returned(false);
        }
      }
      return Returned(true);
    }

    /** Resizes the bit vector, once. New bits are clear. */
    method Reserve(numberOfElements: nat) returns (o: Outcome)
      modifies this
      ensures o == if old(wasReserved) then IllegalState else Done
      ensures old(wasReserved) ==> elements == old(elements) && wasReserved
      ensures !old(wasReserved) ==> wasReserved && |elements| >= numberOfElements
      ensures !old(wasReserved) && old(elements) == [] ==> elements == Cleared(|elements|)
      ensures !old(wasReserved) && numberOfElements == 0 ==> elements == []
      ensures !old(wasReserved) ==> |elements| == Ceil(numberOfElements as real * sizeMultiplier)
    {
      if wasReserved {
        return IllegalState;
      }
      wasReserved := true;
      CeilOfProduct(numberOfElements, sizeMultiplier);
      var size := Ceil(numberOfElements as real * sizeMultiplier);
      var before := elements;
      elements := seq(size, b requires 0 <= b < size => b < |before| && before[b]);
      assert before == [] ==> elements == Cleared(size);
      return Done;
    }
  }
}
