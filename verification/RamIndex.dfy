/** The RAM index: an ordered map. */
module RamIndex {
  import opened Records

  ghost predicate IsSmallest(s: set<Key>, k: Key) {
    k in s && forall j :: j in s ==> k <= j
  }

  lemma {:induction false} SmallestExists(s: set<Key>)
    requires s != {}
    ensures exists k :: IsSmallest(s, k)
    decreases |s|
  {
    var x :| x in s;
    if s == {x} {
      assert IsSmallest(s, x);
    } else {
      SmallestExists(s - {x});
      var y :| IsSmallest(s - {x}, y);
      forall j | j in s ensures j >= if x < y then x else y {
        assert j == x || j in s - {x};
      }
      assert IsSmallest(s, if x < y then x else y);
    }
  }

  /** Some pairs of a map were moved out, in order, and the rest is above them. */
  ghost predicate Extracting(extracted: seq<KeyValue<int>>, rest: map<Key, int>) {
    && StrictlySorted(extracted)
    && forall i, k :: 0 <= i < |extracted| && k in rest ==> extracted[i].key < k
  }

  lemma NothingExtracted(m: map<Key, int>)
    ensures Extracting([], m) && AsMap<int>([]) + m == m
  {
  }

  lemma {:induction false} MoveSmallest(extracted: seq<KeyValue<int>>, rest: map<Key, int>, k: Key)
    requires Extracting(extracted, rest) && IsSmallest(rest.Keys, k)
    ensures var extracted' := extracted + [KeyValue(k, rest[k])];
      && Extracting(extracted', rest - {k})
      && AsMap(extracted') + (rest - {k}) == AsMap(extracted) + rest
      && |rest - {k}| < |rest|
  {
    hide AsMap;
    AsMapSnoc(extracted, KeyValue(k, rest[k]));
    assert rest.Keys == (rest - {k}).Keys + {k};
    assert |rest.Keys| == |(rest - {k}).Keys| + 1;
  }

  class BST {
    var map_: map<Key, int>

    constructor ()
      ensures map_ == map[]
    {
      map_ := map[];
    }

    method Add(key: Key, value: int)
      modifies this
      ensures map_ == old(map_)[key := value]
    {
      map_ := map_[key := value];
    }

    method GetValue(key: Key) returns (r: Option<int>)
      ensures key in map_ ==> r == Some(map_[key])
      ensures key !in map_ ==> r == None
    {
      if key !in map_ {
        return None;
      }
      return Some(map_[key]);
    }

    function GetUpperSizeBound(): nat
      reads this
    {
      |map_|
    }

    /** Moves all pairs out, in the order of their keys. */
    method Extract() returns (extracted: seq<KeyValue<int>>)
      modifies this
      ensures map_ == map[]
      ensures extracted == SortedEntries(old(map_))
    {
      hide AsMap, StrictlySorted, SortedEntries;
      NothingExtracted(map_);
      extracted := [];
      var rest := map_;
      while rest != map[]
        invariant map_ == old(map_)
        invariant Extracting(extracted, rest) && AsMap(extracted) + rest == map_
        decreases |rest|
      {
        SmallestExists(rest.Keys);
        var k: Key :| k in rest.Keys && forall j :: j in rest.Keys ==> k <= j;
        MoveSmallest(extracted, rest, k);
        extracted := extracted + [KeyValue(k, rest[k])];
        rest := rest - {k};
      }
      assert AsMap(extracted) + rest == AsMap(extracted);
      IsSortedEntries(extracted, map_);
      map_ := map[];
    }
  }
}
