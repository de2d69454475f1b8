/** What appending to a list of sorted blocks computes: the newest block is merged into the
    next one as long as their ranks are equal. Blocks are listed newest first. */
module Collapsing {
  import opened Records
  import opened Ranks
  import opened SortedStorages

  type Block<V> = seq<KeyValue<V>>

  /** Blocks are sorted and not empty. */
  ghost predicate GoodBlocks<V>(blocks: seq<Block<V>>) {
    forall i :: 0 <= i < |blocks| ==> blocks[i] != [] && StrictlySorted(blocks[i])
  }

  ghost predicate RanksIncrease<V>(blocks: seq<Block<V>>, r: nat)
    requires r > 0
  {
    forall i, j :: 0 <= i < j < |blocks| ==> Rank(|blocks[i]|, r) < Rank(|blocks[j]|, r)
  }

  /** Lookup through all blocks: a newer block hides the older ones. */
  ghost function ListMap<V>(blocks: seq<Block<V>>): map<Key, V> {
    if blocks == [] then map[] else ListMap(blocks[1..]) + AsMap(blocks[0])
  }

  lemma ListMapEmpty<V>()
    ensures ListMap<V>([]) == map[]
  {
  }

  lemma ListMapCons<V>(b: Block<V>, blocks: seq<Block<V>>)
    ensures ListMap([b] + blocks) == ListMap(blocks) + AsMap(b)
  {
    assert ([b] + blocks)[1..] == blocks;
  }

  /** Two blocks merged, the second one being the newer. */
  ghost function MergedPair<V>(older: Block<V>, newer: Block<V>): Block<V> {
    SortedEntries(Union([older, newer]))
  }

  /** The merge overlays the maps, is no smaller than either block and no larger than both together. */
  lemma {:induction false} MergedPairOverlays<V>(older: Block<V>, newer: Block<V>)
    requires StrictlySorted(older) && StrictlySorted(newer)
    ensures var b := MergedPair(older, newer);
      && StrictlySorted(b) && AsMap(b) == AsMap(older) + AsMap(newer)
      && |older| <= |b| && |newer| <= |b| <= |older| + |newer|
  {
    hide AsMap, Flatten;
    FlattenPair(older, newer);
    AsMapConcat(older, newer);
    SortedSize(older);
    SortedSize(newer);
    SubmapSize(AsMap(older), AsMap(older) + AsMap(newer));
    SubmapSize(AsMap(newer), AsMap(older) + AsMap(newer));
    MapSize(older + newer);
  }

  /** The first two blocks are merged next. */
  ghost predicate Collapses<V>(blocks: seq<Block<V>>, r: nat)
    requires r > 0
  {
    |blocks| >= 2 && Rank(|blocks[0]|, r) >= Rank(|blocks[1]|, r)
  }

  ghost function CollapseOnce<V>(blocks: seq<Block<V>>): seq<Block<V>>
    requires |blocks| >= 2
  {
    [MergedPair(blocks[1], blocks[0])] + blocks[2..]
  }

  /** The cascade of merges that appending a block starts. */
  ghost function Collapse<V>(blocks: seq<Block<V>>, r: nat): seq<Block<V>>
    requires r > 0
    decreases |blocks|
  {
    if Collapses(blocks, r) then Collapse(CollapseOnce(blocks), r) else blocks
  }

  /** Records that the merges of the cascade read. */
  ghost function CollapseReads<V>(blocks: seq<Block<V>>, r: nat): nat
    requires r > 0
    decreases |blocks|
  {
    if Collapses(blocks, r) then
      |blocks[0]| + |blocks[1]| + CollapseReads(CollapseOnce(blocks), r)
    else 0
  }

  lemma {:induction false} CollapseOnceIsGood<V>(blocks: seq<Block<V>>)
    requires GoodBlocks(blocks) && |blocks| >= 2
    ensures GoodBlocks(CollapseOnce(blocks))
  {
    hide AsMap, SortedEntries, Union, StrictlySorted, MergedPair;
    assert StrictlySorted(blocks[0]) && StrictlySorted(blocks[1]);
    MergedPairOverlays(blocks[1], blocks[0]);
  }

  /** Sorted, non-empty blocks stay so in a cascade. */
  lemma {:induction false} CollapseIsGood<V>(blocks: seq<Block<V>>, r: nat)
    requires r > 0 && GoodBlocks(blocks)
    ensures GoodBlocks(Collapse(blocks, r)) && (blocks != [] ==> Collapse(blocks, r) != [])
    decreases |blocks|
  {
    hide CollapseOnce, Rank, StrictlySorted;
    if Collapses(blocks, r) {
      CollapseOnceIsGood(blocks);
      CollapseOnceLength(blocks);
      CollapseIsGood(CollapseOnce(blocks), r);
    }
  }

  lemma CollapseOnceLength<V>(blocks: seq<Block<V>>)
    requires |blocks| >= 2
    ensures |CollapseOnce(blocks)| == |blocks| - 1
  {
  }

  lemma CollapseUnfolds<V>(blocks: seq<Block<V>>, r: nat)
    requires r > 0
    ensures Collapses(blocks, r) ==>
      && Collapse(blocks, r) == Collapse(CollapseOnce(blocks), r)
      && CollapseReads(blocks, r) == |blocks[0]| + |blocks[1]| + CollapseReads(CollapseOnce(blocks), r)
    ensures !Collapses(blocks, r) ==> Collapse(blocks, r) == blocks && CollapseReads(blocks, r) == 0
  {
  }

  /** What holds at every step of the cascade: the assertion that the current rank does not
      exceed the next one, and increasing ranks behind the head. */
  ghost predicate Cascading<V>(blocks: seq<Block<V>>, r: nat)
    requires r > 0
  {
    && (blocks != [] ==> RanksIncrease(blocks[1..], r))
    && (|blocks| >= 2 ==> Rank(|blocks[0]|, r) <= Rank(|blocks[1]|, r))
  }

  /** A merge does not change any lookup. */
  lemma {:induction false} CollapseOnceKeepsLookups<V>(blocks: seq<Block<V>>)
    requires GoodBlocks(blocks) && |blocks| >= 2
    ensures ListMap(CollapseOnce(blocks)) == ListMap(blocks)
  {
    hide AsMap, SortedEntries, Union, StrictlySorted, ListMap, MergedPair;
    var b0, b1, rest := blocks[0], blocks[1], blocks[2..];
    assert blocks == [b0] + ([b1] + rest);
    MergedPairOverlays(b1, b0);
    ListMapCons(MergedPair(b1, b0), rest);
    ListMapCons(b1, rest);
    ListMapCons(b0, [b1] + rest);
    OverlayAssociative(ListMap(rest), AsMap(b1), AsMap(b0));
  }

  lemma OverlayAssociative<V>(a: map<Key, V>, b: map<Key, V>, c: map<Key, V>)
    ensures a + (b + c) == (a + b) + c
  {
  }

  /** A merge of the cascade has inputs of one rank, and the cascade goes on as it should. */
  lemma {:induction false} CascadeStep<V>(blocks: seq<Block<V>>, r: nat)
    requires r > 0 && GoodBlocks(blocks) && Cascading(blocks, r) && Collapses(blocks, r)
    ensures Rank(|blocks[0]|, r) == Rank(|blocks[1]|, r)
    ensures Rank(|blocks[0]|, r) <= Rank(|CollapseOnce(blocks)[0]|, r) <= Rank(|blocks[0]|, r) + 1
    ensures GoodBlocks(CollapseOnce(blocks)) && Cascading(CollapseOnce(blocks), r)
  {
    hide AsMap, SortedEntries, Union, StrictlySorted, Rank, MergedPair;
    var c := CollapseOnce(blocks);
    MergedPairOverlays(blocks[1], blocks[0]);
    RankOfMerged(|blocks[0]|, |blocks[1]|, |c[0]|, r);
    forall i | 0 <= i < |c| - 1 ensures c[1..][i] == blocks[1..][i + 1] {
      assert c[1..] == blocks[2..] == blocks[1..][1..];
    }
    if |blocks| > 2 {
      assert blocks[1..][0] == blocks[1] && blocks[1..][1] == blocks[2];
    }
  }

  /** The cascade ends with strictly increasing ranks and does not change any lookup. */
  lemma {:induction false} CollapseKeeps<V>(blocks: seq<Block<V>>, r: nat)
    requires r > 0 && GoodBlocks(blocks) && Cascading(blocks, r)
    ensures GoodBlocks(Collapse(blocks, r)) && (blocks != [] ==> Collapse(blocks, r) != [])
    ensures RanksIncrease(Collapse(blocks, r), r)
    ensures ListMap(Collapse(blocks, r)) == ListMap(blocks)
    decreases |blocks|
  {
    CollapseIsGood(blocks, r);
    if Collapses(blocks, r) {
      CascadeStep(blocks, r);
      CollapseOnceKeepsLookups(blocks);
      CollapseKeeps(CollapseOnce(blocks), r);
    } else if |blocks| > 0 {
      forall i, j | 0 <= i < j < |blocks| ensures Rank(|blocks[i]|, r) < Rank(|blocks[j]|, r) {
        assert blocks[1..][j - 1] == blocks[j];
        if i > 0 {
          assert blocks[1..][i - 1] == blocks[i];
        } else if j > 1 {
          assert blocks[1..][0] == blocks[1];
        }
      }
    }
  }

  /** A block that is not above the head of an increasing list may be appended to it. */
  lemma CascadeStart<V>(b: Block<V>, blocks: seq<Block<V>>, r: nat)
    requires r > 0 && GoodBlocks(blocks) && RanksIncrease(blocks, r)
    requires b != [] && StrictlySorted(b)
    requires blocks != [] ==> Rank(|b|, r) <= Rank(|blocks[0]|, r)
    ensures GoodBlocks([b] + blocks) && Cascading([b] + blocks, r)
  {
    assert ([b] + blocks)[1..] == blocks;
  }

  /** Blocks of at most `r` records have rank 0. */
  lemma {:induction false} SmallBlockHasRankZero(size: nat, r: nat)
    requires 0 < size <= r
    ensures Rank(size, r) == 0
  {
    assert Pow2(0) == 1 && Pow2(1) == 2;
    RankExactly(size, r, 0);
  }

  // ---------------------------------------------------------------- length

  lemma {:induction false} RankAtLeastIndex<V>(blocks: seq<Block<V>>, r: nat, i: nat)
    requires r > 0 && GoodBlocks(blocks) && RanksIncrease(blocks, r) && i < |blocks|
    ensures Rank(|blocks[i]|, r) >= i
  {
    if i > 0 {
      RankAtLeastIndex(blocks, r, i - 1);
    }
  }

  lemma {:induction false} BlockInListMap<V>(blocks: seq<Block<V>>, i: nat)
    requires i < |blocks|
    ensures AsMap(blocks[i]).Keys <= ListMap(blocks).Keys
  {
    if i > 0 {
      assert blocks[1..][i - 1] == blocks[i];
      BlockInListMap(blocks[1..], i - 1);
    }
  }

  lemma {:induction false} Pow2Monotone(j: nat, k: nat)
    requires j <= k
    ensures Pow2(j) <= Pow2(k)
    decreases k
  {
    if j < k {
      Pow2Monotone(j, k - 1);
    }
  }

  /** A list of `L` blocks stores more than `(2^(L-1) - 1) * r` distinct keys. */
  lemma {:induction false} ListIsLogarithmic<V>(blocks: seq<Block<V>>, r: nat)
    requires r > 0 && GoodBlocks(blocks) && RanksIncrease(blocks, r) && blocks != []
    ensures (Pow2(|blocks| - 1) - 1) * r < |ListMap(blocks)|
  {
    hide AsMap, ListMap, StrictlySorted, RanksIncrease, Pow2, Rank;
    var n := |blocks| - 1;
    var k := Rank(|blocks[n]|, r);
    RankAtLeastIndex(blocks, r, n);
    RankExactly(|blocks[n]|, r, k);
    Pow2Monotone(n, k);
    TimesMonotone(r, Pow2(n) - 1, Pow2(k) - 1);
    SortedSize(blocks[n]);
    BlockInListMap(blocks, n);
    SubmapSize(AsMap(blocks[n]), ListMap(blocks));
  }

  /** ... so it has at most one block more than the rank of that many keys. */
  lemma {:induction false} ListIsShort<V>(blocks: seq<Block<V>>, r: nat)
    requires r > 0 && GoodBlocks(blocks) && RanksIncrease(blocks, r)
    ensures |blocks| <= Rank(|ListMap(blocks)|, r) + 1
  {
    hide AsMap, ListMap, StrictlySorted, RanksIncrease, Rank;
    if blocks != [] {
      var n := |blocks| - 1;
      RankAtLeastIndex(blocks, r, n);
      SortedSize(blocks[n]);
      BlockInListMap(blocks, n);
      SubmapSize(AsMap(blocks[n]), ListMap(blocks));
      RankMonotone(|blocks[n]|, |ListMap(blocks)|, r);
    }
  }
}
