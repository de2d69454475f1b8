/** The amortised cost of collapsing: a potential pays for every record the merges read. */
module CollapseCost {
  import opened Records
  import opened Ranks
  import opened SortedStorages
  import opened Collapsing

  ghost predicate RanksAtMost<V>(blocks: seq<Block<V>>, r: nat, R: nat)
    requires r > 0
  {
    forall i :: 0 <= i < |blocks| ==> Rank(|blocks[i]|, r) <= R
  }

  /** What a block of rank `k` has saved for the merges it will still take part in. */
  function BlockPotential(k: nat, r: nat, R: nat): nat
    requires k <= R
  {
    2 * (r * Pow2(k)) * (R + 2 - k)
  }

  ghost function Potential<V>(blocks: seq<Block<V>>, r: nat, R: nat): nat
    requires r > 0 && RanksAtMost(blocks, r, R)
  {
    if blocks == [] then 0
    else BlockPotential(Rank(|blocks[0]|, r), r, R) + Potential(blocks[1..], r, R)
  }

  lemma PotentialCons<V>(b: Block<V>, blocks: seq<Block<V>>, r: nat, R: nat)
    requires r > 0 && GoodBlocks(blocks) && b != [] && StrictlySorted(b)
    requires RanksAtMost(blocks, r, R) && Rank(|b|, r) <= R
    ensures GoodBlocks([b] + blocks) && RanksAtMost([b] + blocks, r, R)
    ensures Potential([b] + blocks, r, R) == BlockPotential(Rank(|b|, r), r, R) + Potential(blocks, r, R)
  {
    assert ([b] + blocks)[1..] == blocks;
  }

  /** The potential of two blocks of rank `k` pays for reading both and leaves that of the result. */
  lemma {:induction false} MergeIsPaid(a: nat, b: nat, k: nat, k': nat, r: nat, R: nat)
    requires r > 0 && a > 0 && b > 0 && Rank(a, r) == k && Rank(b, r) == k
    requires k <= k' <= k + 1 && k' <= R
    ensures a + b + BlockPotential(k', r, R) <= 2 * BlockPotential(k, r, R)
  {
    var x, d := r * Pow2(k), R + 2 - k;
    SizeOfRank(a, k, r);
    SizeOfRank(b, k, r);
    assert r * Pow2(k + 1) == 2 * x;
    PaidByTwo(x, d);
  }

  lemma SizeOfRank(a: nat, k: nat, r: nat)
    requires r > 0 && a > 0 && Rank(a, r) == k
    ensures a <= 2 * (r * Pow2(k)) == r * Pow2(k + 1)
  {
    RankExactly(a, r, k);
    TimesMonotone(r, Pow2(k + 1) - 1, Pow2(k + 1));
    assert Pow2(k + 1) == 2 * Pow2(k);
  }

  lemma PaidByTwo(x: nat, d: nat)
    requires d >= 2
    ensures 4 * x + 2 * x * d <= 2 * (2 * x * d)
    ensures 4 * x + 2 * (2 * x) * (d - 1) == 2 * (2 * x * d)
  {
    TimesMonotone(x, 2, d);
    assert x * (d - 1) == x * d - x;
    assert 2 * x * d == 2 * (x * d) && 2 * (2 * x) * (d - 1) == 4 * (x * (d - 1));
  }

  /** The rank of the head only grows in a cascade, so a bound at the end bounds every step. */
  lemma {:induction false} BoundedThroughout<V>(blocks: seq<Block<V>>, r: nat, R: nat)
    requires r > 0 && GoodBlocks(blocks) && Cascading(blocks, r)
    requires RanksAtMost(Collapse(blocks, r), r, R)
    ensures RanksAtMost(blocks, r, R)
    decreases |blocks|
  {
    if Collapses(blocks, r) {
      var c := CollapseOnce(blocks);
      CascadeStep(blocks, r);
      BoundedThroughout(c, r, R);
      forall i | 0 <= i < |blocks| ensures Rank(|blocks[i]|, r) <= R {
        assert Rank(|c[0]|, r) <= R;
        if i >= 2 {
          assert blocks[i] == c[i - 1];
        }
      }
    }
  }

  /** Records read by a cascade are paid by the drop of the potential. */
  lemma {:induction false} CascadeIsPaid<V>(blocks: seq<Block<V>>, r: nat, R: nat)
    requires r > 0 && GoodBlocks(blocks) && Cascading(blocks, r)
    requires RanksAtMost(Collapse(blocks, r), r, R)
    ensures RanksAtMost(blocks, r, R)
    ensures CollapseReads(blocks, r) + Potential(Collapse(blocks, r), r, R) <= Potential(blocks, r, R)
    decreases |blocks|
  {
    hide AsMap, SortedEntries, Union, StrictlySorted, Rank, BlockPotential;
    BoundedThroughout(blocks, r, R);
    if Collapses(blocks, r) {
      var c, rest := CollapseOnce(blocks), blocks[2..];
      CascadeStep(blocks, r);
      CascadeIsPaid(c, r, R);
      var k := Rank(|blocks[0]|, r);
      MergeIsPaid(|blocks[0]|, |blocks[1]|, k, Rank(|c[0]|, r), r, R);
      assert c == [c[0]] + rest && blocks == [blocks[0]] + ([blocks[1]] + rest);
      PotentialCons(c[0], rest, r, R);
      PotentialCons(blocks[1], rest, r, R);
      PotentialCons(blocks[0], [blocks[1]] + rest, r, R);
    }
  }

  lemma {:induction false} BlockPotentialGrows(k: nat, r: nat, R: nat)
    requires k <= R
    ensures BlockPotential(0, r, R) <= BlockPotential(k, r, R)
    decreases k
  {
    if k > 0 {
      BlockPotentialGrows(k - 1, r, R);
      var x := r * Pow2(k - 1);
      assert r * Pow2(k) == 2 * x;
      TimesMonotone(2 * x, R + 3 - k, 2 * (R + 2 - k));
      assert 2 * x * (2 * (R + 2 - k)) == 2 * (2 * x) * (R + 2 - k);
    }
  }

  /** A list that is not empty has at least the potential of a block of rank 0. */
  lemma {:induction false} PotentialOfSome<V>(blocks: seq<Block<V>>, r: nat, R: nat)
    requires r > 0 && RanksAtMost(blocks, r, R) && blocks != []
    ensures Potential(blocks, r, R) >= BlockPotential(0, r, R)
  {
    hide Rank, BlockPotential;
    BlockPotentialGrows(Rank(|blocks[0]|, r), r, R);
  }

  // ---------------------------------------------------------------- one cascade

  lemma {:induction false} MergeReadsOlder(newer: nat, older: nat, k: nat, r: nat)
    requires r > 0 && newer > 0 && older > 0 && Rank(newer, r) == k && Rank(older, r) == k && k > 0
    ensures newer + older <= 4 * older
  {
    hide Rank;
    RankExactly(newer, r, k);
    RankExactly(older, r, k);
    RanksOfPortions(Pow2(k - 1), r);
    assert Pow2(k) == 2 * Pow2(k - 1) && Pow2(k + 1) == 2 * Pow2(k);
  }

  lemma RanksOfPortions(p: nat, r: nat)
    requires p > 0
    ensures (4 * p - 1) * r <= 3 * ((2 * p - 1) * r)
  {
    TimesMonotone(r, 4 * p - 1, 3 * (2 * p - 1));
  }

  /** A cascade reads at most four times the records of the blocks behind the head, and a head of rank 0. */
  lemma {:induction false} CascadeReadsBlocks<V>(blocks: seq<Block<V>>, r: nat)
    requires r > 0 && GoodBlocks(blocks) && Cascading(blocks, r) && blocks != []
    ensures CollapseReads(blocks, r)
      <= 4 * TotalSize(blocks[1..]) + if Rank(|blocks[0]|, r) == 0 then |blocks[0]| else 0
    decreases |blocks|
  {
    hide AsMap, SortedEntries, Union, StrictlySorted, Rank, TotalSize, MergedPair;
    if Collapses(blocks, r) {
      var c, rest, k := CollapseOnce(blocks), blocks[2..], Rank(|blocks[0]|, r);
      CascadeStep(blocks, r);
      CascadeReadsBlocks(c, r);
      assert blocks[1..] == [blocks[1]] + rest && c[1..] == rest;
      TotalSizeConcat([blocks[1]], rest);
      TotalSizeSingle(blocks[1]);
      if k > 0 {
        MergeReadsOlder(|blocks[0]|, |blocks[1]|, k, r);
      } else if rest != [] {
        assert blocks[1..][0] == blocks[1] && blocks[1..][1] == blocks[2] == c[1];
        assert Rank(|c[1]|, r) > 0;
      }
    }
  }

  /** A cascade takes some blocks from the front, reads every record of theirs at least once, and
      leaves the others as they are. */
  lemma {:induction false} CascadeReadsConsumed<V>(blocks: seq<Block<V>>, r: nat)
    requires r > 0 && blocks != []
    ensures 0 < |Collapse(blocks, r)| <= |blocks|
    ensures var n := |blocks| - |Collapse(blocks, r)| + 1;
      && Collapse(blocks, r)[1..] == blocks[n..]
      && (n > 1 ==> CollapseReads(blocks, r) >= TotalSize(blocks[..n]))
    decreases |blocks|
  {
    hide AsMap, SortedEntries, Union, Rank, TotalSize, MergedPair;
    if Collapses(blocks, r) {
      var c := CollapseOnce(blocks);
      CascadeReadsConsumed(c, r);
      var n := |blocks| - |Collapse(blocks, r)| + 1;
      assert Collapse(blocks, r)[1..] == c[n - 1..] == blocks[n..];
      assert blocks[..n] == [blocks[0], blocks[1]] + blocks[2..n] && c[..n - 1] == [c[0]] + blocks[2..n];
      TotalSizeConcat([blocks[0], blocks[1]], blocks[2..n]);
      TotalSizePair(blocks[0], blocks[1]);
      TotalSizeConcat([c[0]], blocks[2..n]);
      if n == 2 {
        assert blocks[2..n] == [];
        NothingHasNoSize<KeyValue<V>>();
      }
    }
  }

  // ---------------------------------------------------------------- runs of appends

  /** Blocks as Supermap drops them from RAM: sorted, with 1 to `r` records. */
  ghost predicate SmallBlocks<V>(history: seq<Block<V>>, r: nat) {
    forall i :: 0 <= i < |history| ==> 0 < |history[i]| <= r && StrictlySorted(history[i])
  }

  /** The list after appending the blocks of `history` one after the other. */
  ghost function Appended<V>(start: seq<Block<V>>, history: seq<Block<V>>, r: nat): seq<Block<V>>
    requires r > 0
    decreases |history|
  {
    if history == [] then start
    else
      var n := |history| - 1;
      Collapse([history[n]] + Appended(start, history[..n], r), r)
  }

  /** Records read by all merges of the run. */
  ghost function RunReads<V>(start: seq<Block<V>>, history: seq<Block<V>>, r: nat): nat
    requires r > 0
    decreases |history|
  {
    if history == [] then 0
    else
      var n := |history| - 1;
      RunReads(start, history[..n], r) + CollapseReads([history[n]] + Appended(start, history[..n], r), r)
  }

  /** What the list accepts: a sorted, non-empty block of at most the rank of the head. */
  ghost predicate MayFollow<V>(b: Block<V>, blocks: seq<Block<V>>, r: nat)
    requires r > 0
  {
    b != [] && StrictlySorted(b) && (blocks != [] ==> Rank(|b|, r) <= Rank(|blocks[0]|, r))
  }

  /** The list accepts every block of `history` at its time. */
  ghost predicate Appendable<V>(start: seq<Block<V>>, history: seq<Block<V>>, r: nat)
    requires r > 0
    decreases |history|
  {
    history == [] ||
      var n := |history| - 1;
      Appendable(start, history[..n], r) && MayFollow(history[n], Appended(start, history[..n], r), r)
  }

  lemma {:induction false} SmallBlocksAreAppendable<V>(start: seq<Block<V>>, history: seq<Block<V>>, r: nat)
    requires r > 0 && SmallBlocks(history, r)
    ensures Appendable(start, history, r)
    decreases |history|
  {
    hide Rank, StrictlySorted, Appended;
    if history != [] {
      var n := |history| - 1;
      SmallBlocksAreAppendable(start, history[..n], r);
      SmallBlockHasRankZero(|history[n]|, r);
    }
  }

  /** Every run keeps ranks increasing, and find looks up the newest record of all blocks
      ever appended. */
  lemma {:induction false} RunKeeps<V>(start: seq<Block<V>>, history: seq<Block<V>>, r: nat)
    requires r > 0 && GoodBlocks(start) && RanksIncrease(start, r) && Appendable(start, history, r)
    ensures GoodBlocks(Appended(start, history, r)) && RanksIncrease(Appended(start, history, r), r)
    ensures ListMap(Appended(start, history, r)) == ListMap(start) + Union(history)
    decreases |history|
  {
    if history != [] {
      var n := |history| - 1;
      var before := Appended(start, history[..n], r);
      RunKeeps(start, history[..n], r);
      CascadeStart(history[n], before, r);
      CollapseKeeps([history[n]] + before, r);
      ListMapCons(history[n], before);
      AsMapConcat(Flatten(history[..n]), history[n]);
      OverlayAssociative(ListMap(start), Union(history[..n]), AsMap(history[n]));
    }
  }

  /** Every list of the run has ranks of at most `R`. */
  ghost predicate RunRanksAtMost<V>(start: seq<Block<V>>, history: seq<Block<V>>, r: nat, R: nat)
    requires r > 0
  {
    forall n :: 0 <= n <= |history| ==> RanksAtMost(Appended(start, history[..n], r), r, R)
  }

  /** Amortised cost of collapsing: `2 * r * (R + 2)` records per appended block, on top of what
      the list had saved at the start. */
  lemma {:induction false} RunIsPaid<V>(start: seq<Block<V>>, history: seq<Block<V>>, r: nat, R: nat)
    requires r > 0 && GoodBlocks(start) && RanksIncrease(start, r) && SmallBlocks(history, r)
    requires RunRanksAtMost(start, history, r, R)
    ensures RanksAtMost(start, r, R) && RanksAtMost(Appended(start, history, r), r, R)
    ensures RunReads(start, history, r) + Potential(Appended(start, history, r), r, R)
         <= Potential(start, r, R) + 2 * r * |history| * (R + 2)
    decreases |history|
  {
    hide AsMap, SortedEntries, Union, StrictlySorted, Rank, Collapse, CollapseReads;
    assert history[..|history|] == history;
    if history == [] {
      assert RanksAtMost(Appended(start, history[..0], r), r, R);
    } else {
      var n := |history| - 1;
      var before, b := Appended(start, history[..n], r), history[n];
      forall m | 0 <= m <= n ensures RanksAtMost(Appended(start, history[..n][..m], r), r, R) {
        assert history[..n][..m] == history[..m];
      }
      RunIsPaid(start, history[..n], r, R);
      SmallBlocksAreAppendable(start, history[..n], r);
      RunKeeps(start, history[..n], r);
      SmallBlockHasRankZero(|b|, r);
      CascadeStart(b, before, r);
      CascadeIsPaid([b] + before, r, R);
      PotentialCons(b, before, r, R);
      PerBlock(r, n, R);
    }
  }

  lemma PerBlock(r: nat, n: nat, R: nat)
    ensures BlockPotential(0, r, R) + 2 * r * n * (R + 2) == 2 * r * (n + 1) * (R + 2)
  {
    assert r * Pow2(0) == r;
    assert 2 * r * (n + 1) == 2 * r * n + 2 * r;
  }

  // ---------------------------------------------------------------- without a bound on the ranks

  lemma {:induction false} CollapseNeverGrows<V>(blocks: seq<Block<V>>, r: nat)
    requires r > 0 && GoodBlocks(blocks)
    ensures TotalSize(Collapse(blocks, r)) <= TotalSize(blocks)
    decreases |blocks|
  {
    hide AsMap, SortedEntries, Union, StrictlySorted, Rank, TotalSize, MergedPair;
    if Collapses(blocks, r) {
      var c, rest := CollapseOnce(blocks), blocks[2..];
      CollapseOnceIsGood(blocks);
      MergedPairOverlays(blocks[1], blocks[0]);
      CollapseNeverGrows(c, r);
      TotalSizeConcat([c[0]], rest);
      TotalSizeConcat([blocks[0], blocks[1]], rest);
      assert blocks == [blocks[0], blocks[1]] + rest && c == [c[0]] + rest;
      TotalSizePair(blocks[0], blocks[1]);
      TotalSizeSingle(c[0]);
    }
  }

  lemma {:induction false} SizeAtMostTotal<T>(ss: seq<seq<T>>, i: nat)
    requires i < |ss|
    ensures |ss[i]| <= TotalSize(ss)
    decreases |ss|
  {
    if i < |ss| - 1 {
      SizeAtMostTotal(ss[..|ss| - 1], i);
    }
  }

  lemma {:induction false} AppendedSize<V>(history: seq<Block<V>>, r: nat)
    requires r > 0 && SmallBlocks(history, r)
    ensures TotalSize(Appended([], history, r)) <= r * |history|
    decreases |history|
  {
    hide Collapse, AsMap, StrictlySorted, TotalSize;
    if history == [] {
      NothingHasNoSize<KeyValue<V>>();
    } else {
      var n := |history| - 1;
      var before, b := Appended([], history[..n], r), history[n];
      AppendedSize(history[..n], r);
      var none: seq<Block<V>> := [];
      SmallBlocksAreAppendable(none, history[..n], r);
      RunKeeps(none, history[..n], r);
      CollapseNeverGrows([b] + before, r);
      TotalSizeConcat([b], before);
      TotalSizeSingle(b);
      TimesNext(r, n, |history|);
    }
  }

  /** Starting from an empty list, `A` appended blocks cost at most `2 * r * A * (log2(A) + 2)`
      record reads. */
  lemma {:induction false} CollapsingIsLogarithmic<V>(history: seq<Block<V>>, r: nat)
    requires r > 0 && SmallBlocks(history, r) && history != []
    ensures RunReads([], history, r) <= 2 * r * |history| * (FloorLog2(|history|) + 2)
  {
    hide Appended, Rank, FloorLog2, StrictlySorted, RunReads;
    var R := FloorLog2(|history|);
    var none: seq<Block<V>> := [];
    forall n | 0 <= n <= |history| ensures RanksAtMost(Appended(none, history[..n], r), r, R) {
      AppendedRanks(history[..n], r, |history|);
    }
    RunIsPaid(none, history, r, R);
  }

  /** After at most `A` appends, ranks are at most the logarithm of `A`. */
  lemma {:induction false} AppendedRanks<V>(history: seq<Block<V>>, r: nat, A: nat)
    requires r > 0 && SmallBlocks(history, r) && |history| <= A && A > 0
    ensures RanksAtMost(Appended([], history, r), r, FloorLog2(A))
  {
    hide Appended, Rank, FloorLog2, StrictlySorted;
    var blocks := Appended([], history, r);
    AppendedSize(history, r);
    TimesMonotone(r, |history|, A);
    forall i | 0 <= i < |blocks| ensures Rank(|blocks[i]|, r) <= FloorLog2(A) {
      SizeAtMostTotal(blocks, i);
      RankOfPortions(|blocks[i]|, r, A);
    }
  }

  lemma RankOfPortions(size: nat, r: nat, A: nat)
    requires r > 0 && A > 0 && size <= r * A
    ensures Rank(size, r) <= FloorLog2(A)
  {
    if size > 0 {
      CeilDivPositive(size, r);
      CeilDivLeast(size, r, A);
      FloorLog2Monotone(CeilDiv(size, r), A);
    }
  }
}
