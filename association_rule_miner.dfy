/** The miner: it holds a transaction table and two thresholds, and builds
    the levels of frequent itemsets with the loops of the source, each proved
    to compute the corresponding function of FrequentSets. */
module Miner {
  import opened Failures
  import opened FrequentSets
  import opened DataParser

  /** The inner counting loop: how many transactions contain `itemSet`. */
  method CountSupport(itemSet: ItemSet, txs: seq<ItemSet>) returns (supportCount: nat)
    ensures supportCount == SupportCount(itemSet, txs)
  {
    supportCount := 0;
    var b := 0;
    while b < |txs|
      invariant 0 <= b <= |txs|
      invariant supportCount == SupportCount(itemSet, txs[..b])
    {
      assert txs[..b + 1][..b] == txs[..b];
      if itemSet <= txs[b] {
        supportCount := supportCount + 1;
      }
      b := b + 1;
    }
    assert txs[..b] == txs;
  }

  /** Level 1: a singleton per catalog product, kept when frequent. */
  method FrequentSingletons(n: nat, txs: seq<ItemSet>, t: Ratio) returns (level: Level)
    ensures level == Level1(n, txs, t)
  {
    var possible: Level := [];
    var p := 0;
    while p < n
      invariant 0 <= p <= n && |possible| == p
      invariant forall q :: 0 <= q < p ==> possible[q] == {q}
    {
      possible := possible + [{p}];
      p := p + 1;
    }
    level := [];
    var q := 0;
    while q < |possible|
      invariant 0 <= q <= |possible|
      invariant level == Level1(q, txs, t)
    {
      var itemSet := possible[q];
      var supportCount := CountSupport(itemSet, txs);
      if supportCount * t.den >= t.num * |txs| {
        level := level + [itemSet];
      }
      q := q + 1;
    }
  }

  /** Candidate generation: every set joined with each set after it that differs. */
  method JoinPairs(prev: Level) returns (possible: Level)
    ensures possible == Candidates(prev)
  {
    possible := [];
    var totalSets := |prev|;
    var setsJoined := 0;  // also the position of the set being joined
    while setsJoined < totalSets
      invariant 0 <= setsJoined <= totalSets
      invariant possible == CandidatesUpto(prev, setsJoined)
    {
      var itemSet := prev[setsJoined];
      var i := setsJoined + 1;
      ghost var before := possible;
      while i < totalSets
        invariant setsJoined + 1 <= i <= totalSets
        invariant possible == before + JoinRow(prev, setsJoined, i)
      {
        var setToJoin := prev[i];
        ghost var row := JoinRow(prev, setsJoined, i);
        if setToJoin != itemSet {
          possible := possible + [itemSet + setToJoin];
          assert JoinRow(prev, setsJoined, i + 1) == row + [itemSet + setToJoin];
        } else {
          assert JoinRow(prev, setsJoined, i + 1) == row;
        }
        i := i + 1;
      }
      assert CandidatesUpto(prev, setsJoined + 1) == before + JoinRow(prev, setsJoined, totalSets);
      setsJoined := setsJoined + 1;
    }
  }

  /** The support filter of a later level, dropping repeats. */
  method KeepFrequent(possible: Level, txs: seq<ItemSet>, t: Ratio) returns (valid: Level)
    ensures valid == Survivors(possible, txs, t)
  {
    valid := [];
    var c := 0;
    while c < |possible|
      invariant 0 <= c <= |possible|
      invariant valid == Survivors(possible[..c], txs, t)
    {
      assert possible[..c + 1][..c] == possible[..c];
      var itemSet := possible[c];
      var supportCount := CountSupport(itemSet, txs);
      if supportCount * t.den >= t.num * |txs| && itemSet !in valid {
        valid := valid + [itemSet];
      }
      c := c + 1;
    }
    assert possible[..c] == possible;
  }

  function CatalogSize(catalog: Option<seq<Product>>): Option<nat> {
    if catalog.Some? then Some(|catalog.value|) else None
  }

  class AssociationRuleMiner {
    var basketData: DataBasket
    var supportThreshold: Ratio
    var confidenceThreshold: Ratio
    var frequentItemSets: seq<Level>

    constructor(basketData: DataBasket, supportThreshold: Ratio, confidenceThreshold: Ratio)
      ensures this.basketData == basketData
      ensures this.supportThreshold == supportThreshold && this.confidenceThreshold == confidenceThreshold
      ensures frequentItemSets == []
    {
      this.basketData := basketData;
      this.supportThreshold := supportThreshold;
      this.confidenceThreshold := confidenceThreshold;
      frequentItemSets := [];
    }

    /** `build_frequent_item_sets`: the levels go into `frequentItemSets`;
        after a failure that list is empty. */
    method BuildFrequentItemSets() returns (r: Outcome)
      requires basketData.Valid()
      modifies this, basketData
      ensures basketData == old(basketData)
      ensures supportThreshold == old(supportThreshold) && confidenceThreshold == old(confidenceThreshold)
      ensures basketData.Valid()
      ensures basketData.productsList == old(basketData.productsList)
      ensures basketData.basketMatrix == old(basketData.basketMatrix)
      ensures var mined := Mine(CatalogSize(basketData.productsList),
                                ItemSetsOf(basketData.productsList, basketData.basketMatrix),
                                supportThreshold);
        && (mined.Ok? ==> r == Pass && frequentItemSets == mined.value)
        && (mined.Err? ==> r == Fail(mined.error) && frequentItemSets == [])
      ensures r != Fail(EmptyTable)
    {
      frequentItemSets := [];
      var basket := basketData;
      var t := supportThreshold;
      if basket.productsList.None? {
        return Fail(NoCatalog);
      }
      var n := |basket.productsList.value|;
      if n == 0 {
        frequentItemSets := [[]];
        return Pass;
      }
      var got := basket.ItemSets();
      if got.Err? {
        return Fail(got.error);
      }
      var txs := got.value;
      // The division by zero of the source cannot happen here: a stored matrix has a row.
      StoredTableNotEmpty(basket.productsList, basket.basketMatrix);
      assert |txs| > 0;
      var level1 := FrequentSingletons(n, txs, t);
      frequentItemSets := [level1];
      Level1Shape(n, txs, t);
      var k := 1;
      while |frequentItemSets[|frequentItemSets| - 1]| > 1
        invariant k == |frequentItemSets| >= 1
        invariant LevelShape(frequentItemSets[k - 1], n, k)
        invariant MineFrom(frequentItemSets, n, txs, t) == Levels(n, txs, t)
        invariant basketData == basket && supportThreshold == t && confidenceThreshold == old(confidenceThreshold)
        invariant basket.Valid() && basket.productsList == old(basket.productsList)
        invariant basket.basketMatrix == old(basket.basketMatrix)
        decreases n - k
      {
        var prev := frequentItemSets[k - 1];
        LevelIndexBound(prev, n, k);
        NextLevelShape(prev, n, k, txs, t);
        var possible := JoinPairs(prev);
        var valid := KeepFrequent(possible, txs, t);
        frequentItemSets := frequentItemSets + [valid];
        k := k + 1;
      }
      return Pass;
    }
  }
}
