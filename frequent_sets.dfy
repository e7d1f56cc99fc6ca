/** The levelled frequent-itemset search, as functions on values: support
    counting, level 1, pairwise candidate joins, the support filter with
    duplicate removal, and the level loop with its termination argument.
    Products are catalog indices, so an itemset is a set of indices below
    the catalog size `n`, and a transaction is the set of indices bought. */
module FrequentSets {
  import opened Failures
  import opened DataParser

  type Level = seq<ItemSet>

  type Positive = d: int | d > 0 witness 1

  /** A support threshold `num / den`. */
  datatype Ratio = Ratio(num: int, den: Positive)

  // ---------------------------------------------------------------------
  // Support

  /** How many transactions contain `s`. */
  function SupportCount(s: ItemSet, txs: seq<ItemSet>): (c: nat)
    ensures c <= |txs|
  {
    if txs == [] then 0
    else SupportCount(s, txs[..|txs| - 1]) + (if s <= txs[|txs| - 1] then 1 else 0)
  }

  /** The positions of the transactions that contain `s`. */
  function Containing(s: ItemSet, txs: seq<ItemSet>): set<nat> {
    set i: nat | i < |txs| && s <= txs[i]
  }

  lemma {:induction false} SupportCountIsCardinality(s: ItemSet, txs: seq<ItemSet>)
    ensures SupportCount(s, txs) == |Containing(s, txs)|
  {
    if txs != [] {
      var m := |txs| - 1;
      var prefix := txs[..m];
      SupportCountIsCardinality(s, prefix);
      var before := Containing(s, prefix);
      assert before == set i: nat | i < m && s <= txs[i];
      if s <= txs[m] {
        assert Containing(s, txs) == before + {m};
      } else {
        assert Containing(s, txs) == before;
      }
    }
  }

  /** Support is anti-monotone: a larger itemset is contained in no more transactions. */
  lemma {:induction false} SupportAntiMonotone(s: ItemSet, t: ItemSet, txs: seq<ItemSet>)
    requires s <= t
    ensures SupportCount(t, txs) <= SupportCount(s, txs)
  {
    if txs != [] {
      SupportAntiMonotone(s, t, txs[..|txs| - 1]);
    }
  }

  /** `count / |txs| >= num / den`, cleared of its denominators. */
  predicate Frequent(s: ItemSet, txs: seq<ItemSet>, t: Ratio) {
    SupportCount(s, txs) * t.den >= t.num * |txs|
  }

  /** The integer test agrees with the division the support test is written with. */
  lemma FrequentIsRatioTest(s: ItemSet, txs: seq<ItemSet>, t: Ratio)
    requires |txs| > 0
    ensures Frequent(s, txs, t) <==>
            (SupportCount(s, txs) as real) / (|txs| as real) >= (t.num as real) / (t.den as real)
  {
    CrossMultiply(SupportCount(s, txs), |txs|, t.num, t.den);
  }

  /** `c / n >= a / b` exactly when `c * b >= a * n`, for positive `n` and `b`. */
  lemma CrossMultiply(c: int, n: int, a: int, b: int)
    requires n > 0 && b > 0
    ensures c * b >= a * n <==> (c as real) / (n as real) >= (a as real) / (b as real)
  {
    var cr, nr, ar, br := c as real, n as real, a as real, b as real;
    var x, y := cr / nr, ar / br;
    assert x * nr == cr;
    assert y * br == ar;
    assert (c * b) as real == cr * br;
    assert (a * n) as real == ar * nr;
    assert cr * br == x * (nr * br);
    assert ar * nr == y * (nr * br);
    ScalePositive(x, y, nr * br);
  }

  lemma ScalePositive(x: real, y: real, p: real)
    requires p > 0.0
    ensures x >= y <==> x * p >= y * p
  {
    assert x * p - y * p == (x - y) * p;
  }

  // ---------------------------------------------------------------------
  // Level 1

  /** The singletons `{p}` for `p < n`, in catalog order, that are frequent. */
  function Level1(n: nat, txs: seq<ItemSet>, t: Ratio): Level {
    if n == 0 then []
    else Level1(n - 1, txs, t) + (if Frequent({n - 1}, txs, t) then [{n - 1}] else [])
  }

  lemma {:induction false} Level1Members(n: nat, txs: seq<ItemSet>, t: Ratio)
    ensures forall x :: x in Level1(n, txs, t) ==> |x| == 1 && Frequent(x, txs, t)
    ensures forall p: nat :: p < n ==> ({p} in Level1(n, txs, t) <==> Frequent({p}, txs, t))
    ensures forall x, e :: x in Level1(n, txs, t) && e in x ==> e < n
  {
    if n > 0 {
      Level1Members(n - 1, txs, t);
      forall p: nat | p < n - 1 ensures {p} != {n - 1} {
        assert p !in {n - 1};
      }
    }
  }

  /** Level 1 lists its singletons in catalog order. */
  lemma {:induction false} Level1Ordered(n: nat, txs: seq<ItemSet>, t: Ratio)
    ensures forall i, j, a, b :: 0 <= i < j < |Level1(n, txs, t)| && a in Level1(n, txs, t)[i] && b in Level1(n, txs, t)[j] ==> a < b
  {
    if n > 0 {
      Level1Ordered(n - 1, txs, t);
      Level1Members(n - 1, txs, t);
      var prev := Level1(n - 1, txs, t);
      var L := Level1(n, txs, t);
      forall i, j, a, b | 0 <= i < j < |L| && a in L[i] && b in L[j] ensures a < b {
        if j >= |prev| {
          assert L[j] == {n - 1};
          assert L[i] == prev[i];
          assert L[i] in prev;
        } else {
          assert L[i] == prev[i] && L[j] == prev[j];
        }
      }
    }
  }

  // ---------------------------------------------------------------------
  // Candidate generation: the union of every positional pair i < j whose
  // sets differ, in the order the nested loops produce them

  /** The joins of `L[a]` with `L[a+1 .. hi-1]`. */
  function JoinRow(L: Level, a: nat, hi: nat): Level
    requires a < |L| && hi <= |L|
    decreases hi
  {
    if hi <= a + 1 then []
    else JoinRow(L, a, hi - 1) + (if L[hi - 1] == L[a] then [] else [L[a] + L[hi - 1]])
  }

  /** The joins made by the first `m` passes of the outer loop. */
  function CandidatesUpto(L: Level, m: nat): Level
    requires m <= |L|
  {
    if m == 0 then [] else CandidatesUpto(L, m - 1) + JoinRow(L, m - 1, |L|)
  }

  function Candidates(L: Level): Level {
    CandidatesUpto(L, |L|)
  }

  /** The pair predicate the joins are drawn from. */
  ghost predicate IsJoin(L: Level, c: ItemSet, lo: nat, hiOuter: nat) {
    exists i, j :: lo <= i < hiOuter && i < j < |L| && L[i] != L[j] && c == L[i] + L[j]
  }

  lemma {:induction false} JoinRowMembers(L: Level, a: nat, hi: nat)
    requires a < |L| && hi <= |L|
    ensures forall c :: c in JoinRow(L, a, hi) <==> exists j :: a < j < hi && L[a] != L[j] && c == L[a] + L[j]
    decreases hi
  {
    if hi > a + 1 {
      JoinRowMembers(L, a, hi - 1);
    }
  }

  lemma {:induction false} CandidatesUptoMembers(L: Level, m: nat)
    requires m <= |L|
    ensures forall c :: c in CandidatesUpto(L, m) <==> IsJoin(L, c, 0, m)
  {
    if m > 0 {
      CandidatesUptoMembers(L, m - 1);
      JoinRowMembers(L, m - 1, |L|);
      forall c ensures c in CandidatesUpto(L, m) <==> IsJoin(L, c, 0, m) {
        if IsJoin(L, c, 0, m) {
          var i, j :| 0 <= i < m && i < j < |L| && L[i] != L[j] && c == L[i] + L[j];
          if i < m - 1 {
            assert IsJoin(L, c, 0, m - 1);
          } else {
            assert c in JoinRow(L, m - 1, |L|);
          }
        }
        if c in JoinRow(L, m - 1, |L|) {
          var j :| m - 1 < j < |L| && L[m - 1] != L[j] && c == L[m - 1] + L[j];
          assert IsJoin(L, c, 0, m);
        }
        if IsJoin(L, c, 0, m - 1) {
          var i, j :| 0 <= i < m - 1 && i < j < |L| && L[i] != L[j] && c == L[i] + L[j];
          assert IsJoin(L, c, 0, m);
        }
      }
    }
  }

  /** A candidate is exactly the union of the sets at two positions i < j that differ. */
  lemma CandidatesMembers(L: Level)
    ensures forall c :: c in Candidates(L) <==> exists i, j :: 0 <= i < j < |L| && L[i] != L[j] && c == L[i] + L[j]
  {
    CandidatesUptoMembers(L, |L|);
  }

  // ---------------------------------------------------------------------
  // Support filter with duplicate removal, first appearance kept

  function Survivors(cands: Level, txs: seq<ItemSet>, t: Ratio): Level {
    if cands == [] then []
    else
      var kept := Survivors(cands[..|cands| - 1], txs, t);
      var c := cands[|cands| - 1];
      if Frequent(c, txs, t) && c !in kept then kept + [c] else kept
  }

  ghost predicate NoDuplicates(L: Level) {
    forall i, j :: 0 <= i < j < |L| ==> L[i] != L[j]
  }

  /** The position of the first occurrence of `x` in `s`. */
  function FirstIndex(s: Level, x: ItemSet): (k: nat)
    requires x in s
    ensures k < |s| && s[k] == x && forall i :: 0 <= i < k ==> s[i] != x
  {
    if s[0] == x then 0 else 1 + FirstIndex(s[1..], x)
  }

  lemma {:induction false} SurvivorsSpec(cands: Level, txs: seq<ItemSet>, t: Ratio)
    ensures forall x :: x in Survivors(cands, txs, t) <==> x in cands && Frequent(x, txs, t)
    ensures NoDuplicates(Survivors(cands, txs, t))
  {
    if cands != [] {
      var prefix := cands[..|cands| - 1];
      SurvivorsSpec(prefix, txs, t);
      assert cands == prefix + [cands[|cands| - 1]];
    }
  }

  lemma FirstIndexPrefix(s: Level, u: Level, x: ItemSet)
    requires x in s
    ensures FirstIndex(s + u, x) == FirstIndex(s, x)
  {
    var k := FirstIndex(s, x);
    assert (s + u)[k] == x;
  }

  /** `S` lists members of `cands` in the order of their first occurrence there. */
  ghost predicate InFirstOrder(S: Level, cands: Level) {
    && (forall x :: x in S ==> x in cands)
    && (forall i, j :: 0 <= i < j < |S| ==> FirstIndex(cands, S[i]) < FirstIndex(cands, S[j]))
  }

  /** Appending a candidate keeps the first occurrences of earlier ones. */
  lemma OrderWiden(S: Level, prefix: Level, c: ItemSet)
    requires InFirstOrder(S, prefix)
    ensures InFirstOrder(S, prefix + [c])
  {
    forall x | x in S ensures FirstIndex(prefix + [c], x) == FirstIndex(prefix, x) {
      FirstIndexPrefix(prefix, [c], x);
    }
  }

  /** A new candidate kept at the end comes after every earlier survivor. */
  lemma OrderExtend(S: Level, prefix: Level, c: ItemSet)
    requires InFirstOrder(S, prefix) && c !in prefix
    ensures InFirstOrder(S + [c], prefix + [c])
  {
    OrderWiden(S, prefix, c);
    var cands := prefix + [c];
    assert FirstIndex(cands, c) == |prefix|;
    var S' := S + [c];
    forall i, j | 0 <= i < j < |S'| ensures FirstIndex(cands, S'[i]) < FirstIndex(cands, S'[j]) {
      assert S'[i] == S[i] && S[i] in S;
      if j < |S| {
        assert S'[j] == S[j] && S[j] in S;
      }
    }
  }

  /** Survivors appear in the order of their first appearance among the candidates. */
  lemma {:induction false} SurvivorsOrder(cands: Level, txs: seq<ItemSet>, t: Ratio)
    ensures forall x :: x in Survivors(cands, txs, t) ==> x in cands
    ensures forall i, j :: 0 <= i < j < |Survivors(cands, txs, t)| ==>
      FirstIndex(cands, Survivors(cands, txs, t)[i]) < FirstIndex(cands, Survivors(cands, txs, t)[j])
  {
    SurvivorsOrderInduction(cands, txs, t);
  }

  lemma {:induction false} SurvivorsOrderInduction(cands: Level, txs: seq<ItemSet>, t: Ratio)
    ensures InFirstOrder(Survivors(cands, txs, t), cands)
  {
    if cands != [] {
      var m := |cands| - 1;
      var prefix := cands[..m];
      var c := cands[m];
      SurvivorsOrderInduction(prefix, txs, t);
      SurvivorsSpec(prefix, txs, t);
      assert cands == prefix + [c];
      var kept := Survivors(prefix, txs, t);
      if Frequent(c, txs, t) && c !in kept {
        OrderExtend(kept, prefix, c);
      } else {
        OrderWiden(kept, prefix, c);
      }
    }
  }

  /** One pass of the level loop: join the previous level's pairs, keep the frequent ones once. */
  function NextLevel(L: Level, txs: seq<ItemSet>, t: Ratio): Level {
    Survivors(Candidates(L), txs, t)
  }

  // ---------------------------------------------------------------------
  // The shape every level keeps, and why the loop terminates

  /** Level number `k` (1-based): distinct itemsets of at least `k` catalog indices below `n`. */
  ghost predicate LevelShape(L: Level, n: nat, k: nat) {
    && NoDuplicates(L)
    && (forall x :: x in L ==> |x| >= k)
    && (forall x, e :: x in L && e in x ==> e < n)
  }

  /** A set of indices below `n` has at most `n` members. */
  lemma {:induction false} BoundedCard(x: ItemSet, n: nat)
    requires forall e :: e in x ==> e < n
    ensures |x| <= n
  {
    if n > 0 {
      var y := x - {n - 1};
      BoundedCard(y, n - 1);
    } else {
      assert x == {};
    }
  }

  /** A subset has no more members. */
  lemma {:induction false} SubsetCard<T>(x: set<T>, y: set<T>)
    requires x <= y
    ensures |x| <= |y|
  {
    if x != {} {
      var e :| e in x;
      SubsetCard(x - {e}, y - {e});
    }
  }

  /** A proper subset has fewer members. */
  lemma StrictSubsetCard(x: ItemSet, y: ItemSet)
    requires x < y
    ensures |x| < |y|
  {
    var e :| e in y && e !in x;
    SubsetCard(x, y - {e});
  }

  /** The union of two different sets of at least `k` members has at least `k + 1`. */
  lemma UnionGrows(a: ItemSet, b: ItemSet, k: nat)
    requires a != b && |a| >= k && |b| >= k
    ensures |a + b| >= k + 1
  {
    if b <= a {
      StrictSubsetCard(b, a);
      assert a + b == a;
    } else {
      StrictSubsetCard(a, a + b);
    }
  }

  lemma Level1Shape(n: nat, txs: seq<ItemSet>, t: Ratio)
    ensures LevelShape(Level1(n, txs, t), n, 1)
  {
    Level1Members(n, txs, t);
    Level1Ordered(n, txs, t);
    var L := Level1(n, txs, t);
    forall i, j | 0 <= i < j < |L| ensures L[i] != L[j] {
      assert L[i] in L;
      var a :| a in L[i];
    }
  }

  /** Two distinct sets at level `k` leave room for another level: `k < n`. */
  lemma LevelIndexBound(L: Level, n: nat, k: nat)
    requires LevelShape(L, n, k) && |L| >= 2
    ensures k < n
  {
    assert L[0] in L && L[1] in L;
    UnionGrows(L[0], L[1], k);
    BoundedCard(L[0] + L[1], n);
  }

  /** The level loop keeps the shape, one level up. */
  lemma NextLevelShape(L: Level, n: nat, k: nat, txs: seq<ItemSet>, t: Ratio)
    requires LevelShape(L, n, k)
    ensures LevelShape(NextLevel(L, txs, t), n, k + 1)
  {
    CandidatesMembers(L);
    SurvivorsSpec(Candidates(L), txs, t);
    var N := NextLevel(L, txs, t);
    forall x | x in N ensures |x| >= k + 1 && forall e :: e in x ==> e < n {
      var i, j :| 0 <= i < j < |L| && L[i] != L[j] && x == L[i] + L[j];
      assert L[i] in L && L[j] in L;
      UnionGrows(L[i], L[j], k);
    }
  }

  // ---------------------------------------------------------------------
  // The level loop

  /** Keep appending the next level while the last one has more than one itemset. */
  function MineFrom(levels: seq<Level>, n: nat, txs: seq<ItemSet>, t: Ratio): seq<Level>
    requires |levels| > 0 && LevelShape(levels[|levels| - 1], n, |levels|)
    decreases n - |levels|
  {
    var last := levels[|levels| - 1];
    if |last| <= 1 then levels
    else
      LevelIndexBound(last, n, |levels|);
      NextLevelShape(last, n, |levels|, txs, t);
      MineFrom(levels + [NextLevel(last, txs, t)], n, txs, t)
  }

  /** All levels for a catalog of `n` products over transactions `txs`. */
  function Levels(n: nat, txs: seq<ItemSet>, t: Ratio): seq<Level> {
    Level1Shape(n, txs, t);
    MineFrom([Level1(n, txs, t)], n, txs, t)
  }

  /** Frequent-itemset mining as a whole: the failures of the source, then the levels. */
  function Mine(catalogSize: Option<nat>, itemSets: Result<seq<ItemSet>>, t: Ratio): (r: Result<seq<Level>>)
    ensures r.Err? <==> catalogSize.None? || (catalogSize.value > 0 && (itemSets.Err? || |itemSets.value| == 0))
    ensures catalogSize.Some? && catalogSize.value == 0 ==> r == Ok([[]])
    ensures r.Err? && catalogSize.Some? && itemSets.Ok? ==> r.error == EmptyTable
    ensures catalogSize.None? ==> r == Err(NoCatalog)
    ensures catalogSize.Some? && catalogSize.value > 0 && itemSets.Err? ==> r == Err(itemSets.error)
    ensures r.Ok? && catalogSize.value > 0 ==> r.value == Levels(catalogSize.value, itemSets.value, t)
  {
    match catalogSize
    case None => Err(NoCatalog)
    case Some(n) =>
      if n == 0 then Ok([[]])
      else match itemSets
        case Err(e) => Err(e)
        case Ok(txs) => if |txs| == 0 then Err(EmptyTable) else Ok(Levels(n, txs, t))
  }

  // ---------------------------------------------------------------------
  // What the level loop promises

  /** The facts about a finished run, from level `from` on. */
  lemma {:induction false} MineFromFacts(levels: seq<Level>, n: nat, txs: seq<ItemSet>, t: Ratio)
    requires |levels| > 0 && LevelShape(levels[|levels| - 1], n, |levels|)
    ensures var r := MineFrom(levels, n, txs, t);
      && |levels| <= |r|
      && r[..|levels|] == levels
      && (forall k :: |levels| <= k < |r| ==> r[k] == NextLevel(r[k - 1], txs, t))
      && (forall k :: |levels| - 1 <= k < |r| ==> LevelShape(r[k], n, k + 1))
      && (forall k :: |levels| - 1 <= k < |r| - 1 ==> |r[k]| >= 2)
      && |r[|r| - 1]| <= 1
      && (|r| == |levels| || |r| <= n)
    decreases n - |levels|
  {
    var last := levels[|levels| - 1];
    if |last| > 1 {
      LevelIndexBound(last, n, |levels|);
      NextLevelShape(last, n, |levels|, txs, t);
      var next := levels + [NextLevel(last, txs, t)];
      MineFromFacts(next, n, txs, t);
      var r := MineFrom(levels, n, txs, t);
      assert r == MineFrom(next, n, txs, t);
      assert r[..|levels|] == r[..|next|][..|levels|];
      assert r[|levels|] == NextLevel(last, txs, t);
    }
  }

  /** Level 1 is the frequent singletons; the shape holds at every level. */
  lemma LevelsFirst(n: nat, txs: seq<ItemSet>, t: Ratio)
    ensures |Levels(n, txs, t)| >= 1 && Levels(n, txs, t)[0] == Level1(n, txs, t)
  {
    Level1Shape(n, txs, t);
    MineFromFacts([Level1(n, txs, t)], n, txs, t);
  }

  /** Every itemset at every level is frequent, is a set of at least `k` catalog
      indices at level `k`, and no level repeats an itemset. */
  lemma LevelsSound(n: nat, txs: seq<ItemSet>, t: Ratio)
    ensures forall k, x :: 0 <= k < |Levels(n, txs, t)| && x in Levels(n, txs, t)[k] ==> Frequent(x, txs, t)
    ensures forall k :: 0 <= k < |Levels(n, txs, t)| ==> LevelShape(Levels(n, txs, t)[k], n, k + 1)
  {
    Level1Shape(n, txs, t);
    Level1Members(n, txs, t);
    var r := Levels(n, txs, t);
    MineFromFacts([Level1(n, txs, t)], n, txs, t);
    forall k, x | 0 <= k < |r| && x in r[k] ensures Frequent(x, txs, t) {
      if k > 0 {
        SurvivorsSpec(Candidates(r[k - 1]), txs, t);
      }
    }
  }

  /** Each itemset at a later level is the union of two differing itemsets at
      positions i < j of the level before, and every such union that is
      frequent is there. */
  lemma LevelsJoin(n: nat, txs: seq<ItemSet>, t: Ratio, k: nat)
    requires 1 <= k < |Levels(n, txs, t)|
    ensures var prev, cur := Levels(n, txs, t)[k - 1], Levels(n, txs, t)[k];
      forall x :: x in cur <==> Frequent(x, txs, t) && exists i, j :: 0 <= i < j < |prev| && prev[i] != prev[j] && x == prev[i] + prev[j]
  {
    Level1Shape(n, txs, t);
    var r := Levels(n, txs, t);
    MineFromFacts([Level1(n, txs, t)], n, txs, t);
    CandidatesMembers(r[k - 1]);
    SurvivorsSpec(Candidates(r[k - 1]), txs, t);
  }

  /** A later level keeps its itemsets in the order they were first generated. */
  lemma LevelsOrder(n: nat, txs: seq<ItemSet>, t: Ratio, k: nat)
    requires 1 <= k < |Levels(n, txs, t)|
    ensures var cands, cur := Candidates(Levels(n, txs, t)[k - 1]), Levels(n, txs, t)[k];
      && (forall x :: x in cur ==> x in cands)
      && (forall i, j :: 0 <= i < j < |cur| ==> FirstIndex(cands, cur[i]) < FirstIndex(cands, cur[j]))
  {
    Level1Shape(n, txs, t);
    var r := Levels(n, txs, t);
    MineFromFacts([Level1(n, txs, t)], n, txs, t);
    SurvivorsOrder(Candidates(r[k - 1]), txs, t);
  }

  /** The loop stops at the first level with at most one itemset, and after at
      most `n` levels when the catalog is not empty. */
  lemma LevelsStop(n: nat, txs: seq<ItemSet>, t: Ratio)
    ensures var r := Levels(n, txs, t);
      && |r| >= 1
      && (forall k :: 0 <= k < |r| - 1 ==> |r[k]| >= 2)
      && |r[|r| - 1]| <= 1
      && |r| <= if n == 0 then 1 else n
  {
    Level1Shape(n, txs, t);
    MineFromFacts([Level1(n, txs, t)], n, txs, t);
    if n == 0 {
      var r := Levels(n, txs, t);
      assert Level1(0, txs, t) == [];
      assert |r[0]| <= 1;
    }
  }

  // ---------------------------------------------------------------------
  // Raising the threshold

  /** Threshold `hi` is at least threshold `lo`. */
  predicate AtLeast(hi: Ratio, lo: Ratio) {
    hi.num * lo.den >= lo.num * hi.den
  }

  /** Whatever passes a higher threshold passes a lower one. */
  lemma FrequentAtLower(x: ItemSet, txs: seq<ItemSet>, hi: Ratio, lo: Ratio)
    requires AtLeast(hi, lo) && Frequent(x, txs, hi)
    ensures Frequent(x, txs, lo)
  {
  }

  /** A list of distinct itemsets is as long as the set of its members. */
  lemma {:induction false} DistinctCard(S: Level)
    requires NoDuplicates(S)
    ensures |set x | x in S| == |S|
  {
    if S != [] {
      var m := |S| - 1;
      DistinctCard(S[..m]);
      assert (set x | x in S) == (set x | x in S[..m]) + {S[m]};
      assert S[m] !in (set x | x in S[..m]);
    }
  }

  /** Distinct itemsets drawn from a list of distinct itemsets are no more numerous. */
  lemma DistinctSubCount(S: Level, T: Level)
    requires NoDuplicates(S) && NoDuplicates(T)
    requires forall x :: x in S ==> x in T
    ensures |S| <= |T|
  {
    DistinctCard(S);
    DistinctCard(T);
    SubsetCard(set x | x in S, set x | x in T);
  }

  lemma {:induction false} Level1AtLower(n: nat, txs: seq<ItemSet>, hi: Ratio, lo: Ratio)
    requires AtLeast(hi, lo)
    ensures forall x :: x in Level1(n, txs, hi) ==> x in Level1(n, txs, lo)
  {
    if n > 0 {
      Level1AtLower(n - 1, txs, hi, lo);
      if Frequent({n - 1}, txs, hi) {
        FrequentAtLower({n - 1}, txs, hi, lo);
      }
    }
  }

  /** The next level of a sub-level at a higher threshold is a sub-level of the next level. */
  lemma NextLevelAtLower(A: Level, B: Level, txs: seq<ItemSet>, hi: Ratio, lo: Ratio)
    requires AtLeast(hi, lo)
    requires forall x :: x in B ==> x in A
    ensures forall x :: x in NextLevel(B, txs, hi) ==> x in NextLevel(A, txs, lo)
  {
    CandidatesMembers(A);
    CandidatesMembers(B);
    SurvivorsSpec(Candidates(A), txs, lo);
    SurvivorsSpec(Candidates(B), txs, hi);
    forall x | x in NextLevel(B, txs, hi) ensures x in NextLevel(A, txs, lo) {
      var i, j :| 0 <= i < j < |B| && B[i] != B[j] && x == B[i] + B[j];
      assert B[i] in B && B[j] in B;
      var i' :| 0 <= i' < |A| && A[i'] == B[i];
      var j' :| 0 <= j' < |A| && A[j'] == B[j];
      if i' < j' {
        assert x in Candidates(A);
      } else {
        assert x == A[j'] + A[i'];
        assert x in Candidates(A);
      }
      FrequentAtLower(x, txs, hi, lo);
    }
  }

  /** Two runs of the level loop in lockstep, the second at a higher threshold. */
  lemma {:induction false} MineFromAtLower(a: seq<Level>, b: seq<Level>, n: nat, txs: seq<ItemSet>, hi: Ratio, lo: Ratio)
    requires AtLeast(hi, lo)
    requires |a| == |b| > 0
    requires LevelShape(a[|a| - 1], n, |a|) && LevelShape(b[|b| - 1], n, |b|)
    requires forall k, x :: 0 <= k < |b| && x in b[k] ==> x in a[k]
    ensures |MineFrom(b, n, txs, hi)| <= |MineFrom(a, n, txs, lo)|
    ensures forall k, x :: 0 <= k < |MineFrom(b, n, txs, hi)| && x in MineFrom(b, n, txs, hi)[k] ==>
              x in MineFrom(a, n, txs, lo)[k]
    decreases n - |a|
  {
    MineFromFacts(a, n, txs, lo);
    var la, lb := a[|a| - 1], b[|b| - 1];
    if |lb| > 1 {
      DistinctSubCount(lb, la);
      LevelIndexBound(la, n, |a|);
      NextLevelShape(la, n, |a|, txs, lo);
      NextLevelShape(lb, n, |b|, txs, hi);
      NextLevelAtLower(la, lb, txs, hi, lo);
      var a', b' := a + [NextLevel(la, txs, lo)], b + [NextLevel(lb, txs, hi)];
      MineFromAtLower(a', b', n, txs, hi, lo);
    }
  }

  /** The number of itemsets over all levels. */
  function TotalItemSets(levels: seq<Level>): nat {
    if levels == [] then 0 else TotalItemSets(levels[..|levels| - 1]) + |levels[|levels| - 1]|
  }

  lemma {:induction false} TotalItemSetsLe(a: seq<Level>, b: seq<Level>)
    requires |b| <= |a|
    requires forall k :: 0 <= k < |b| ==> |b[k]| <= |a[k]|
    ensures TotalItemSets(b) <= TotalItemSets(a)
    decreases |a|
  {
    if |a| > 0 {
      var m := |a| - 1;
      if |b| == |a| {
        TotalItemSetsLe(a[..m], b[..m]);
      } else {
        TotalItemSetsLe(a[..m], b);
      }
    }
  }

  /** Raising the support threshold never adds a level, never adds an itemset
      to a level, and never increases the number of itemsets found. */
  lemma ThresholdMonotone(n: nat, txs: seq<ItemSet>, hi: Ratio, lo: Ratio)
    requires AtLeast(hi, lo)
    ensures |Levels(n, txs, hi)| <= |Levels(n, txs, lo)|
    ensures forall k, x :: 0 <= k < |Levels(n, txs, hi)| && x in Levels(n, txs, hi)[k] ==> x in Levels(n, txs, lo)[k]
    ensures TotalItemSets(Levels(n, txs, hi)) <= TotalItemSets(Levels(n, txs, lo))
  {
    Level1Shape(n, txs, hi);
    Level1Shape(n, txs, lo);
    Level1AtLower(n, txs, hi, lo);
    MineFromAtLower([Level1(n, txs, lo)], [Level1(n, txs, hi)], n, txs, hi, lo);
    var A, B := Levels(n, txs, lo), Levels(n, txs, hi);
    LevelsSound(n, txs, lo);
    LevelsSound(n, txs, hi);
    forall k | 0 <= k < |B| ensures |B[k]| <= |A[k]| {
      DistinctSubCount(B[k], A[k]);
    }
    TotalItemSetsLe(A, B);
  }
}
