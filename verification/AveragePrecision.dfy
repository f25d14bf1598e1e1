/** Average precision of a ranking by score (cote3mon/evaluation.py). */
module AveragePrecision {
  import opened Sorting

  datatype Item = Item(score: real, positive: bool)

  // ----- ranking: sorted(…, reverse=True), which keeps items of equal score in their order

  predicate Higher(a: Item, b: Item) {
    a.score > b.score
  }

  function Ranked(items: seq<Item>): (r: seq<Item>)
    ensures |r| == |items|
  {
    StableSorted(Higher, items)
  }

  ghost predicate Descending(items: seq<Item>) {
    forall i, j | 0 <= i <= j < |items| :: items[i].score >= items[j].score
  }

  function WithScore(items: seq<Item>, score: real): seq<Item> {
    if items == [] then []
    else (if items[0].score == score then [items[0]] else []) + WithScore(items[1..], score)
  }

  lemma {:induction false} AlikeHaveTheScore(items: seq<Item>, item: Item)
    ensures Alike(Higher, item, items) == WithScore(items, item.score)
  {
    if items != [] {
      AlikeHaveTheScore(items[1..], item);
    }
  }

  /** Scores descend, each item is there as often as given, and the items of each score are in the order given. */
  lemma {:induction false} RankedIsStableSort(items: seq<Item>, score: real)
    ensures Descending(Ranked(items)) && multiset(Ranked(items)) == multiset(items)
    ensures WithScore(Ranked(items), score) == WithScore(items, score)
  {
    hide StableSorted, Alike, WithScore;
    StableSortedIsSort(Higher, items);
    assert Ordered(Higher, Ranked(items));
    AlikeHaveTheScore(items, Item(score, true));
    AlikeHaveTheScore(Ranked(items), Item(score, true));
  }

  function Labels(items: seq<Item>): (labels: seq<bool>)
    ensures |labels| == |items| && forall i | 0 <= i < |items| :: labels[i] == items[i].positive
  {
    seq(|items|, i requires 0 <= i < |items| => items[i].positive)
  }

  // ----- the mean precision at the ranks of the positives

  function Hits(labels: seq<bool>): (hits: nat)
    ensures hits <= |labels|
  {
    if labels == [] then 0
    else Hits(labels[..|labels| - 1]) + (if labels[|labels| - 1] then 1 else 0)
  }

  /** The ranks, counted from 1, of the positives. */
  function PositiveRanks(labels: seq<bool>): (ranks: seq<nat>)
    ensures |ranks| == Hits(labels)
    ensures forall i, j | 0 <= i < j < |ranks| :: ranks[i] < ranks[j]
    ensures forall i | 0 <= i < |ranks| :: 1 <= ranks[i] <= |labels|
  {
    if labels == [] then []
    else PositiveRanks(labels[..|labels| - 1]) + (if labels[|labels| - 1] then [|labels|] else [])
  }

  lemma {:induction false} RanksArePositives(labels: seq<bool>, rank: nat)
    ensures rank in PositiveRanks(labels) <==> 1 <= rank <= |labels| && labels[rank - 1]
  {
    if labels != [] {
      RanksArePositives(labels[..|labels| - 1], rank);
    }
  }

  function Ratio(a: nat, b: nat): real
    requires b > 0
  {
    a as real / b as real
  }

  /** The sum over k of k divided by the k-th rank. */
  function RankSum(ranks: seq<nat>): real
    requires forall i | 0 <= i < |ranks| :: ranks[i] > 0
  {
    if ranks == [] then 0.0
    else RankSum(ranks[..|ranks| - 1]) + Ratio(|ranks|, ranks[|ranks| - 1])
  }

  // ----- the loop

  /** What one positive adds to the area under the curve. */
  function AreaStep(positives: nat, hits: nat, rank: nat): real
    requires positives > 0 && rank > 0
  {
    (Ratio(hits + 1, positives) - Ratio(hits, positives)) * Ratio(hits + 1, rank)
  }

  /** The sum of ranks ratios, over the number of positives. */
  function Area(labels: seq<bool>, positives: nat): real
    requires positives > 0
  {
    RankSum(PositiveRanks(labels)) / positives as real
  }

  function MeanPrecision(labels: seq<bool>): real
    requires Hits(labels) > 0
  {
    Area(labels, Hits(labels))
  }

  lemma {:induction false} RecallStep(positives: nat, before: real, hits: nat, rank: nat)
    requires positives > 0 && rank > 0
    ensures before / positives as real + AreaStep(positives, hits, rank)
            == (before + Ratio(hits + 1, rank)) / positives as real
  {
    var p, q := positives as real, Ratio(hits + 1, rank);
    assert Ratio(hits + 1, positives) - Ratio(hits, positives) == 1.0 / p;
  }

  lemma {:induction false} AreaGrows(labels: seq<bool>, positives: nat)
    requires positives > 0 && labels != []
    ensures Area(labels, positives) == Area(labels[..|labels| - 1], positives)
            + (if labels[|labels| - 1] then AreaStep(positives, Hits(labels) - 1, |labels|) else 0.0)
  {
    hide RankSum, PositiveRanks, Ratio, AreaStep;
    RankSumStep(labels);
    if labels[|labels| - 1] {
      RecallStep(positives, RankSum(PositiveRanks(labels[..|labels| - 1])), Hits(labels) - 1, |labels|);
    }
  }

  method AveragePrecisionOfRanking(labels: seq<bool>, positives: nat) returns (area: real)
    requires positives > 0
    ensures area == Area(labels, positives)
  {
    hide RankSum, PositiveRanks, Ratio, Area;
    var truePositives := 0;
    var previousRecall := 0.0;
    area := 0.0;
    NothingYet(positives);
    for rank := 0 to |labels|
      invariant truePositives == Hits(labels[..rank]) && previousRecall == Ratio(truePositives, positives)
      invariant area == Area(labels[..rank], positives)
    {
      assert labels[..rank + 1][..rank] == labels[..rank];
      AreaGrows(labels[..rank + 1], positives);
      if labels[rank] {
        truePositives := truePositives + 1;
        var recall := Ratio(truePositives, positives);
        var precision := Ratio(truePositives, rank + 1);
        area := area + (recall - previousRecall) * precision;
        previousRecall := recall;
      }
    }
    assert labels[..|labels|] == labels;
  }

  lemma {:induction false} NothingYet(positives: nat)
    requires positives > 0
    ensures Area([], positives) == 0.0 == Ratio(0, positives)
  {
  }

  method AveragePrecision(items: seq<Item>) returns (area: real)
    ensures Hits(Labels(items)) == 0 ==> area == 0.0
    ensures Hits(Labels(items)) > 0 ==>
      Hits(Labels(Ranked(items))) == Hits(Labels(items)) && area == MeanPrecision(Labels(Ranked(items)))
  {
    RankingKeepsHits(items);
    var positives := Hits(Labels(items));
    if positives == 0 {
      return 0.0;
    }
    area := AveragePrecisionOfRanking(Labels(Ranked(items)), positives);
  }

  lemma {:induction false} HitsFromFront(labels: seq<bool>)
    requires labels != []
    ensures Hits(labels) == (if labels[0] then 1 else 0) + Hits(labels[1..])
  {
    if |labels| > 1 {
      var shorter := labels[..|labels| - 1];
      HitsFromFront(shorter);
      assert shorter[1..] == labels[1..][..|labels| - 2];
    } else {
      assert labels[..0] == labels[1..] == [];
    }
  }

  lemma {:induction false} PlaceKeepsHits(item: Item, ranked: seq<Item>)
    ensures Hits(Labels(Place(Higher, item, ranked))) == (if item.positive then 1 else 0) + Hits(Labels(ranked))
  {
    hide Hits;
    var placed := Place(Higher, item, ranked);
    HitsFromFront(Labels(placed));
    assert Labels(placed)[1..] == Labels(placed[1..]);
    if ranked == [] || item.score >= ranked[0].score {
      assert placed[1..] == ranked;
    } else {
      PlaceKeepsHits(item, ranked[1..]);
      HitsFromFront(Labels(ranked));
      assert Labels(ranked)[1..] == Labels(ranked[1..]);
      assert placed[1..] == Place(Higher, item, ranked[1..]);
    }
  }

  lemma {:induction false} RankingKeepsHits(items: seq<Item>)
    ensures Hits(Labels(Ranked(items))) == Hits(Labels(items))
  {
    hide Hits;
    if items == [] {
      assert Labels(Ranked(items)) == Labels(items);
    } else {
      RankingKeepsHits(items[1..]);
      PlaceKeepsHits(items[0], Ranked(items[1..]));
      HitsFromFront(Labels(items));
      assert Labels(items)[1..] == Labels(items[1..]);
    }
  }

  // ----- what the number says about the ranking

  lemma {:induction false} RankSumStep(labels: seq<bool>)
    requires labels != []
    ensures RankSum(PositiveRanks(labels)) == RankSum(PositiveRanks(labels[..|labels| - 1]))
            + (if labels[|labels| - 1] then Ratio(Hits(labels), |labels|) else 0.0)
  {
    var ranks := PositiveRanks(labels);
    hide Ratio;
    if labels[|labels| - 1] {
      assert ranks[..|ranks| - 1] == PositiveRanks(labels[..|labels| - 1]);
    } else {
      assert ranks == PositiveRanks(labels[..|labels| - 1]);
    }
  }

  lemma {:induction false} QuotientSign(a: real, b: real)
    requires b > 0.0
    ensures a > 0.0 ==> a / b > 0.0
    ensures a == 0.0 ==> a / b == 0.0
    ensures a < 0.0 ==> a / b < 0.0
  {
  }

  lemma {:induction false} DifferenceOfQuotients(a: real, b: real, c: real)
    requires c > 0.0
    ensures (a - b) / c == a / c - b / c
  {
  }

  lemma {:induction false} QuotientOfSame(a: real)
    requires a > 0.0
    ensures a / a == 1.0
  {
  }

  lemma {:induction false} RatioBounds(a: nat, b: nat)
    requires a <= b && b > 0
    ensures 0.0 <= Ratio(a, b) <= 1.0
    ensures a > 0 ==> Ratio(a, b) > 0.0
    ensures Ratio(a, b) == 1.0 <==> a == b
  {
    QuotientSign(a as real, b as real);
    if a > 0 {
      QuotientBounds(a as real, b as real);
    }
  }

  lemma {:induction false} HitsAll(labels: seq<bool>)
    ensures Hits(labels) == |labels| <==> forall i | 0 <= i < |labels| :: labels[i]
  {
    if labels != [] {
      HitsAll(labels[..|labels| - 1]);
    }
  }

  lemma {:induction false} HitsOfPrefix(labels: seq<bool>, n: nat)
    requires n <= |labels|
    ensures Hits(labels[..n]) <= Hits(labels)
  {
    if n < |labels| {
      HitsOfPrefix(labels[..|labels| - 1], n);
      assert labels[..|labels| - 1][..n] == labels[..n];
    } else {
      assert labels[..n] == labels;
    }
  }

  /** Positives that come first and one that comes last leave no room for a negative. */
  lemma {:induction false} PositivesFirstAndLast(labels: seq<bool>)
    requires labels != [] && labels[|labels| - 1] && forall i | 0 <= i < Hits(labels) :: labels[i]
    ensures Hits(labels) == |labels|
  {
    var shorter, hits := labels[..|labels| - 1], Hits(labels);
    if hits < |labels| {
      var first := labels[..hits];
      assert forall i | 0 <= i < |first| :: first[i] == labels[i];
      HitsAll(first);
      assert shorter[..hits] == first;
      HitsOfPrefix(shorter, hits);
    }
  }

  lemma {:induction false} RankSumOfNone()
    ensures RankSum(PositiveRanks([])) == 0.0
  {
  }

  lemma {:induction false} RankSumBounds(labels: seq<bool>)
    ensures 0.0 <= RankSum(PositiveRanks(labels)) <= Hits(labels) as real
    ensures Hits(labels) > 0 ==> RankSum(PositiveRanks(labels)) > 0.0
    ensures RankSum(PositiveRanks(labels)) == Hits(labels) as real <==> forall i | 0 <= i < Hits(labels) :: labels[i]
  {
    hide RankSum, PositiveRanks, Ratio;
    if labels == [] {
      RankSumOfNone();
    } else {
      var shorter := labels[..|labels| - 1];
      RankSumStep(labels);
      RankSumBounds(shorter);
      HitsAll(labels);
      HitsAll(shorter);
      RatioBounds(Hits(labels), |labels|);
      if labels[|shorter|] && forall i | 0 <= i < Hits(labels) :: labels[i] {
        PositivesFirstAndLast(labels);
      }
    }
  }

  /** Average precision lies in (0, 1], and is 1 exactly when the positives fill the top of the ranking. */
  lemma {:induction false} PerfectIffPositivesFirst(labels: seq<bool>)
    requires Hits(labels) > 0
    ensures 0.0 < MeanPrecision(labels) <= 1.0
    ensures MeanPrecision(labels) == 1.0 <==> forall i | 0 <= i < Hits(labels) :: labels[i]
  {
    hide RankSum, PositiveRanks;
    RankSumBounds(labels);
    QuotientBounds(RankSum(PositiveRanks(labels)), Hits(labels) as real);
  }

  lemma {:induction false} QuotientBounds(a: real, b: real)
    requires 0.0 < a <= b
    ensures 0.0 < a / b <= 1.0
    ensures a / b == 1.0 <==> a == b
  {
    QuotientSign(a, b);
    QuotientSign(a - b, b);
    DifferenceOfQuotients(a, b, b);
    QuotientOfSame(b);
  }

  function Promoted(labels: seq<bool>, i: nat): (r: seq<bool>)
    requires i + 1 < |labels|
    ensures |r| == |labels|
  {
    labels[i := labels[i + 1]][i + 1 := labels[i]]
  }

  lemma {:induction false} EarlierRankCountsMore(hits: nat, rank: nat)
    requires hits > 0 && rank > 0
    ensures Ratio(hits, rank) > Ratio(hits, rank + 1)
  {
    var p, q := Ratio(hits, rank), Ratio(hits, rank + 1);
    assert p * rank as real == q * rank as real + q;
    assert q > 0.0;
    assert (p - q) * rank as real == q;
  }

  lemma {:induction false} PromotionRaisesSum(labels: seq<bool>, i: nat)
    requires i + 1 < |labels| && !labels[i] && labels[i + 1]
    ensures Hits(Promoted(labels, i)) == Hits(labels)
    ensures RankSum(PositiveRanks(Promoted(labels, i))) > RankSum(PositiveRanks(labels))
  {
    hide RankSum, PositiveRanks, Ratio;
    var better := Promoted(labels, i);
    var n := |labels|;
    RankSumStep(labels);
    RankSumStep(better);
    if i + 2 == n {
      assert better[..i] == labels[..i];
      assert better[..i + 1][..i] == labels[..i] == labels[..i + 1][..i];
      RankSumStep(labels[..i + 1]);
      RankSumStep(better[..i + 1]);
      EarlierRankCountsMore(Hits(labels), i + 1);
    } else {
      assert better[..n - 1] == Promoted(labels[..n - 1], i);
      PromotionRaisesSum(labels[..n - 1], i);
    }
  }

  /** Moving a positive ahead of the negative just above it strictly raises average precision. */
  lemma {:induction false} PromotionRaises(labels: seq<bool>, i: nat)
    requires i + 1 < |labels| && !labels[i] && labels[i + 1]
    ensures Hits(Promoted(labels, i)) == Hits(labels) > 0
    ensures MeanPrecision(Promoted(labels, i)) > MeanPrecision(labels)
  {
    hide RankSum, PositiveRanks;
    PromotionRaisesSum(labels, i);
    RankSumBounds(labels);
    HitsOfPrefix(labels, i + 2);
    assert labels[..i + 2][i + 1];
    QuotientOrder(RankSum(PositiveRanks(labels)), RankSum(PositiveRanks(Promoted(labels, i))), Hits(labels) as real);
  }

  lemma {:induction false} QuotientOrder(a: real, b: real, c: real)
    requires a < b && c > 0.0
    ensures a / c < b / c
  {
    QuotientSign(b - a, c);
    DifferenceOfQuotients(b, a, c);
  }

  // ----- only the order of the scores matters

  function Rescaled(items: seq<Item>, f: real -> real): (r: seq<Item>)
    ensures |r| == |items|
  {
    if items == [] then [] else [items[0].(score := f(items[0].score))] + Rescaled(items[1..], f)
  }

  lemma {:induction false} RescaledKeepsLabels(items: seq<Item>, f: real -> real)
    ensures Labels(Rescaled(items, f)) == Labels(items)
  {
    if items != [] {
      RescaledKeepsLabels(items[1..], f);
      assert Labels(items) == [items[0].positive] + Labels(items[1..]);
      assert Labels(Rescaled(items, f)) == [items[0].positive] + Labels(Rescaled(items[1..], f));
    }
  }

  ghost predicate RisesOn(f: real -> real, items: seq<Item>) {
    forall x, y | x in items && y in items && x.score < y.score :: f(x.score) < f(y.score)
  }

  lemma {:induction false} RisesOnFewer(f: real -> real, item: Item, ranked: seq<Item>)
    requires ranked != [] && RisesOn(f, [item] + ranked)
    ensures RisesOn(f, [item] + ranked[1..])
  {
    assert forall x | x in [item] + ranked[1..] :: x in [item] + ranked;
  }

  lemma {:induction false} RescaledFront(item: Item, items: seq<Item>, f: real -> real)
    ensures Rescaled([item] + items, f) == [item.(score := f(item.score))] + Rescaled(items, f)
  {
    assert ([item] + items)[1..] == items;
  }

  lemma {:induction false} PlaceFront(item: Item, first: Item, rest: seq<Item>)
    ensures Place(Higher, item, [first] + rest) ==
      if first.score > item.score then [first] + Place(Higher, item, rest) else [item] + ([first] + rest)
  {
    assert ([first] + rest)[1..] == rest;
  }

  lemma {:induction false} PlaceRescaled(item: Item, ranked: seq<Item>, f: real -> real)
    requires RisesOn(f, [item] + ranked)
    ensures Place(Higher, item.(score := f(item.score)), Rescaled(ranked, f)) == Rescaled(Place(Higher, item, ranked), f)
  {
    if ranked != [] {
      var first, rest := ranked[0], ranked[1..];
      assert item in [item] + ranked && first in [item] + ranked;
      assert f(first.score) > f(item.score) <==> first.score > item.score;
      RisesOnFewer(f, item, ranked);
      hide RisesOn, Rescaled;
      assert ranked == [first] + rest;
      RescaledFront(first, rest, f);
      PlaceFront(item, first, rest);
      PlaceFront(item.(score := f(item.score)), first.(score := f(first.score)), Rescaled(rest, f));
      hide Place, Higher;
      if first.score > item.score {
        PlaceRescaled(item, rest, f);
        RescaledFront(first, Place(Higher, item, rest), f);
      } else {
        RescaledFront(item, [first] + rest, f);
      }
    }
  }

  lemma {:induction false} RankedRescaled(items: seq<Item>, f: real -> real)
    requires RisesOn(f, items)
    ensures Ranked(Rescaled(items, f)) == Rescaled(Ranked(items), f)
  {
    if items != [] {
      assert forall x | x in items[1..] :: x in items;
      RankedRescaled(items[1..], f);
      assert Rescaled(items, f)[1..] == Rescaled(items[1..], f);
      var rest := Ranked(items[1..]);
      forall x | x in [items[0]] + rest ensures x in items {
        RankedIsStableSort(items[1..], 0.0);
        assert x in multiset(rest) ==> x in multiset(items[1..]);
      }
      PlaceRescaled(items[0], rest, f);
    }
  }

  /** Any rescaling that rises with the scores leaves the ranked labels, hence average precision, unchanged. */
  lemma {:induction false} RescalingChangesNothing(items: seq<Item>, f: real -> real)
    requires RisesOn(f, items)
    ensures Labels(Ranked(Rescaled(items, f))) == Labels(Ranked(items))
    ensures Labels(Rescaled(items, f)) == Labels(items)
  {
    RankedRescaled(items, f);
    RescaledKeepsLabels(items, f);
    RescaledKeepsLabels(Ranked(items), f);
  }
}
