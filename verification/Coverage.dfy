/** The coverage score: the mean of the best min-max-normalised scores. */
module Coverage {
  import opened Sorting

  /** sorted(..., reverse=True) */
  predicate Greater(a: real, b: real) {
    a > b
  }

  function Min(xs: seq<real>): real
    requires xs != []
  {
    if |xs| == 1 then xs[0]
    else if xs[0] < Min(xs[1..]) then xs[0]
    else Min(xs[1..])
  }

  function Max(xs: seq<real>): real
    requires xs != []
  {
    if |xs| == 1 then xs[0]
    else if xs[0] > Max(xs[1..]) then xs[0]
    else Max(xs[1..])
  }

  lemma {:induction false} WithinExtremes(xs: seq<real>, i: nat)
    requires i < |xs|
    ensures Min(xs) <= xs[i] <= Max(xs)
  {
    if |xs| > 1 {
      WithinExtremes(xs[1..], if i == 0 then 0 else i - 1);
    }
  }

  lemma {:induction false} MinAttained(xs: seq<real>) returns (i: nat)
    requires xs != []
    ensures i < |xs| && xs[i] == Min(xs)
  {
    i := 0;
    if |xs| > 1 && xs[0] >= Min(xs[1..]) {
      var k := MinAttained(xs[1..]);
      i := k + 1;
    }
  }

  lemma {:induction false} MaxAttained(xs: seq<real>) returns (i: nat)
    requires xs != []
    ensures i < |xs| && xs[i] == Max(xs)
  {
    i := 0;
    if |xs| > 1 && xs[0] <= Max(xs[1..]) {
      var k := MaxAttained(xs[1..]);
      i := k + 1;
    }
  }

  function Sum(xs: seq<real>): real {
    if xs == [] then 0.0 else Sum(xs[..|xs| - 1]) + xs[|xs| - 1]
  }

  /** One score on the 0-1 scale of its list; full when all scores are equal. */
  function Scaled(x: real, lo: real, hi: real): real {
    if hi == lo then 1.0 else (x - lo) / (hi - lo)
  }

  function ScaledAll(xs: seq<real>, lo: real, hi: real): seq<real> {
    seq(|xs|, i requires 0 <= i < |xs| => Scaled(xs[i], lo, hi))
  }

  /** min(top_k, n) */
  function Window(topK: int, n: nat): (w: nat)
    requires topK > 0
    ensures w <= topK && w <= n && (w == topK || w == n)
  {
    if topK < n then topK else n
  }

  /** Normalised scores, best first. */
  function Best(scores: seq<real>): (best: seq<real>)
    requires scores != []
    ensures |best| == |scores|
  {
    StableSortPermutes(ScaledAll(scores, Min(scores), Max(scores)), Greater);
    StableSort(ScaledAll(scores, Min(scores), Max(scores)), Greater)
  }

  function Top(scores: seq<real>, topK: int): (top: seq<real>)
    requires scores != [] && topK > 0
    ensures |top| == Window(topK, |scores|) > 0
  {
    Best(scores)[..Window(topK, |scores|)]
  }

  function CoverageScore(scores: seq<real>, topK: int): real {
    if scores == [] || topK <= 0 then 0.0
    else Sum(Top(scores, topK)) / |Top(scores, topK)| as real
  }

  lemma GreaterIsKeyOrder()
    ensures KeyOrder(Greater)
  {
  }

  // ----- the top window ------------------------------------------------------------------------------

  lemma ScaledInRange(x: real, lo: real, hi: real)
    requires lo <= x <= hi
    ensures 0.0 <= Scaled(x, lo, hi) <= 1.0
    ensures x == hi ==> Scaled(x, lo, hi) == 1.0
  {
    if lo < hi {
      Quotient(x - lo, hi - lo);
    }
  }

  lemma Quotient(a: real, b: real)
    requires b > 0.0
    ensures 0.0 <= a <= b ==> 0.0 <= a / b <= 1.0
    ensures a == b ==> a / b == 1.0
    ensures (a / b) * b == a
  {
  }

  lemma BestShape(scores: seq<real>)
    requires scores != []
    ensures |Best(scores)| == |scores| && SortedBy(Best(scores), Greater)
    ensures multiset(Best(scores)) == multiset(ScaledAll(scores, Min(scores), Max(scores)))
  {
    var scaled := ScaledAll(scores, Min(scores), Max(scores));
    GreaterIsKeyOrder();
    StableSortSorts(scaled, Greater);
    StableSortPermutes(scaled, Greater);
  }

  lemma BestInRange(scores: seq<real>, i: nat)
    requires i < |scores|
    ensures |Best(scores)| == |scores| && 0.0 <= Best(scores)[i] <= 1.0
  {
    BestShape(scores);
    var scaled := ScaledAll(scores, Min(scores), Max(scores));
    FoundIn(Best(scores), scaled, i);
    var j :| 0 <= j < |scaled| && scaled[j] == Best(scores)[i];
    WithinExtremes(scores, j);
    ScaledInRange(scores[j], Min(scores), Max(scores));
  }

  lemma BestStartsFull(scores: seq<real>)
    requires scores != []
    ensures |Best(scores)| == |scores| && Best(scores)[0] == 1.0
  {
    BestShape(scores);
    BestInRange(scores, 0);
    var scaled := ScaledAll(scores, Min(scores), Max(scores));
    var j := MaxAttained(scores);
    WithinExtremes(scores, j);
    ScaledInRange(scores[j], Min(scores), Max(scores));
    FoundIn(scaled, Best(scores), j);
    var i :| 0 <= i < |scores| && Best(scores)[i] == scaled[j];
    assert i == 0 || !Greater(Best(scores)[i], Best(scores)[0]);
  }

  lemma BestDescends(scores: seq<real>, i: nat, j: nat)
    requires i <= j < |scores|
    ensures Best(scores)[j] <= Best(scores)[i]
  {
    BestShape(scores);
    assert i == j || !Greater(Best(scores)[j], Best(scores)[i]);
  }

  /** The window starts with a full score and stays on the scale. */
  lemma TopShape(scores: seq<real>, topK: int)
    requires scores != [] && topK > 0
    ensures var top := Top(scores, topK);
            && top[0] == 1.0
            && (forall i :: 0 <= i < |top| ==> top[i] == Best(scores)[i] && 0.0 <= top[i] <= 1.0)
  {
    BestStartsFull(scores);
    var top := Top(scores, topK);
    forall i | 0 <= i < |top|
      ensures top[i] == Best(scores)[i] && 0.0 <= top[i] <= 1.0
    {
      BestInRange(scores, i);
    }
  }

  lemma {:induction false} SumOfUnitValues(xs: seq<real>)
    requires forall i :: 0 <= i < |xs| ==> 0.0 <= xs[i] <= 1.0
    ensures 0.0 <= Sum(xs) <= |xs| as real
    ensures xs != [] ==> Sum(xs) >= xs[0]
    ensures Sum(xs) == |xs| as real <==> forall i :: 0 <= i < |xs| ==> xs[i] == 1.0
  {
    if xs != [] {
      SumOfUnitValues(xs[..|xs| - 1]);
    }
  }

  lemma MeanInRange(sum: real, n: nat)
    requires n > 0 && 1.0 <= sum <= n as real
    ensures 1.0 / n as real <= sum / n as real <= 1.0
    ensures sum / n as real == 1.0 <==> sum == n as real
  {
    var m := n as real;
    Quotient(sum, m);
    assert sum / m - 1.0 / m == (sum - 1.0) / m;
  }

  /** Without scores, or without a window, nothing is covered. */
  lemma NothingCovered(scores: seq<real>, topK: int)
    requires scores == [] || topK <= 0
    ensures CoverageScore(scores, topK) == 0.0
  {
  }

  /** For any scores and any positive window the coverage lies between 1/min(top_k, n) and 1, and it is
      1 exactly when every normalised score of the window is full. */
  lemma CoverageInRange(scores: seq<real>, topK: int)
    requires scores != [] && topK > 0
    ensures 1.0 / Window(topK, |scores|) as real <= CoverageScore(scores, topK) <= 1.0
    ensures CoverageScore(scores, topK) == 1.0
            <==> forall i :: 0 <= i < Window(topK, |scores|) ==> Top(scores, topK)[i] == 1.0
  {
    TopShape(scores, topK);
    var top := Top(scores, topK);
    SumOfUnitValues(top);
    MeanInRange(Sum(top), |top|);
  }

  // ----- normalising and sorting commute -----------------------------------------------------------------

  lemma ScalingKeepsOrder(x: real, y: real, lo: real, hi: real)
    requires lo < hi
    ensures Greater(Scaled(x, lo, hi), Scaled(y, lo, hi)) <==> Greater(x, y)
    ensures Scaled(x, lo, hi) == Scaled(y, lo, hi) <==> x == y
  {
    Quotient(x - lo, hi - lo);
    Quotient(y - lo, hi - lo);
  }

  lemma {:induction false} PlaceIgnoresScale(s: seq<real>, x: real, lo: real, hi: real)
    requires lo < hi
    ensures Place(ScaledAll(s, lo, hi), Scaled(x, lo, hi), Greater) == Place(s, x, Greater)
  {
    if s != [] {
      ScalingKeepsOrder(x, s[|s| - 1], lo, hi);
      assert ScaledAll(s, lo, hi)[..|s| - 1] == ScaledAll(s[..|s| - 1], lo, hi);
      PlaceIgnoresScale(s[..|s| - 1], x, lo, hi);
    }
  }

  lemma ScaleOfInsert(s: seq<real>, x: real, lo: real, hi: real)
    requires Place(ScaledAll(s, lo, hi), Scaled(x, lo, hi), Greater) == Place(s, x, Greater)
    ensures ScaledAll(Insert(s, x, Greater), lo, hi) == Insert(ScaledAll(s, lo, hi), Scaled(x, lo, hi), Greater)
  {
  }

  /** Normalising then sorting is sorting then normalising. */
  lemma {:induction false} SortIgnoresScale(xs: seq<real>, lo: real, hi: real)
    requires lo < hi
    ensures StableSort(ScaledAll(xs, lo, hi), Greater) == ScaledAll(StableSort(xs, Greater), lo, hi)
  {
    if xs != [] {
      var init, x := xs[..|xs| - 1], xs[|xs| - 1];
      SortIgnoresScale(init, lo, hi);
      PlaceIgnoresScale(StableSort(init, Greater), x, lo, hi);
      assert ScaledAll(xs, lo, hi)[..|xs| - 1] == ScaledAll(init, lo, hi);
      ScaleOfInsert(StableSort(init, Greater), x, lo, hi);
    }
  }

  lemma TimesSplits(a: real, b: real, c: real)
    ensures Times(a + b, c) == Times(a, c) + Times(b, c)
  {
  }

  lemma {:induction false} SumOfScaled(xs: seq<real>, lo: real, hi: real)
    requires lo < hi
    ensures Times(Sum(ScaledAll(xs, lo, hi)), hi - lo) == Sum(xs) - Times(|xs| as real, lo)
  {
    if xs != [] {
      var init, x := xs[..|xs| - 1], xs[|xs| - 1];
      SumOfScaled(init, lo, hi);
      Quotient(x - lo, hi - lo);
      assert ScaledAll(xs, lo, hi)[..|xs| - 1] == ScaledAll(init, lo, hi);
      TimesSplits(Sum(ScaledAll(init, lo, hi)), Scaled(x, lo, hi), hi - lo);
      TimesSplits(|init| as real, 1.0, lo);
      assert |xs| as real == |init| as real + 1.0;
    }
  }

  lemma CoverageIsMean(scores: seq<real>, topK: int)
    requires scores != [] && topK > 0
    ensures Times(CoverageScore(scores, topK), |Top(scores, topK)| as real) == Sum(Top(scores, topK))
  {
    Quotient(Sum(Top(scores, topK)), |Top(scores, topK)| as real);
  }

  lemma TopIsScaled(scores: seq<real>, topK: int)
    requires scores != [] && topK > 0 && Min(scores) < Max(scores)
    ensures |StableSort(scores, Greater)| == |scores|
    ensures Top(scores, topK)
            == ScaledAll(StableSort(scores, Greater)[..Window(topK, |scores|)], Min(scores), Max(scores))
  {
    StableSortPermutes(scores, Greater);
    SortIgnoresScale(scores, Min(scores), Max(scores));
  }

  /** The mean lies at a place between the lowest and the highest score, as far up as the coverage says. */
  predicate Locates(coverage: real, n: real, sum: real, lo: real, hi: real) {
    Times(Times(coverage, n), hi - lo) == sum - Times(n, lo)
  }

  lemma TotalsLocate(coverage: real, n: real, total: real, sum: real, lo: real, hi: real)
    requires Times(coverage, n) == total && Times(total, hi - lo) == sum - Times(n, lo)
    ensures Locates(coverage, n, sum, lo, hi)
  {
  }

  /** What coverage measures: how far, from the lowest score to the highest, the mean of the best min(top_k, n)
      scores lies. */
  lemma CoverageLocatesMean(scores: seq<real>, topK: int)
    requires scores != [] && topK > 0 && Min(scores) < Max(scores)
    ensures var n := Window(topK, |scores|);
            && |StableSort(scores, Greater)| == |scores|
            && Locates(CoverageScore(scores, topK), n as real, Sum(StableSort(scores, Greater)[..n]), Min(scores),
                       Max(scores))
  {
    var lo, hi, n := Min(scores), Max(scores), Window(topK, |scores|);
    TopIsScaled(scores, topK);
    var best := StableSort(scores, Greater)[..n];
    CoverageIsMean(scores, topK);
    SumOfScaled(best, lo, hi);
    TotalsLocate(CoverageScore(scores, topK), n as real, Sum(Top(scores, topK)), Sum(best), lo, hi);
  }

  /** Coverage is full exactly when the best min(top_k, n) scores all tie. */
  lemma FullCoverageIffTies(scores: seq<real>, topK: int)
    requires scores != [] && topK > 0
    ensures |StableSort(scores, Greater)| == |scores|
    ensures CoverageScore(scores, topK) == 1.0
            <==> forall i :: 0 <= i < Window(topK, |scores|) ==> StableSort(scores, Greater)[i] == Max(scores)
  {
    var lo, hi := Min(scores), Max(scores);
    StableSortPermutes(scores, Greater);
    CoverageInRange(scores, topK);
    TopShape(scores, topK);
    if lo < hi {
      SortIgnoresScale(scores, lo, hi);
      forall i | 0 <= i < Window(topK, |scores|)
        ensures Top(scores, topK)[i] == 1.0 <==> StableSort(scores, Greater)[i] == hi
      {
        ScalingKeepsOrder(StableSort(scores, Greater)[i], hi, lo, hi);
        ScaledInRange(hi, lo, hi);
      }
    } else {
      AllEqualIsFull(scores, topK);
      forall i | 0 <= i < |scores|
        ensures StableSort(scores, Greater)[i] == hi
      {
        FoundIn(StableSort(scores, Greater), scores, i);
        var j :| 0 <= j < |scores| && scores[j] == StableSort(scores, Greater)[i];
        WithinExtremes(scores, j);
      }
    }
  }

  lemma AllEqualIsFull(scores: seq<real>, topK: int)
    requires scores != [] && topK > 0 && Min(scores) == Max(scores)
    ensures CoverageScore(scores, topK) == 1.0
  {
    CoverageInRange(scores, topK);
    TopShape(scores, topK);
    forall i | 0 <= i < Window(topK, |scores|)
      ensures Top(scores, topK)[i] == 1.0
    {
      EqualScoresAreFull(scores, i);
    }
  }

  lemma EqualScoresAreFull(scores: seq<real>, i: nat)
    requires i < |scores| && Min(scores) == Max(scores)
    ensures |Best(scores)| == |scores| && Best(scores)[i] == 1.0
  {
    var scaled := ScaledAll(scores, Min(scores), Max(scores));
    BestShape(scores);
    FoundIn(Best(scores), scaled, i);
  }

  // ----- invariances -------------------------------------------------------------------------------------

  /** The order in which the scores come does not matter. */
  lemma CoverageIgnoresOrder(a: seq<real>, b: seq<real>, topK: int)
    requires multiset(a) == multiset(b)
    ensures CoverageScore(a, topK) == CoverageScore(b, topK)
  {
    SameElements(a, b);
    if a != [] && topK > 0 {
      SameExtremes(a, b);
      if Min(a) == Max(a) {
        AllEqualIsFull(a, topK);
        AllEqualIsFull(b, topK);
      } else {
        SortIgnoresScale(a, Min(a), Max(a));
        SortIgnoresScale(b, Min(a), Max(a));
        SortIgnoresOrder(a, b);
      }
    }
  }

  lemma SameExtremes(a: seq<real>, b: seq<real>)
    requires multiset(a) == multiset(b) && a != [] && b != []
    ensures Min(a) == Min(b) && Max(a) == Max(b)
  {
    Contained(a, b);
    Contained(b, a);
  }

  lemma Contained(a: seq<real>, b: seq<real>)
    requires multiset(a) == multiset(b) && a != [] && b != []
    ensures Min(b) <= Min(a) && Max(a) <= Max(b)
  {
    var low := MinAttained(a);
    var high := MaxAttained(a);
    FoundIn(a, b, low);
    FoundIn(a, b, high);
    var i :| 0 <= i < |b| && b[i] == a[low];
    var j :| 0 <= j < |b| && b[j] == a[high];
    WithinExtremes(b, i);
    WithinExtremes(b, j);
  }

  lemma SortIgnoresOrder(a: seq<real>, b: seq<real>)
    requires multiset(a) == multiset(b)
    ensures StableSort(a, Greater) == StableSort(b, Greater)
  {
    GreaterIsKeyOrder();
    StableSortSorts(a, Greater);
    StableSortSorts(b, Greater);
    StableSortPermutes(a, Greater);
    StableSortPermutes(b, Greater);
    SortedIsUnique(StableSort(a, Greater), StableSort(b, Greater), Greater);
  }

  function Affine(x: real, factor: real, shift: real): real {
    factor * x + shift
  }

  /** The same scores on another scale. */
  predicate Rescales(scaled: seq<real>, scores: seq<real>, factor: real, shift: real) {
    && |scaled| == |scores|
    && forall i :: 0 <= i < |scores| ==> scaled[i] == Affine(scores[i], factor, shift)
  }

  /** Rescaling by a positive factor and shifting changes nothing: the score does not depend on the
      retriever's scale. */
  lemma CoverageIgnoresScale(scores: seq<real>, scaled: seq<real>, factor: real, shift: real, topK: int)
    requires factor > 0.0 && Rescales(scaled, scores, factor, shift)
    ensures CoverageScore(scaled, topK) == CoverageScore(scores, topK)
  {
    if scores != [] && topK > 0 {
      ExtremesMove(scores, scaled, factor, shift);
      SameNormalised(scores, scaled, factor, shift);
    }
  }

  lemma Monotone(x: real, y: real, factor: real, shift: real)
    requires factor > 0.0 && x <= y
    ensures Affine(x, factor, shift) <= Affine(y, factor, shift)
  {
  }

  lemma ExtremesAre(xs: seq<real>, low: nat, high: nat)
    requires low < |xs| && high < |xs|
    requires forall i :: 0 <= i < |xs| ==> xs[low] <= xs[i] <= xs[high]
    ensures Min(xs) == xs[low] && Max(xs) == xs[high]
  {
    var l := MinAttained(xs);
    var h := MaxAttained(xs);
    WithinExtremes(xs, low);
    WithinExtremes(xs, high);
  }

  lemma ExtremesMove(scores: seq<real>, scaled: seq<real>, factor: real, shift: real)
    requires factor > 0.0 && Rescales(scaled, scores, factor, shift) && scores != []
    ensures Min(scaled) == Affine(Min(scores), factor, shift)
    ensures Max(scaled) == Affine(Max(scores), factor, shift)
  {
    var lo := MinAttained(scores);
    var hi := MaxAttained(scores);
    forall i | 0 <= i < |scaled|
      ensures scaled[lo] <= scaled[i] <= scaled[hi]
    {
      WithinExtremes(scores, i);
      Monotone(scores[lo], scores[i], factor, shift);
      Monotone(scores[i], scores[hi], factor, shift);
    }
    ExtremesAre(scaled, lo, hi);
  }

  lemma SameNormalised(scores: seq<real>, scaled: seq<real>, factor: real, shift: real)
    requires factor > 0.0 && Rescales(scaled, scores, factor, shift) && scores != []
    ensures ScaledAll(scaled, Affine(Min(scores), factor, shift), Affine(Max(scores), factor, shift))
            == ScaledAll(scores, Min(scores), Max(scores))
  {
    var lo, hi := Min(scores), Max(scores);
    var left := ScaledAll(scaled, Affine(lo, factor, shift), Affine(hi, factor, shift));
    var right := ScaledAll(scores, lo, hi);
    forall i | 0 <= i < |scores|
      ensures left[i] == right[i]
    {
      RatioKept(scores[i], lo, hi, factor, shift);
    }
  }

  /** A product as a name of its own, so that its factors stay out of sight where they do not matter. */
  function Times(a: real, b: real): real {
    a * b
  }

  lemma TimesLaws(factor: real, span: real, shift: real, x: real, lo: real)
    requires factor > 0.0
    ensures span > 0.0 ==> Times(factor, span) > 0.0
    ensures Affine(x, factor, shift) - Affine(lo, factor, shift) == Times(factor, x - lo)
  {
  }

  lemma TimesScales(q: real, factor: real, span: real)
    ensures Times(factor, q * span) == q * Times(factor, span)
  {
  }

  lemma RatioKept(x: real, lo: real, hi: real, factor: real, shift: real)
    requires factor > 0.0 && lo <= hi
    ensures Scaled(Affine(x, factor, shift), Affine(lo, factor, shift), Affine(hi, factor, shift)) == Scaled(x, lo, hi)
  {
    TimesLaws(factor, hi - lo, shift, hi, lo);
    if lo < hi {
      var q, span := (x - lo) / (hi - lo), hi - lo;
      Quotient(x - lo, span);
      TimesLaws(factor, span, shift, x, lo);
      TimesScales(q, factor, span);
      QuotientOfProduct(q, Times(factor, span));
    }
  }

  lemma QuotientOfProduct(q: real, b: real)
    requires b > 0.0
    ensures q * b / b == q
  {
  }

  // ----- a longer window never covers more -----------------------------------------------------------------

  /** Every value of a best-first list is at most the mean of the ones before it. */
  lemma {:induction false} LaterIsAtMostMean(xs: seq<real>, x: real)
    requires forall i :: 0 <= i < |xs| ==> x <= xs[i]
    ensures |xs| as real * x <= Sum(xs)
  {
    if xs != [] {
      LaterIsAtMostMean(xs[..|xs| - 1], x);
      assert |xs| as real * x == (|xs| - 1) as real * x + x;
    }
  }

  lemma Cancel(a: real, x: real, y: real)
    requires a > 0.0 && a * x <= a * y
    ensures x <= y
  {
  }

  lemma MeanDrops(sum: real, x: real, n: nat)
    requires n > 0 && n as real * x <= sum
    ensures (sum + x) / (n + 1) as real <= sum / n as real
  {
    var a, b := n as real, (n + 1) as real;
    var before, after := sum / a, (sum + x) / b;
    Quotient(sum, a);
    Quotient(sum + x, b);
    assert a * before == sum;
    Cancel(a, x, before);
    assert b * after == sum + x <= a * before + before == b * before;
    Cancel(b, after, before);
  }

  lemma SumSplitsLast(xs: seq<real>, n: nat)
    requires |xs| == n + 1
    ensures Sum(xs) == Sum(xs[..n]) + xs[n]
  {
  }

  lemma {:induction false} WiderMean(best: seq<real>, k: nat)
    requires 0 < k < |best|
    requires forall i :: 0 <= i < k ==> best[k] <= best[i]
    ensures Sum(best[..k + 1]) / (k + 1) as real <= Sum(best[..k]) / k as real
  {
    SumSplitsLast(best[..k + 1], k);
    assert best[..k + 1][..k] == best[..k];
    LaterIsAtMostMean(best[..k], best[k]);
    MeanDrops(Sum(best[..k]), best[k], k);
  }

  lemma OneWiderCoversNoMore(scores: seq<real>, topK: int)
    requires topK > 0
    ensures CoverageScore(scores, topK + 1) <= CoverageScore(scores, topK)
  {
    if scores != [] && topK < |scores| {
      forall i | 0 <= i < topK
        ensures Best(scores)[topK] <= Best(scores)[i]
      {
        BestDescends(scores, i, topK);
      }
      WiderMean(Best(scores), topK);
    }
  }

  /** Coverage never increases as the window grows. */
  lemma {:induction false} CoverageFallsWithWindow(scores: seq<real>, small: int, large: int)
    requires 0 < small <= large
    ensures CoverageScore(scores, large) <= CoverageScore(scores, small)
    decreases large - small
  {
    if small < large {
      CoverageFallsWithWindow(scores, small, large - 1);
      OneWiderCoversNoMore(scores, large - 1);
    }
  }
}
