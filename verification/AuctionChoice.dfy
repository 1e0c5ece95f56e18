/** Accumulating the curve at every order price and choosing the execution price from it. */
module AuctionChoice {
  import opened Prelude
  import opened U256
  import opened AuctionBook
  import opened AuctionPricing
  import S256
  import Sorting

  // ---- accumulateForPricePointList ----

  /** `pp` carries the volumes and the imbalance of the curve `os` at its price. */
  predicate Measured(pp: PricePoint, os: seq<PricePoint>) {
    && pp.accumulatedBidAmount == Demand(os, pp.price)
    && pp.accumulatedAskAmount == Supply(os, pp.price)
    && pp.executionAmount == Tradable(os, pp.price)
    && S256.Sub(pp.accumulatedBidAmount, pp.accumulatedAskAmount) == Ok(pp.imbalance)
    && S256.Abs(pp.imbalance) == Ok(pp.absImbalance)
  }

  /** One measured point for every price of `os`. */
  ghost predicate Curve(pps: seq<PricePoint>, os: seq<PricePoint>) {
    && DistinctPrices(pps) && SamePrices(pps, os)
    && forall i | 0 <= i < |pps| :: Measured(pps[i], os)
  }

  /** The absolute imbalance as the code computes it from the two amounts at `q`. */
  function AbsImbalanceAt(os: seq<PricePoint>, q: nat): Result<word> {
    if Demand(os, q) >= TWO_256 || Supply(os, q) >= TWO_256 then Throw
    else match S256.Sub(Demand(os, q), Supply(os, q))
      case Throw => Throw
      case Ok(imbalance) => S256.Abs(imbalance)
  }

  /** No call throws while the curve is measured: totals fit words, and so does every imbalance at an order price. */
  predicate Measurable(os: seq<PricePoint>) {
    TotalsFit(os) && forall i | 0 <= i < |os| :: AbsImbalanceAt(os, os[i].price).Ok?
  }

  lemma SameCurveSameMeasures(a: seq<PricePoint>, b: seq<PricePoint>)
    requires SamePrices(a, b) && SameCurve(a, b)
    ensures Measurable(a) <==> Measurable(b)
  {
    if Measurable(a) {
      MeasurableCarries(a, b);
    }
    if Measurable(b) {
      MeasurableCarries(b, a);
    }
  }

  lemma MeasurableCarries(a: seq<PricePoint>, b: seq<PricePoint>)
    requires SamePrices(a, b) && SameCurve(a, b) && Measurable(a)
    ensures Measurable(b)
  {
    forall j | 0 <= j < |b|
      ensures AbsImbalanceAt(b, b[j].price).Ok?
    {
      assert HasPrice(b, b[j].price) && HasPrice(a, b[j].price);
      var i :| 0 <= i < |a| && a[i].price == b[j].price;
      assert AbsImbalanceAt(a, a[i].price).Ok?;
    }
  }

  /** Below 2^255 everything can be measured. */
  lemma SmallIsMeasurable(os: seq<PricePoint>)
    requires SmallTotals(os)
    ensures Measurable(os)
  {
    forall i | 0 <= i < |os|
      ensures AbsImbalanceAt(os, os[i].price).Ok?
    {
      CurveBounds(os, os[i].price);
      S256.SubIsExact(Demand(os, os[i].price), Supply(os, os[i].price));
    }
  }

  predicate Descending(pps: seq<PricePoint>) {
    forall i, j | 0 <= i < j < |pps| :: pps[i].price > pps[j].price
  }

  predicate SameAmounts(a: seq<PricePoint>, b: seq<PricePoint>) {
    && |a| == |b|
    && forall i | 0 <= i < |a| ::
      a[i].price == b[i].price && a[i].askAmount == b[i].askAmount && a[i].bidAmount == b[i].bidAmount
  }

  lemma {:induction false} SameAmountsSameCurve(a: seq<PricePoint>, b: seq<PricePoint>, q: nat)
    requires SameAmounts(a, b)
    ensures Demand(a, q) == Demand(b, q) && Supply(a, q) == Supply(b, q)
  {
    if a != [] {
      SameAmountsSameCurve(a[1..], b[1..], q);
    }
  }

  lemma PricesUpTo(pps: seq<PricePoint>, i: nat)
    requires Descending(pps) && i < |pps|
    ensures Demand(pps[..i + 1], pps[i].price) == Demand(pps[..i + 1], 0)
    ensures Supply(pps[..i], pps[i].price) == 0
  {
    assert forall pp | pp in pps[..i + 1] :: pp.price >= pps[i].price;
    assert forall pp | pp in pps[..i] :: pp.price > pps[i].price;
    hide Descending;
    CurveBounds(pps[..i + 1], pps[i].price);
    CurveBounds(pps[..i], pps[i].price);
  }

  lemma PricesFrom(pps: seq<PricePoint>, i: nat)
    requires Descending(pps) && i < |pps|
    ensures Demand(pps[i + 1..], pps[i].price) == 0
    ensures Supply(pps[i..], pps[i].price) == Supply(pps[i..], MAX_PRICE)
  {
    assert forall pp | pp in pps[i + 1..] :: pp.price < pps[i].price;
    assert forall pp | pp in pps[i..] :: pp.price <= pps[i].price;
    hide Descending;
    CurveBounds(pps[i + 1..], pps[i].price);
    CurveBounds(pps[i..], pps[i].price);
  }

  /** On a descending list the prefix sums of the bids are the demand curve. */
  lemma PrefixIsDemand(pps: seq<PricePoint>, i: nat)
    requires Descending(pps) && i < |pps|
    ensures Demand(pps[..i + 1], 0) == Demand(pps, pps[i].price)
  {
    PricesUpTo(pps, i);
    PricesFrom(pps, i);
    hide *;
    CurveOfParts(pps, i + 1, pps[i].price);
  }

  /** ... and the suffix sums of the asks are the supply curve. */
  lemma SuffixIsSupply(pps: seq<PricePoint>, i: nat)
    requires Descending(pps) && i < |pps|
    ensures Supply(pps[i..], MAX_PRICE) == Supply(pps, pps[i].price)
  {
    PricesUpTo(pps, i);
    PricesFrom(pps, i);
    hide *;
    CurveOfParts(pps, i, pps[i].price);
  }

  lemma SuffixStep(pps: seq<PricePoint>, i: nat, q: nat)
    requires i < |pps|
    ensures Supply(pps[i..], q) == Supply([pps[i]], q) + Supply(pps[i + 1..], q)
    ensures Supply(pps[i..], q) <= Supply(pps, q)
  {
    assert pps[i..] == [pps[i]] + pps[i + 1..];
    CurveConcat([pps[i]], pps[i + 1..], q);
    CurveOfParts(pps, i, q);
  }

  predicate PriceBefore(a: PricePoint, b: PricePoint) {
    a.price > b.price
  }

  lemma SortedByPrice(pps: seq<PricePoint>, sorted: seq<PricePoint>)
    requires DistinctPrices(pps) && multiset(sorted) == multiset(pps)
    requires Sorting.NoInversion(sorted, PriceBefore)
    ensures Descending(sorted) && SamePrices(sorted, pps) && SameCurve(sorted, pps)
  {
    Sorting.PermutationMembers(sorted, pps);
    Sorting.PermutationKeepsDistinct(pps, sorted, (pp: PricePoint) => pp.price);
    forall q: nat
      ensures Demand(sorted, q) == Demand(pps, q) && Supply(sorted, q) == Supply(pps, q)
    {
      CurveOfPermutation(sorted, pps, q);
    }
    forall p: word
      ensures HasPrice(sorted, p) <==> HasPrice(pps, p)
    {
      PermutationHasPrice(sorted, pps, p);
      PermutationHasPrice(pps, sorted, p);
    }
  }

  lemma PermutationHasPrice(a: seq<PricePoint>, b: seq<PricePoint>, p: word)
    requires multiset(a) == multiset(b)
    ensures HasPrice(a, p) ==> HasPrice(b, p)
  {
    Sorting.PermutationMembers(a, b);
    if HasPrice(a, p) {
      var i :| 0 <= i < |a| && a[i].price == p;
      assert a[i] in b;
    }
  }

  /** The first loop: highest price first. */
  method AccumulateBids(s: seq<PricePoint>) returns (r: Result<seq<PricePoint>>)
    requires Descending(s)
    ensures r.Ok? ==> SameAmounts(r.value, s)
    ensures r.Ok? ==> forall j | 0 <= j < |s| :: r.value[j].accumulatedBidAmount == Demand(s, s[j].price)
    ensures r.Ok? <==> Demand(s, 0) < TWO_256
  {
    var ppList := s;
    var accumulatedBidAmount: word := 0;
    for i := 0 to |ppList|
      invariant SameAmounts(ppList, s)
      invariant accumulatedBidAmount == Demand(s[..i], 0)
      invariant forall j | 0 <= j < i :: ppList[j].accumulatedBidAmount == Demand(s, s[j].price)
    {
      CurveSnoc(s, i, 0);
      PrefixBounds(s, i + 1, 0);
      PrefixIsDemand(s, i);
      CurveBounds(s, s[i].price);
      accumulatedBidAmount :- Add(accumulatedBidAmount, ppList[i].bidAmount);
      ppList := ppList[i := ppList[i].(accumulatedBidAmount := accumulatedBidAmount)];
    }
    assert s[..|s|] == s;
    return Ok(ppList);
  }

  /** The second loop: lowest price first. */
  method AccumulateAsks(points: seq<PricePoint>, ghost s: seq<PricePoint>) returns (r: Result<seq<PricePoint>>)
    requires Descending(s) && SameAmounts(points, s)
    ensures r.Ok? ==> SameAmounts(r.value, s)
    ensures r.Ok? ==> forall j | 0 <= j < |s| ::
      && r.value[j].accumulatedBidAmount == points[j].accumulatedBidAmount
      && r.value[j].accumulatedAskAmount == Supply(s, s[j].price)
    ensures r.Ok? <==> Supply(s, MAX_PRICE) < TWO_256
  {
    var ppList := points;
    var accumulatedAskAmount: word := 0;
    for i := |ppList| downto 0
      invariant SameAmounts(ppList, s)
      invariant accumulatedAskAmount == Supply(s[i..], MAX_PRICE)
      invariant forall j | 0 <= j < |s| :: ppList[j].accumulatedBidAmount == points[j].accumulatedBidAmount
      invariant forall j | i <= j < |s| :: ppList[j].accumulatedAskAmount == Supply(s, s[j].price)
    {
      SuffixStep(s, i, MAX_PRICE);
      SuffixIsSupply(s, i);
      accumulatedAskAmount :- Add(accumulatedAskAmount, ppList[i].askAmount);
      ppList := ppList[i := ppList[i].(accumulatedAskAmount := accumulatedAskAmount)];
    }
    assert s[0..] == s;
    return Ok(ppList);
  }

  predicate Accumulated(pp: PricePoint, s: seq<PricePoint>) {
    pp.accumulatedBidAmount == Demand(s, pp.price) && pp.accumulatedAskAmount == Supply(s, pp.price)
  }

  /** The third loop. */
  method MeasurePoints(points: seq<PricePoint>, ghost s: seq<PricePoint>) returns (r: Result<seq<PricePoint>>)
    requires forall j | 0 <= j < |points| :: Accumulated(points[j], s)
    ensures r.Ok? ==> SameAmounts(r.value, points)
    ensures r.Ok? ==> forall j | 0 <= j < |points| :: Measured(r.value[j], s)
    ensures r.Ok? <==> forall j | 0 <= j < |points| :: AbsImbalanceAt(s, points[j].price).Ok?
  {
    var ppList := points;
    for i := 0 to |ppList|
      invariant SameAmounts(ppList, points)
      invariant forall j | i <= j < |points| :: Accumulated(ppList[j], s)
      invariant forall j | 0 <= j < i :: Measured(ppList[j], s) && AbsImbalanceAt(s, points[j].price).Ok?
    {
      var pp := ppList[i];
      assert pp.price == points[i].price;
      var executionAmount := pp.accumulatedAskAmount;
      if pp.accumulatedBidAmount < pp.accumulatedAskAmount {
        executionAmount := pp.accumulatedBidAmount;
      }
      var imbalance :- S256.Sub(pp.accumulatedBidAmount, pp.accumulatedAskAmount);
      var absImbalance :- S256.Abs(imbalance);
      ppList := ppList[i :=
        pp.(executionAmount := executionAmount, imbalance := imbalance, absImbalance := absImbalance)];
    }
    return Ok(ppList);
  }

  method AccumulateForPricePointList(points: seq<PricePoint>) returns (r: Result<seq<PricePoint>>)
    requires DistinctPrices(points)
    ensures r.Ok? ==> Curve(r.value, points)
    ensures r.Ok? <==> Measurable(points)
  {
    var s := Sorting.Sort(points, PriceBefore);
    SortedByPrice(points, s);
    SameCurveSameMeasures(s, points);
    var withBids :- AccumulateBids(s);
    var withAsks :- AccumulateAsks(withBids, s);
    var measured :- MeasurePoints(withAsks, s);
    CurveFromSorted(measured, s, points);
    return Ok(measured);
  }

  lemma CurveFromSorted(pps: seq<PricePoint>, s: seq<PricePoint>, points: seq<PricePoint>)
    requires SameAmounts(pps, s) && Descending(s) && SamePrices(s, points) && SameCurve(s, points)
    requires forall j | 0 <= j < |s| :: Measured(pps[j], s)
    ensures Curve(pps, points)
  {
  }

  // ---- calculateExecutionPrice ----

  /** A negative result of `pricePointComparator`. */
  predicate Better(a: PricePoint, b: PricePoint) {
    || a.executionAmount > b.executionAmount
    || (a.executionAmount == b.executionAmount && a.absImbalance < b.absImbalance)
  }

  predicate LessImbalance(a: PricePoint, b: PricePoint) {
    a.absImbalance < b.absImbalance
  }

  predicate Top(pps: seq<PricePoint>, pp: PricePoint) {
    pp in pps && forall i | 0 <= i < |pps| :: !Better(pps[i], pp)
  }

  /** The points of most volume and, among those, of least imbalance. */
  function TopPoints(pps: seq<PricePoint>): set<PricePoint> {
    set pp | pp in pps && Top(pps, pp)
  }

  /**
    * `ties` has as many entries as there are top points and holds only those.
    * The code takes the first entry from another list than the others, so it can repeat one of them.
    */
  predicate Ties(pps: seq<PricePoint>, ties: seq<PricePoint>) {
    && |ties| == |TopPoints(pps)|
    && (forall i | 0 <= i < |ties| :: ties[i] in TopPoints(pps))
    && (forall i, j | 1 <= i < j < |ties| :: ties[i] != ties[j])
  }

  predicate MostVolume(pps: seq<PricePoint>, pp: PricePoint) {
    pp in pps && forall i | 0 <= i < |pps| :: pps[i].executionAmount <= pp.executionAmount
  }

  /** Move the reference price into the span of the ties. */
  function Towards(reference: word, ties: seq<PricePoint>): word
    requires ties != []
  {
    var highest, lowest := ties[0].price, ties[|ties| - 1].price;
    if highest < reference then highest else if lowest > reference then lowest else reference
  }

  predicate NoneNegative(ties: seq<PricePoint>) {
    forall i | 0 <= i < |ties| :: S256.Sign(ties[i].imbalance) != -1
  }

  predicate NonePositive(ties: seq<PricePoint>) {
    forall i | 0 <= i < |ties| :: S256.Sign(ties[i].imbalance) != 1
  }

  /**
    * Pick among the ties by market pressure.
    * A zero middle price reads the entry at half the length, if that is whole.
    */
  function Select(highPrice: word, midPrice: word, lowPrice: word, ties: seq<PricePoint>): Result<word>
    requires ties != []
  {
    if |ties| == 1 then Ok(ties[0].price)
    else if midPrice == 0 then
      if |ties| % 2 == 1 then Throw else Ok(ties[|ties| / 2].price)
    else if NoneNegative(ties) then Ok(Towards(highPrice, ties))
    else if NonePositive(ties) then Ok(Towards(lowPrice, ties))
    else Ok(Towards(midPrice, ties))
  }

  /** `p` is the reference price if that lies between the last tie and the first, otherwise the tie it passes. */
  predicate MovedTo(p: word, reference: word, first: word, last: word) {
    && (last <= reference <= first ==> p == reference)
    && (first < reference ==> p == first)
    && (first >= reference && reference < last ==> p == last)
  }

  /**
    * What the market pressure decides. With more buyers, or nobody over, at every tie the price moves to `highPrice`,
    * with more sellers to `lowPrice`, and with buyers over at one tie and sellers at another to `midPrice`.
    * Without a middle price it is that of the tie with as many before it as from it on.
    */
  predicate Decided(highPrice: word, midPrice: word, lowPrice: word, ties: seq<PricePoint>, p: word)
    requires ties != []
  {
    var first, last := ties[0].price, ties[|ties| - 1].price;
    var buyers := exists i | 0 <= i < |ties| :: S256.Value(ties[i].imbalance) > 0;
    var sellers := exists i | 0 <= i < |ties| :: S256.Value(ties[i].imbalance) < 0;
    && (|ties| == 1 ==> p == first)
    && (|ties| > 1 && midPrice == 0 ==> exists k | 0 <= k < |ties| :: 2 * k == |ties| && p == ties[k].price)
    && (|ties| > 1 && midPrice != 0 && !sellers ==> MovedTo(p, highPrice, first, last))
    && (|ties| > 1 && midPrice != 0 && sellers && !buyers ==> MovedTo(p, lowPrice, first, last))
    && (|ties| > 1 && midPrice != 0 && sellers && buyers ==> MovedTo(p, midPrice, first, last))
  }

  /** The rule returns a price exactly if that is the one decided. */
  lemma SelectsWhatIsDecided(highPrice: word, midPrice: word, lowPrice: word, ties: seq<PricePoint>, p: word)
    requires ties != []
    ensures Select(highPrice, midPrice, lowPrice, ties) == Ok(p) <==> Decided(highPrice, midPrice, lowPrice, ties, p)
  {
    forall i | 0 <= i < |ties|
      ensures S256.Sign(ties[i].imbalance) == -1 <==> S256.Value(ties[i].imbalance) < 0
      ensures S256.Sign(ties[i].imbalance) == 1 <==> S256.Value(ties[i].imbalance) > 0
    {
    }
    if |ties| > 1 && midPrice == 0 && |ties| % 2 == 0 {
      assert 2 * (|ties| / 2) == |ties|;
    }
  }

  /** In a list sorted by `Better`, as many leading points are top points as there are top points. */
  lemma TopsComeFirst(pps: seq<PricePoint>, s: seq<PricePoint>, j: nat)
    requires DistinctPrices(pps) && multiset(s) == multiset(pps) && Sorting.NoInversion(s, Better)
    requires j < |TopPoints(pps)| && j < |s|
    ensures s[j] in TopPoints(pps)
  {
    Sorting.PermutationMembers(s, pps);
    if s[j] !in TopPoints(pps) {
      var k :| 0 <= k < |pps| && Better(pps[k], s[j]);
      forall pp | pp in TopPoints(pps)
        ensures pp in s[..j]
      {
        assert pp in s;
        var i :| 0 <= i < |s| && s[i] == pp;
        assert !Better(pps[k], s[i]);
        assert i < j ==> s[..j][i] == pp;
      }
      Sorting.SetSize(s[..j]);
      Sorting.SubsetSize(TopPoints(pps), set x | x in s[..j]);
    }
  }

  /** `same` lists exactly the points of most volume, by rising imbalance. */
  ghost predicate MostVolumeSorted(pps: seq<PricePoint>, same: seq<PricePoint>) {
    && (forall pp :: pp in same <==> MostVolume(pps, pp))
    && Sorting.NoInversion(same, LessImbalance)
  }

  /** The first `n` entries are equally imbalanced, and the next one is not. */
  predicate EqualPrefix(same: seq<PricePoint>, n: nat) {
    && 0 < n <= |same|
    && (forall i | 0 <= i < n :: same[i].absImbalance == same[0].absImbalance)
    && (n == |same| || same[n].absImbalance != same[0].absImbalance)
  }

  lemma TopIsInPrefix(pps: seq<PricePoint>, same: seq<PricePoint>, n: nat, pp: PricePoint)
    requires MostVolumeSorted(pps, same) && EqualPrefix(same, n) && pp in TopPoints(pps)
    ensures pp in same[..n]
  {
    assert MostVolume(pps, same[0]);
    assert MostVolume(pps, pp);
  }

  lemma PrefixIsTop(pps: seq<PricePoint>, same: seq<PricePoint>, n: nat, pp: PricePoint)
    requires MostVolumeSorted(pps, same) && EqualPrefix(same, n) && pp in same[..n]
    ensures pp in TopPoints(pps)
  {
    assert MostVolume(pps, pp);
    forall i | 0 <= i < |pps|
      ensures !Better(pps[i], pp)
    {
      if pps[i].executionAmount == pp.executionAmount {
        assert MostVolume(pps, pps[i]);
      }
    }
  }

  /** So the first `n` are the top points. */
  lemma CountTops(pps: seq<PricePoint>, same: seq<PricePoint>, n: nat)
    requires DistinctPrices(pps) && DistinctPrices(same)
    requires MostVolumeSorted(pps, same) && EqualPrefix(same, n)
    ensures |TopPoints(pps)| == n
    ensures forall i | 0 <= i < n :: same[i] in TopPoints(pps)
  {
    forall pp
      ensures pp in TopPoints(pps) <==> pp in same[..n]
    {
      if pp in TopPoints(pps) {
        TopIsInPrefix(pps, same, n, pp);
      }
      if pp in same[..n] {
        PrefixIsTop(pps, same, n, pp);
      }
    }
    hide MostVolumeSorted, Top;
    assert TopPoints(pps) == set x | x in same[..n];
    Sorting.SetSize(same[..n]);
    assert forall i | 0 <= i < n :: same[i] == same[..n][i];
  }

  /** Steps 1 and 2: the points of most volume, in sorted order. */
  method PointsOfMostVolume(points: seq<PricePoint>) returns (ppList: seq<PricePoint>, sameEA: seq<PricePoint>)
    requires points != [] && DistinctPrices(points)
    ensures multiset(ppList) == multiset(points) && Sorting.NoInversion(ppList, Better)
    ensures sameEA != [] && sameEA <= ppList && DistinctPrices(sameEA)
    ensures forall pp :: pp in sameEA <==> MostVolume(points, pp)
  {
    ppList := Sorting.Sort(points, Better);
    Sorting.PermutationMembers(ppList, points);
    Sorting.PermutationKeepsDistinct(points, ppList, (pp: PricePoint) => pp.price);
    sameEA := [ppList[0]];
    var i := 1;
    while i < |ppList| && ppList[i].executionAmount == ppList[0].executionAmount
      invariant 1 <= i <= |ppList| && sameEA == ppList[..i]
      invariant forall j | 0 <= j < i :: ppList[j].executionAmount == ppList[0].executionAmount
    {
      sameEA := sameEA + [ppList[i]];
      i := i + 1;
    }
    SameVolumePrefix(points, ppList, i);
  }

  /** Step 3: among them, those of least imbalance. */
  method PointsOfLeastImbalance(ghost points: seq<PricePoint>, ppList: seq<PricePoint>, unsorted: seq<PricePoint>)
    returns (ties: seq<PricePoint>)
    requires DistinctPrices(points) && multiset(ppList) == multiset(points) && Sorting.NoInversion(ppList, Better)
    requires unsorted != [] && unsorted <= ppList && DistinctPrices(unsorted)
    requires forall pp :: pp in unsorted <==> MostVolume(points, pp)
    ensures ties != [] && Ties(points, ties)
  {
    var sameEA := Sorting.Sort(unsorted, LessImbalance);
    SortedByImbalance(points, unsorted, sameEA);
    hide *;
    PrefixSize(unsorted, ppList);
    ties := [sameEA[0]];
    var i := 1;
    while i < |sameEA| && sameEA[i].absImbalance == sameEA[0].absImbalance
      invariant 1 <= i <= |sameEA| <= |ppList| && |ties| == i
      invariant ties[0] == sameEA[0]
      invariant forall j | 1 <= j < i :: ties[j] == ppList[j]
      invariant forall j | 0 <= j < i :: sameEA[j].absImbalance == sameEA[0].absImbalance
    {
      ties := ties + [ppList[i]];  // from the first list, as in the code
      i := i + 1;
    }
    TiesAreTops(points, ppList, sameEA, ties);
  }

  lemma SortedByImbalance(points: seq<PricePoint>, unsorted: seq<PricePoint>, sameEA: seq<PricePoint>)
    requires DistinctPrices(unsorted) && multiset(sameEA) == multiset(unsorted)
    requires Sorting.NoInversion(sameEA, LessImbalance)
    requires forall pp :: pp in unsorted <==> MostVolume(points, pp)
    ensures |sameEA| == |unsorted| && DistinctPrices(sameEA) && MostVolumeSorted(points, sameEA)
  {
    Sorting.PermutationMembers(sameEA, unsorted);
    Sorting.PermutationKeepsDistinct(unsorted, sameEA, (pp: PricePoint) => pp.price);
  }

  lemma PrefixSize(a: seq<PricePoint>, b: seq<PricePoint>)
    requires a <= b
    ensures |a| <= |b|
  {
  }

  lemma TiesAreTops(points: seq<PricePoint>, ppList: seq<PricePoint>, sameEA: seq<PricePoint>, ties: seq<PricePoint>)
    requires DistinctPrices(points) && multiset(ppList) == multiset(points) && Sorting.NoInversion(ppList, Better)
    requires DistinctPrices(sameEA) && MostVolumeSorted(points, sameEA) && EqualPrefix(sameEA, |ties|)
    requires ties != [] && |ties| <= |ppList| && ties[0] == sameEA[0]
    requires forall j | 1 <= j < |ties| :: ties[j] == ppList[j]
    ensures Ties(points, ties)
  {
    CountTops(points, sameEA, |ties|);
    Sorting.PermutationKeepsDistinct(points, ppList, (pp: PricePoint) => pp.price);
    forall j | 0 <= j < |ties|
      ensures ties[j] in TopPoints(points)
    {
      TopsComeFirst(points, ppList, j);
    }
  }

  /** Step 4: several ties. */
  method SelectByPressure(highPrice: word, midPrice: word, lowPrice: word, ties: seq<PricePoint>)
    returns (r: Result<word>)
    requires |ties| > 1
    ensures r == Select(highPrice, midPrice, lowPrice, ties)
  {
    if midPrice == 0 {
      if |ties| % 2 == 1 {
        return Throw;
      }
      return Ok(ties[|ties| / 2].price);
    }
    var allImbalanceIsNegative, allImbalanceIsPositive := true, true;
    for k := 0 to |ties|
      invariant allImbalanceIsPositive <==> NoneNegative(ties[..k])
      invariant allImbalanceIsNegative <==> NonePositive(ties[..k])
    {
      assert ties[..k + 1] == ties[..k] + [ties[k]];
      if S256.Sign(ties[k].imbalance) == -1 {
        allImbalanceIsPositive := false;
        assert !NoneNegative(ties[..k + 1]) by { assert ties[..k + 1][k] == ties[k]; }
      }
      if S256.Sign(ties[k].imbalance) == 1 {
        allImbalanceIsNegative := false;
        assert !NonePositive(ties[..k + 1]) by { assert ties[..k + 1][k] == ties[k]; }
      }
    }
    assert ties[..|ties|] == ties;
    var reference :=
      if allImbalanceIsPositive then highPrice else if allImbalanceIsNegative then lowPrice else midPrice;
    var highest, lowest := ties[0].price, ties[|ties| - 1].price;
    if highest < reference {
      r := Ok(highest);
    } else if lowest > reference {
      r := Ok(lowest);
    } else {
      r := Ok(reference);
    }
  }

  // ---- The ties of a curve, by price ----

  /** The code prefers price `p` to price `q`. */
  predicate Beats(os: seq<PricePoint>, p: nat, q: nat) {
    || Tradable(os, p) > Tradable(os, q)
    || (&& Tradable(os, p) == Tradable(os, q)
        && AbsImbalanceAt(os, p).Ok? && AbsImbalanceAt(os, q).Ok?
        && AbsImbalanceAt(os, p).value < AbsImbalanceAt(os, q).value)
  }

  /** No order price beats `p`. */
  predicate TopPrice(os: seq<PricePoint>, p: word) {
    HasPrice(os, p) && forall i | 0 <= i < |os| :: !Beats(os, os[i].price, p)
  }

  function TopPrices(os: seq<PricePoint>): set<word> {
    set i | 0 <= i < |os| && TopPrice(os, os[i].price) :: os[i].price
  }

  lemma TopPointHasTopPrice(pps: seq<PricePoint>, os: seq<PricePoint>, i: nat)
    requires Curve(pps, os) && i < |pps|
    ensures pps[i] in TopPoints(pps) <==> pps[i].price in TopPrices(os)
  {
    var p := pps[i].price;
    assert HasPrice(pps, p) && Measured(pps[i], os);
    if pps[i] in TopPoints(pps) {
      forall j | 0 <= j < |os|
        ensures !Beats(os, os[j].price, p)
      {
        assert HasPrice(os, os[j].price) && HasPrice(pps, os[j].price);
        var k :| 0 <= k < |pps| && pps[k].price == os[j].price;
        assert Measured(pps[k], os) && !Better(pps[k], pps[i]);
      }
      var j :| 0 <= j < |os| && os[j].price == p;
    }
    if TopPrice(os, p) {
      forall k | 0 <= k < |pps|
        ensures !Better(pps[k], pps[i])
      {
        assert HasPrice(pps, pps[k].price) && Measured(pps[k], os);
        var j :| 0 <= j < |os| && os[j].price == pps[k].price;
        assert !Beats(os, os[j].price, p);
      }
    }
  }

  /** However the curve is measured, its top points have the top prices. */
  lemma TopPointsAreTopPrices(pps: seq<PricePoint>, os: seq<PricePoint>)
    requires Curve(pps, os)
    ensures |TopPoints(pps)| == |TopPrices(os)|
  {
    var tops, prices := TopPoints(pps), TopPrices(os);
    forall pp | pp in tops
      ensures pp.price in prices
    {
      var i :| 0 <= i < |pps| && pps[i] == pp;
      TopPointHasTopPrice(pps, os, i);
    }
    forall p | p in prices
      ensures exists pp :: pp in tops && pp.price == p
    {
      assert HasPrice(pps, p);
      var i :| 0 <= i < |pps| && pps[i].price == p;
      TopPointHasTopPrice(pps, os, i);
    }
    Sorting.ImageSize(tops, prices, (pp: PricePoint) => pp.price);
  }

  /** With a middle price of zero these throw. */
  predicate OddTies(os: seq<PricePoint>) {
    |TopPrices(os)| > 1 && |TopPrices(os)| % 2 == 1
  }

  method CalculateExecutionPrice(highPrice: word, midPrice: word, lowPrice: word, points: seq<PricePoint>)
    returns (r: Result<word>)
    requires points != [] && DistinctPrices(points)
    ensures exists ties :: ties != [] && Ties(points, ties) && r == Select(highPrice, midPrice, lowPrice, ties)
    ensures r.Ok? ==> exists ties ::
      ties != [] && Ties(points, ties) && Decided(highPrice, midPrice, lowPrice, ties, r.value)
  {
    r := SelectPrice(highPrice, midPrice, lowPrice, points);
    if r.Ok? {
      ghost var ties :| ties != [] && Ties(points, ties) && r == Select(highPrice, midPrice, lowPrice, ties);
      SelectsWhatIsDecided(highPrice, midPrice, lowPrice, ties, r.value);
    }
  }

  method SelectPrice(highPrice: word, midPrice: word, lowPrice: word, points: seq<PricePoint>)
    returns (r: Result<word>)
    requires points != [] && DistinctPrices(points)
    ensures exists ties :: ties != [] && Ties(points, ties) && r == Select(highPrice, midPrice, lowPrice, ties)
  {
    var ppList, sameEA := PointsOfMostVolume(points);
    if |sameEA| == 1 {
      CountTops(points, sameEA, 1);
      assert Ties(points, sameEA);
      return Ok(sameEA[0].price);
    }
    var sameImbalance := PointsOfLeastImbalance(points, ppList, sameEA);
    assert Ties(points, sameImbalance);
    if |sameImbalance| == 1 {
      return Ok(sameImbalance[0].price);
    }
    r := SelectByPressure(highPrice, midPrice, lowPrice, sameImbalance);
  }

  lemma SameVolumePrefix(pps: seq<PricePoint>, s: seq<PricePoint>, n: nat)
    requires multiset(s) == multiset(pps) && Sorting.NoInversion(s, Better) && 0 < n <= |s|
    requires forall j | 0 <= j < n :: s[j].executionAmount == s[0].executionAmount
    requires n == |s| || s[n].executionAmount != s[0].executionAmount
    ensures forall pp :: pp in s[..n] <==> MostVolume(pps, pp)
  {
    Sorting.PermutationMembers(s, pps);
    assert forall i | 0 < i < |s| :: !Better(s[i], s[0]);
    forall pp
      ensures pp in s[..n] <==> MostVolume(pps, pp)
    {
      if pp in s[..n] {
        var j :| 0 <= j < n && s[j] == pp;
        forall i | 0 <= i < |pps|
          ensures pps[i].executionAmount <= pp.executionAmount
        {
          assert pps[i] in s;
        }
      }
      if MostVolume(pps, pp) {
        assert pp in s && s[0] in pps;
        var j :| 0 <= j < |s| && s[j] == pp;
        assert forall k | n < k < |s| :: !Better(s[k], s[n]);
        assert s[..n][j] == pp;
      }
    }
  }
}
