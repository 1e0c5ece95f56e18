/** What the chosen execution price is worth. */
module AuctionPrice {
  import opened Prelude
  import opened U256
  import opened AuctionBook
  import opened AuctionPricing
  import opened AuctionChoice
  import S256
  import Sorting

  function PointsOf(b: Book): seq<PricePoint> {
    AsPoints(b.bids + b.asks)
  }

  /** `p` is a price the code may choose for `b`: ties may come in any order. */
  ghost predicate ExecutionPrice(highPrice: word, midPrice: word, lowPrice: word, b: Book, p: word) {
    exists pps, ties :: ChosenFrom(pps, ties, highPrice, midPrice, lowPrice, PointsOf(b), p)
  }

  /** `p` is selected among the ties of the measured curve `pps` of `os`. */
  ghost predicate ChosenFrom(pps: seq<PricePoint>, ties: seq<PricePoint>,
      highPrice: word, midPrice: word, lowPrice: word, os: seq<PricePoint>, p: word)
  {
    Curve(pps, os) && ties != [] && Ties(pps, ties) && Select(highPrice, midPrice, lowPrice, ties) == Ok(p)
  }

  /** A price can be chosen: the curve can be measured, and there is a middle price or no odd number of several ties. */
  predicate Priceable(midPrice: word, b: Book) {
    Measurable(PointsOf(b)) && (midPrice == 0 ==> !OddTies(PointsOf(b)))
  }

  method GetExecutionPrice(highPrice: word, midPrice: word, lowPrice: word,
      bidList: seq<OrderState>, askList: seq<OrderState>)
    returns (r: Result<word>)
    requires bidList + askList != []
    ensures r.Ok? ==> ExecutionPrice(highPrice, midPrice, lowPrice, Book(bidList, askList, []), r.value)
    ensures r.Ok? <==> Priceable(midPrice, Book(bidList, askList, []))
  {
    var orderList := bidList + askList;
    ghost var os := AsPoints(orderList);
    assert os == PointsOf(Book(bidList, askList, []));
    if Measurable(os) {
      FittingTotalsFit(os);
    }
    var ppList :- CreatePricePointList(orderList);
    SameCurveSameMeasures(ppList, os);
    var measured :- AccumulateForPricePointList(ppList);
    CurveOfMerged(measured, ppList, os);
    assert HasPrice(os, os[0].price) && HasPrice(measured, os[0].price);
    r := CalculateExecutionPrice(highPrice, midPrice, lowPrice, measured);
    ghost var ties :| ties != [] && Ties(measured, ties) && r == Select(highPrice, midPrice, lowPrice, ties);
    SelectThrowsOnOddTies(highPrice, midPrice, lowPrice, ties);
    TopPointsAreTopPrices(measured, os);
    if r.Ok? {
      assert ChosenFrom(measured, ties, highPrice, midPrice, lowPrice, os, r.value);
    }
  }

  lemma CurveOfMerged(measured: seq<PricePoint>, merged: seq<PricePoint>, os: seq<PricePoint>)
    requires Curve(measured, merged) && Merged(merged, os)
    ensures Curve(measured, os)
  {
  }

  // ---- Between two ties ----

  /** Whatever the pressure, the chosen price lies between the prices of two ties. */
  lemma SelectedBetweenTies(highPrice: word, midPrice: word, lowPrice: word, ties: seq<PricePoint>)
    returns (lo: nat, hi: nat)
    requires ties != [] && Select(highPrice, midPrice, lowPrice, ties).Ok?
    ensures lo < |ties| && hi < |ties|
    ensures ties[lo].price <= Select(highPrice, midPrice, lowPrice, ties).value <= ties[hi].price
  {
    var p := Select(highPrice, midPrice, lowPrice, ties).value;
    if |ties| > 1 && midPrice == 0 {
      lo, hi := |ties| / 2, |ties| / 2;
    } else if p == ties[0].price {
      lo, hi := 0, 0;
    } else if p == ties[|ties| - 1].price {
      lo, hi := |ties| - 1, |ties| - 1;
    } else {
      lo, hi := |ties| - 1, 0;
    }
  }

  function Distance(a: word, b: word): nat {
    if a < b then b - a else a - b
  }

  predicate InSpan(x: word, ties: seq<PricePoint>)
    requires ties != []
  {
    var first, last := ties[0].price, ties[|ties| - 1].price;
    if first < last then first <= x <= last else last <= x <= first
  }

  /** Whatever the reference, no price in the span of the ties is nearer to it than the one picked. */
  ghost predicate PicksNearest(ties: seq<PricePoint>)
    requires ties != []
  {
    forall reference: word, x: word | InSpan(x, ties) ::
      && InSpan(Towards(reference, ties), ties)
      && Distance(Towards(reference, ties), reference) <= Distance(x, reference)
  }

  /** That is so exactly if the first tie is not below the last. */
  lemma TowardsIsNearest(ties: seq<PricePoint>)
    requires ties != []
    ensures PicksNearest(ties) <==> ties[0].price >= ties[|ties| - 1].price
  {
    var first, last := ties[0].price, ties[|ties| - 1].price;
    if first < last {
      assert InSpan(last, ties) && Distance(Towards(last, ties), last) > Distance(last, last);
    }
  }

  /** With a middle price of zero the choice throws exactly on an odd number of several ties; otherwise never. */
  lemma SelectThrowsOnOddTies(highPrice: word, midPrice: word, lowPrice: word, ties: seq<PricePoint>)
    requires ties != []
    ensures Select(highPrice, midPrice, lowPrice, ties).Throw? <==> midPrice == 0 && |ties| > 1 && |ties| % 2 == 1
  {
  }

  // ---- Maximum volume ----

  lemma {:induction false} CurveMonotone(pps: seq<PricePoint>, p: nat, q: nat)
    requires p <= q
    ensures Demand(pps, p) >= Demand(pps, q) && Supply(pps, p) <= Supply(pps, q)
  {
    if pps != [] {
      CurveMonotone(pps[1..], p, q);
    }
  }

  lemma {:induction false} SupplyOnlyChangesAtPrices(pps: seq<PricePoint>, q: nat)
    requires forall i | 0 <= i < |pps| :: pps[i].price != q
    ensures Supply(pps, q) == if q == 0 then 0 else Supply(pps, q - 1)
  {
    if pps != [] {
      SupplyOnlyChangesAtPrices(pps[1..], q);
    }
  }

  /** Lowering a price to the next order price below never loses volume. */
  lemma {:induction false} BestAtSomePoint(pps: seq<PricePoint>, q: nat) returns (i: nat)
    requires Tradable(pps, q) > 0
    ensures i < |pps| && Tradable(pps, pps[i].price) >= Tradable(pps, q)
    decreases q
  {
    if k :| 0 <= k < |pps| && pps[k].price == q {
      i := k;
    } else {
      SupplyOnlyChangesAtPrices(pps, q);
      CurveMonotone(pps, q - 1, q);
      i := BestAtSomePoint(pps, q - 1);
    }
  }

  lemma TopBeatsEveryPrice(pps: seq<PricePoint>, os: seq<PricePoint>, top: PricePoint, q: nat)
    requires Curve(pps, os) && top in TopPoints(pps)
    ensures Tradable(os, q) <= Tradable(os, top.price)
  {
    var t :| 0 <= t < |pps| && pps[t] == top;
    if Tradable(os, q) > 0 {
      var i := BestAtSomePoint(os, q);
      assert HasPrice(os, os[i].price) && HasPrice(pps, os[i].price);
      var k :| 0 <= k < |pps| && pps[k].price == os[i].price;
      assert Measured(pps[k], os) && Measured(pps[t], os) && !Better(pps[k], top);
    }
  }

  lemma {:induction false} VolumeIsCurve(os: seq<OrderState>, q: nat, side: Side)
    requires OneSided(os, side)
    ensures Demand(AsPoints(os), q) == if side.Buy? then Volume(os, q) else 0
    ensures Supply(AsPoints(os), q) == if side.Sell? then Volume(os, q) else 0
  {
    if os != [] {
      assert AsPoints(os)[1..] == AsPoints(os[1..]);
      VolumeIsCurve(os[1..], q, side);
    }
  }

  lemma CrossedIsTradable(b: Book, q: nat)
    requires OneSided(b.bids, Buy) && OneSided(b.asks, Sell)
    ensures Demand(PointsOf(b), q) == Volume(b.bids, q)
    ensures Supply(PointsOf(b), q) == Volume(b.asks, q)
    ensures Tradable(PointsOf(b), q) == Crossed(b, q)
  {
    assert PointsOf(b) == AsPoints(b.bids) + AsPoints(b.asks);
    CurveConcat(AsPoints(b.bids), AsPoints(b.asks), q);
    VolumeIsCurve(b.bids, q, Buy);
    VolumeIsCurve(b.asks, q, Sell);
  }

  /** No price whatever could trade more than the chosen one, order price or not. */
  lemma ChosenPriceHasMaximumVolume(highPrice: word, midPrice: word, lowPrice: word, b: Book, p: word, q: nat)
    requires OneSided(b.bids, Buy) && OneSided(b.asks, Sell)
    requires ExecutionPrice(highPrice, midPrice, lowPrice, b, p)
    ensures Crossed(b, q) <= Crossed(b, p)
  {
    var pps: seq<PricePoint>, ties: seq<PricePoint> :|
      ChosenFrom(pps, ties, highPrice, midPrice, lowPrice, PointsOf(b), p);
    var lo, hi := SelectedBetweenTies(highPrice, midPrice, lowPrice, ties);
    var os := PointsOf(b);
    TopBeatsEveryPrice(pps, os, ties[lo], q);
    TopBeatsEveryPrice(pps, os, ties[hi], q);
    CurveMonotone(os, ties[lo].price, p);
    CurveMonotone(os, p, ties[hi].price);
    CrossedIsTradable(b, p);
    CrossedIsTradable(b, q);
  }

  // ---- Least imbalance ----

  /** How far demand and supply at `q` are apart. */
  function Imbalance(pps: seq<PricePoint>, q: nat): int {
    Demand(pps, q) - Supply(pps, q)
  }

  function AbsInt(n: int): nat {
    if n < 0 then -n else n
  }

  /** Below 2^255 the two's complement imbalance is the true difference. */
  lemma MeasuredImbalance(pp: PricePoint, os: seq<PricePoint>)
    requires SmallTotals(os) && Measured(pp, os)
    ensures S256.Value(pp.imbalance) == Imbalance(os, pp.price)
    ensures pp.absImbalance == AbsInt(Imbalance(os, pp.price))
  {
    CurveBounds(os, pp.price);
    S256.SubIsExact(pp.accumulatedBidAmount, pp.accumulatedAskAmount);
  }

  /** Among the order prices of maximum volume none is less imbalanced than the chosen price. */
  lemma ChosenPriceHasLeastImbalance(highPrice: word, midPrice: word, lowPrice: word, b: Book, p: word, o: OrderState)
    requires OneSided(b.bids, Buy) && OneSided(b.asks, Sell) && SmallTotals(PointsOf(b))
    requires ExecutionPrice(highPrice, midPrice, lowPrice, b, p)
    requires o in b.bids || o in b.asks
    ensures Crossed(b, o.price) == Crossed(b, p) ==>
            AbsInt(Volume(b.bids, p) - Volume(b.asks, p)) <= AbsInt(Volume(b.bids, o.price) - Volume(b.asks, o.price))
  {
    hide *;
    OrderHasPoint(b, o);
    ImbalanceOfBook(b, p);
    ImbalanceOfBook(b, o.price);
    if Crossed(b, o.price) == Crossed(b, p) {
      NoPriceTradesMore(highPrice, midPrice, lowPrice, b, p);
      LeastImbalanceOfChoice(highPrice, midPrice, lowPrice, b, p, o.price);
    }
  }

  lemma ImbalanceOfBook(b: Book, q: nat)
    requires OneSided(b.bids, Buy) && OneSided(b.asks, Sell)
    ensures Tradable(PointsOf(b), q) == Crossed(b, q)
    ensures Imbalance(PointsOf(b), q) == Volume(b.bids, q) - Volume(b.asks, q)
  {
    CrossedIsTradable(b, q);
  }

  lemma NoPriceTradesMore(highPrice: word, midPrice: word, lowPrice: word, b: Book, p: word)
    requires OneSided(b.bids, Buy) && OneSided(b.asks, Sell)
    requires ExecutionPrice(highPrice, midPrice, lowPrice, b, p)
    ensures forall r: nat :: Tradable(PointsOf(b), r) <= Tradable(PointsOf(b), p)
  {
    CrossedIsTradable(b, p);
    forall r: nat
      ensures Tradable(PointsOf(b), r) <= Tradable(PointsOf(b), p)
    {
      ChosenPriceHasMaximumVolume(highPrice, midPrice, lowPrice, b, p, r);
      CrossedIsTradable(b, r);
    }
  }

  lemma OrderHasPoint(b: Book, o: OrderState)
    requires o in b.bids || o in b.asks
    ensures HasPrice(PointsOf(b), o.price)
  {
    var all := b.bids + b.asks;
    assert o in all;
    var i :| 0 <= i < |all| && all[i] == o;
    assert PointsOf(b)[i].price == o.price;
  }

  lemma LeastImbalanceOfChoice(highPrice: word, midPrice: word, lowPrice: word, b: Book, p: word, q: word)
    requires ExecutionPrice(highPrice, midPrice, lowPrice, b, p) && SmallTotals(PointsOf(b))
    requires HasPrice(PointsOf(b), q) && Tradable(PointsOf(b), q) == Tradable(PointsOf(b), p)
    requires forall r: nat :: Tradable(PointsOf(b), r) <= Tradable(PointsOf(b), p)
    ensures AbsInt(Imbalance(PointsOf(b), p)) <= AbsInt(Imbalance(PointsOf(b), q))
  {
    var pps: seq<PricePoint>, ties: seq<PricePoint> :|
      ChosenFrom(pps, ties, highPrice, midPrice, lowPrice, PointsOf(b), p);
    var lo, hi := SelectedBetweenTies(highPrice, midPrice, lowPrice, ties);
    LeastImbalanceBetween(pps, PointsOf(b), ties[lo], ties[hi], p, q);
  }

  lemma LeastImbalanceBetween(pps: seq<PricePoint>, os: seq<PricePoint>,
      lo: PricePoint, hi: PricePoint, p: nat, q: word)
    requires Curve(pps, os) && SmallTotals(os) && lo in TopPoints(pps) && hi in TopPoints(pps)
    requires lo.price <= p <= hi.price
    requires HasPrice(os, q) && Tradable(os, q) == Tradable(os, p)
    requires forall r: nat :: Tradable(os, r) <= Tradable(os, p)
    ensures AbsInt(Imbalance(os, p)) <= AbsInt(Imbalance(os, q))
  {
    assert HasPrice(pps, q);
    var k :| 0 <= k < |pps| && pps[k].price == q;
    TieIsNoWorse(pps, os, lo, k, p);
    TieIsNoWorse(pps, os, hi, k, p);
    CurveMonotone(os, lo.price, p);
    CurveMonotone(os, p, hi.price);
  }

  lemma TieIsNoWorse(pps: seq<PricePoint>, os: seq<PricePoint>, top: PricePoint, k: nat, p: nat)
    requires Curve(pps, os) && SmallTotals(os) && top in TopPoints(pps) && k < |pps|
    requires Tradable(os, pps[k].price) == Tradable(os, p)
    requires forall q: nat :: Tradable(os, q) <= Tradable(os, p)
    ensures AbsInt(Imbalance(os, top.price)) <= AbsInt(Imbalance(os, pps[k].price))
  {
    var t :| 0 <= t < |pps| && pps[t] == top;
    MeasuredImbalance(pps[k], os);
    MeasuredImbalance(pps[t], os);
    assert !Better(pps[k], top);
  }

  // ---- When a price can be chosen ----

  function MeasuredPoint(os: seq<PricePoint>, q: word): (pp: PricePoint)
    requires AbsImbalanceAt(os, q).Ok?
    ensures Measured(pp, os) && pp.price == q
  {
    PricePoint(q, 0, 0, Supply(os, q), Demand(os, q), Tradable(os, q),
      S256.Sub(Demand(os, q), Supply(os, q)).value, AbsImbalanceAt(os, q).value)
  }

  lemma {:induction false} CurveExists(os: seq<PricePoint>, n: nat) returns (pps: seq<PricePoint>)
    requires Measurable(os) && n <= |os|
    ensures DistinctPrices(pps) && SamePrices(pps, os[..n])
    ensures forall i | 0 <= i < |pps| :: Measured(pps[i], os)
  {
    pps := [];
    if n > 0 {
      var before := CurveExists(os, n - 1);
      var q := os[n - 1].price;
      assert os[..n] == os[..n - 1] + [os[n - 1]];
      hide MeasuredPoint, Measured, AbsImbalanceAt, TotalsFit;
      if HasPrice(before, q) {
        pps := before;
        AddKnownPrice(before, os[..n - 1], os[n - 1]);
      } else {
        pps := before + [MeasuredPoint(os, q)];
        AddNewPrice(before, MeasuredPoint(os, q), os[..n - 1], os[n - 1]);
      }
    }
  }

  lemma AddKnownPrice(a: seq<PricePoint>, b: seq<PricePoint>, y: PricePoint)
    requires SamePrices(a, b) && HasPrice(a, y.price)
    ensures SamePrices(a, b + [y])
  {
    forall p: word
      ensures HasPrice(a, p) <==> HasPrice(b + [y], p)
    {
      assert HasPrice(a, p) <==> HasPrice(b, p);
      AddPrice(b, y, p);
    }
  }

  lemma AddNewPrice(a: seq<PricePoint>, x: PricePoint, b: seq<PricePoint>, y: PricePoint)
    requires DistinctPrices(a) && SamePrices(a, b) && !HasPrice(a, x.price) && x.price == y.price
    ensures DistinctPrices(a + [x]) && SamePrices(a + [x], b + [y])
  {
    forall p: word
      ensures HasPrice(a + [x], p) <==> HasPrice(b + [y], p)
    {
      assert HasPrice(a, p) <==> HasPrice(b, p);
      AddPrice(a, x, p);
      AddPrice(b, y, p);
    }
  }

  lemma AddPrice(pps: seq<PricePoint>, pp: PricePoint, p: word)
    ensures HasPrice(pps + [pp], p) <==> HasPrice(pps, p) || pp.price == p
  {
    var all := pps + [pp];
    if HasPrice(pps, p) {
      var i :| 0 <= i < |pps| && pps[i].price == p;
      assert all[i].price == p;
    }
    assert all[|pps|] == pp;
  }

  /** Any of the top points can come first among the ties. */
  lemma TiesFrom(pps: seq<PricePoint>, top: PricePoint) returns (ties: seq<PricePoint>)
    requires top in TopPoints(pps)
    ensures ties != [] && Ties(pps, ties) && ties[0] == top
  {
    var others := Listed(TopPoints(pps) - {top});
    ties := [top] + others;
  }

  lemma {:induction false} Listed(s: set<PricePoint>) returns (list: seq<PricePoint>)
    ensures |list| == |s| && (forall i | 0 <= i < |list| :: list[i] in s)
    ensures forall i, j | 0 <= i < j < |list| :: list[i] != list[j]
  {
    list := [];
    if s != {} {
      var x :| x in s;
      list := Listed(s - {x});
      list := [x] + list;
    }
  }

  lemma {:induction false} SomeTopPoint(pps: seq<PricePoint>) returns (t: nat)
    requires pps != []
    ensures t < |pps| && forall i | 0 <= i < |pps| :: !Better(pps[i], pps[t])
  {
    t := 0;
    if |pps| > 1 {
      var n := |pps| - 1;
      var u := SomeTopPoint(pps[..n]);
      t := if Better(pps[n], pps[u]) then n else u;
      assert forall i | 0 <= i < n :: pps[..n][i] == pps[i];
    }
  }

  lemma {:induction false} LowestPrice(os: seq<PricePoint>) returns (i: nat)
    requires os != []
    ensures i < |os| && forall pp | pp in os :: pp.price >= os[i].price
  {
    i := 0;
    if |os| > 1 {
      var j := LowestPrice(os[1..]);
      i := if os[0].price <= os[1..][j].price then 0 else j + 1;
      assert forall pp | pp in os :: pp == os[0] || pp in os[1..];
    }
  }

  lemma {:induction false} HighestPrice(os: seq<PricePoint>) returns (i: nat)
    requires os != []
    ensures i < |os| && forall pp | pp in os :: pp.price <= os[i].price
  {
    i := 0;
    if |os| > 1 {
      var j := HighestPrice(os[1..]);
      i := if os[0].price >= os[1..][j].price then 0 else j + 1;
      assert forall pp | pp in os :: pp == os[0] || pp in os[1..];
    }
  }

  lemma MeasuredIsMeasurable(pps: seq<PricePoint>, os: seq<PricePoint>)
    requires Curve(pps, os) && os != []
    ensures Measurable(os)
  {
    forall i | 0 <= i < |os|
      ensures AbsImbalanceAt(os, os[i].price).Ok?
    {
      assert HasPrice(os, os[i].price) && HasPrice(pps, os[i].price);
      var k :| 0 <= k < |pps| && pps[k].price == os[i].price;
      assert Measured(pps[k], os);
    }
    var lo := LowestPrice(os);
    var hi := HighestPrice(os);
    CurveBounds(os, os[lo].price);
    CurveBounds(os, os[hi].price);
  }

  /** There is a price to choose exactly if the book is priceable; then any top price can head the ties. */
  lemma PriceExists(highPrice: word, midPrice: word, lowPrice: word, b: Book)
    requires b.bids + b.asks != []
    ensures Priceable(midPrice, b) <==> exists p: word :: ExecutionPrice(highPrice, midPrice, lowPrice, b, p)
  {
    var os := PointsOf(b);
    if p: word :| ExecutionPrice(highPrice, midPrice, lowPrice, b, p) {
      var pps: seq<PricePoint>, ties: seq<PricePoint> :|
        ChosenFrom(pps, ties, highPrice, midPrice, lowPrice, os, p);
      MeasuredIsMeasurable(pps, os);
      TopPointsAreTopPrices(pps, os);
      SelectThrowsOnOddTies(highPrice, midPrice, lowPrice, ties);
    }
    if Priceable(midPrice, b) {
      var pps := CurveExists(os, |os|);
      assert os[..|os|] == os;
      assert HasPrice(os, os[0].price) && HasPrice(pps, os[0].price);
      var t := SomeTopPoint(pps);
      var ties := TiesFrom(pps, pps[t]);
      TopPointsAreTopPrices(pps, os);
      SelectThrowsOnOddTies(highPrice, midPrice, lowPrice, ties);
      var p := Select(highPrice, midPrice, lowPrice, ties).value;
      assert ChosenFrom(pps, ties, highPrice, midPrice, lowPrice, os, p);
      assert ExecutionPrice(highPrice, midPrice, lowPrice, b, p);
    }
  }

  // ---- When the choice is nearest to its reference ----

  /** Whatever order the ties come in. */
  ghost predicate AlwaysPicksNearest(b: Book) {
    forall pps, ties | Curve(pps, PointsOf(b)) && Ties(pps, ties) && ties != [] :: PicksNearest(ties)
  }

  lemma TiesBetween(pps: seq<PricePoint>, first: PricePoint, last: PricePoint) returns (ties: seq<PricePoint>)
    requires first in TopPoints(pps) && last in TopPoints(pps) && first != last
    ensures ties != [] && Ties(pps, ties) && ties[0] == first && ties[|ties| - 1] == last
  {
    hide TopPoints;
    var others := Listed(TopPoints(pps) - {first, last});
    ties := [first] + others + [last];
    assert TopPoints(pps) == (TopPoints(pps) - {first, last}) + {first, last};
  }

  /** As the order of ties is open, the choice is sure to be nearest exactly if there is no more than one top price. */
  lemma NearestExactlyWithoutTies(b: Book)
    requires Measurable(PointsOf(b)) && b.bids + b.asks != []
    ensures AlwaysPicksNearest(b) <==> |TopPrices(PointsOf(b))| <= 1
  {
    hide TopPrices, PicksNearest, Measured, Top;
    var os := PointsOf(b);
    if |TopPrices(os)| <= 1 {
      forall pps, ties | Curve(pps, os) && Ties(pps, ties) && ties != []
        ensures PicksNearest(ties)
      {
        TopPointsAreTopPrices(pps, os);
        TowardsIsNearest(ties);
      }
    } else {
      var pps := CurveExists(os, |os|);
      assert os[..|os|] == os;
      TopPointsAreTopPrices(pps, os);
      var x, y := TwoTops(pps);
      var ties := TiesBetween(pps, x, y);
      TowardsIsNearest(ties);
      assert !PicksNearest(ties);
    }
  }

  lemma TwoTops(pps: seq<PricePoint>) returns (x: PricePoint, y: PricePoint)
    requires DistinctPrices(pps) && |TopPoints(pps)| > 1
    ensures x in TopPoints(pps) && y in TopPoints(pps) && x.price < y.price
  {
    var tops := TopPoints(pps);
    x :| x in tops;
    assert |tops - {x}| == |tops| - 1;
    y :| y in tops - {x};
    if x.price > y.price {
      x, y := y, x;
    }
  }

  // ---- Market pressure ----

  /** The allowed prices are exactly those decided on some ties of the book. */
  lemma AllowedIsDecided(highPrice: word, midPrice: word, lowPrice: word, b: Book, p: word)
    ensures ExecutionPrice(highPrice, midPrice, lowPrice, b, p) <==>
      exists pps, ties | Curve(pps, PointsOf(b)) && Ties(pps, ties) && ties != [] ::
        Decided(highPrice, midPrice, lowPrice, ties, p)
  {
    var os := PointsOf(b);
    hide Curve, Ties, PointsOf, Decided, Select;
    if ExecutionPrice(highPrice, midPrice, lowPrice, b, p) {
      var pps: seq<PricePoint>, ties: seq<PricePoint> :|
        ChosenFrom(pps, ties, highPrice, midPrice, lowPrice, os, p);
      SelectsWhatIsDecided(highPrice, midPrice, lowPrice, ties, p);
    }
    if pps: seq<PricePoint>, ties: seq<PricePoint> :|
      Curve(pps, os) && Ties(pps, ties) && ties != [] && Decided(highPrice, midPrice, lowPrice, ties, p)
    {
      SelectsWhatIsDecided(highPrice, midPrice, lowPrice, ties, p);
      assert ChosenFrom(pps, ties, highPrice, midPrice, lowPrice, os, p);
    }
  }

  /** The price and the imbalance of a tie, seen from the book. */
  lemma TieOfBook(b: Book, pps: seq<PricePoint>, tie: PricePoint)
    requires OneSided(b.bids, Buy) && OneSided(b.asks, Sell) && SmallTotals(PointsOf(b))
    requires Curve(pps, PointsOf(b)) && tie in TopPoints(pps)
    ensures tie.price in TopPrices(PointsOf(b))
    ensures S256.Value(tie.imbalance) == Volume(b.bids, tie.price) - Volume(b.asks, tie.price)
  {
    var i :| 0 <= i < |pps| && pps[i] == tie;
    TopPointHasTopPrice(pps, PointsOf(b), i);
    MeasuredImbalance(pps[i], PointsOf(b));
    ImbalanceOfBook(b, tie.price);
  }

  /**
    * With several top prices and a middle price: if demand covers supply at all of them the price moves to `highPrice`,
    * if it falls short at all of them to `lowPrice`, between the first and the last tie.
    */
  lemma PressureMovesThePrice(highPrice: word, midPrice: word, lowPrice: word, b: Book, p: word)
    returns (first: word, last: word)
    requires OneSided(b.bids, Buy) && OneSided(b.asks, Sell) && SmallTotals(PointsOf(b))
    requires ExecutionPrice(highPrice, midPrice, lowPrice, b, p)
    requires midPrice != 0 && |TopPrices(PointsOf(b))| > 1
    ensures first in TopPrices(PointsOf(b)) && last in TopPrices(PointsOf(b))
    ensures (forall t | t in TopPrices(PointsOf(b)) :: Volume(b.bids, t) >= Volume(b.asks, t)) ==>
      MovedTo(p, highPrice, first, last)
    ensures (forall t | t in TopPrices(PointsOf(b)) :: Volume(b.bids, t) < Volume(b.asks, t)) ==>
      MovedTo(p, lowPrice, first, last)
  {
    var os := PointsOf(b);
    var pps: seq<PricePoint>, ties: seq<PricePoint> :|
      ChosenFrom(pps, ties, highPrice, midPrice, lowPrice, os, p);
    TopPointsAreTopPrices(pps, os);
    SelectsWhatIsDecided(highPrice, midPrice, lowPrice, ties, p);
    first, last := ties[0].price, ties[|ties| - 1].price;
    forall i | 0 <= i < |ties|
      ensures ties[i].price in TopPrices(os)
      ensures S256.Value(ties[i].imbalance) == Volume(b.bids, ties[i].price) - Volume(b.asks, ties[i].price)
    {
      TieOfBook(b, pps, ties[i]);
    }
    hide Curve, SmallTotals, Select, TopPoints, TopPrices, Measured, Volume, PointsOf, OneSided;
    assert S256.Value(ties[0].imbalance) == Volume(b.bids, first) - Volume(b.asks, first);
  }

  /** At most one top point is missing among the ties. */
  lemma OneOfTwoIsListed(pps: seq<PricePoint>, ties: seq<PricePoint>, x: PricePoint, y: PricePoint)
    requires Ties(pps, ties) && ties != [] && x in TopPoints(pps) && y in TopPoints(pps) && x != y
    ensures x in ties || y in ties
  {
    var rest, tops := ties[1..], TopPoints(pps);
    assert |tops - {x, y}| == |tops| - 2;
    if x !in ties && y !in ties {
      Sorting.SetSize(rest);
      assert (set t | t in rest) <= tops - {x, y};
      Sorting.SubsetSize((set t | t in rest), tops - {x, y});
    }
  }

  /** With two top prices of buying pressure and two of selling pressure, it moves to `midPrice`. */
  lemma MixedPressureMovesToMiddle(highPrice: word, midPrice: word, lowPrice: word, b: Book, p: word,
      buy1: word, buy2: word, sell1: word, sell2: word)
    returns (first: word, last: word)
    requires OneSided(b.bids, Buy) && OneSided(b.asks, Sell) && SmallTotals(PointsOf(b))
    requires ExecutionPrice(highPrice, midPrice, lowPrice, b, p) && midPrice != 0
    requires {buy1, buy2, sell1, sell2} <= TopPrices(PointsOf(b)) && buy1 != buy2 && sell1 != sell2
    requires Volume(b.bids, buy1) > Volume(b.asks, buy1) && Volume(b.bids, buy2) > Volume(b.asks, buy2)
    requires Volume(b.bids, sell1) < Volume(b.asks, sell1) && Volume(b.bids, sell2) < Volume(b.asks, sell2)
    ensures first in TopPrices(PointsOf(b)) && last in TopPrices(PointsOf(b))
    ensures MovedTo(p, midPrice, first, last)
  {
    var os := PointsOf(b);
    var pps: seq<PricePoint>, ties: seq<PricePoint> :|
      ChosenFrom(pps, ties, highPrice, midPrice, lowPrice, os, p);
    TopPointsAreTopPrices(pps, os);
    SelectsWhatIsDecided(highPrice, midPrice, lowPrice, ties, p);
    first, last := ties[0].price, ties[|ties| - 1].price;
    TieOfBook(b, pps, ties[0]);
    TieOfBook(b, pps, ties[|ties| - 1]);
    var i := ListedOfTwo(b, pps, ties, buy1, buy2);
    var j := ListedOfTwo(b, pps, ties, sell1, sell2);
    hide Curve, SmallTotals, Select, TopPoints, TopPrices, Measured, Volume, PointsOf, OneSided;
    assert S256.Value(ties[i].imbalance) > 0 && S256.Value(ties[j].imbalance) < 0;
  }

  lemma ListedOfTwo(b: Book, pps: seq<PricePoint>, ties: seq<PricePoint>, p: word, q: word) returns (i: nat)
    requires OneSided(b.bids, Buy) && OneSided(b.asks, Sell) && SmallTotals(PointsOf(b))
    requires Curve(pps, PointsOf(b)) && Ties(pps, ties) && ties != []
    requires p in TopPrices(PointsOf(b)) && q in TopPrices(PointsOf(b)) && p != q
    ensures i < |ties| && (ties[i].price == p || ties[i].price == q)
    ensures S256.Value(ties[i].imbalance) == Volume(b.bids, ties[i].price) - Volume(b.asks, ties[i].price)
  {
    var x := PointOfTop(pps, PointsOf(b), p);
    var y := PointOfTop(pps, PointsOf(b), q);
    OneOfTwoIsListed(pps, ties, x, y);
    i :| 0 <= i < |ties| && (ties[i] == x || ties[i] == y);
    TieOfBook(b, pps, ties[i]);
  }

  lemma PointOfTop(pps: seq<PricePoint>, os: seq<PricePoint>, p: word) returns (x: PricePoint)
    requires Curve(pps, os) && p in TopPrices(os)
    ensures x in TopPoints(pps) && x.price == p
  {
    assert HasPrice(pps, p);
    var k :| 0 <= k < |pps| && pps[k].price == p;
    TopPointHasTopPrice(pps, os, k);
    x := pps[k];
  }

  // ---- Crossing books ----

  predicate Crosses(b: Book) {
    b.bids != [] && b.asks != [] && b.asks[0].price <= b.bids[0].price
  }

  /** If any price trades something, so does the chosen price, and it lies between the best ask and the best bid. */
  lemma ChosenPriceIsBetweenBest(highPrice: word, midPrice: word, lowPrice: word, b: Book, p: word, q: nat)
    requires Ordered(b) && Crossed(b, q) > 0
    requires ExecutionPrice(highPrice, midPrice, lowPrice, b, p)
    ensures Crossed(b, p) > 0
    ensures Crosses(b) && b.asks[0].price <= p <= b.bids[0].price
    ensures !Exhausted(p, b)
  {
    ChosenPriceHasMaximumVolume(highPrice, midPrice, lowPrice, b, p, q);
    if b.bids == [] || p > b.bids[0].price {
      NothingEligible(b.bids, p, Buy);
    }
    if b.asks == [] || p < b.asks[0].price {
      NothingEligible(b.asks, p, Sell);
    }
  }

  /** If live heads cross, the chosen price trades something. */
  lemma LiveHeadsTrade(highPrice: word, midPrice: word, lowPrice: word, b: Book, p: word)
    requires Ordered(b) && LiveHeads(b) && Crosses(b)
    requires ExecutionPrice(highPrice, midPrice, lowPrice, b, p)
    ensures Crossed(b, p) > 0 && !Exhausted(p, b)
  {
    assert Crossed(b, b.asks[0].price) > 0;
    ChosenPriceIsBetweenBest(highPrice, midPrice, lowPrice, b, p, b.asks[0].price);
  }
}
