/** The demand and supply curve of a book and the choice of one execution price on it. */
module AuctionPricing {
  import opened Prelude
  import opened U256
  import opened AuctionBook
  import Sorting

  /** The last three fields are null in the code until `accumulateForPricePointList` sets them. */
  datatype PricePoint = PricePoint(
    price: word, askAmount: word, bidAmount: word,
    accumulatedAskAmount: word, accumulatedBidAmount: word,
    executionAmount: word, imbalance: word, absImbalance: word)

  const MAX_PRICE: word := TWO_256 - 1

  function NewPoint(price: word): PricePoint {
    PricePoint(price, 0, 0, 0, 0, 0, 0, 0)
  }

  // ---- Curves ----

  /** Bids at or above `q`. */
  function Demand(pps: seq<PricePoint>, q: nat): nat {
    if pps == [] then 0 else (if pps[0].price >= q then pps[0].bidAmount else 0) + Demand(pps[1..], q)
  }

  /** Asks at or below `q`. */
  function Supply(pps: seq<PricePoint>, q: nat): nat {
    if pps == [] then 0 else (if pps[0].price <= q then pps[0].askAmount else 0) + Supply(pps[1..], q)
  }

  function Tradable(pps: seq<PricePoint>, q: nat): nat {
    if Demand(pps, q) < Supply(pps, q) then Demand(pps, q) else Supply(pps, q)
  }

  /** An order as a price point of its own. */
  function AsPoint(o: OrderState): PricePoint {
    if o.side.Sell? then NewPoint(o.price).(askAmount := o.remain) else NewPoint(o.price).(bidAmount := o.remain)
  }

  function AsPoints(os: seq<OrderState>): (pps: seq<PricePoint>)
    ensures |pps| == |os| && forall i | 0 <= i < |os| :: pps[i] == AsPoint(os[i])
  {
    seq(|os|, i requires 0 <= i < |os| => AsPoint(os[i]))
  }

  /** Neither side of the list adds up to 2^255. */
  predicate SmallTotals(pps: seq<PricePoint>) {
    Demand(pps, 0) < TWO_255 && Supply(pps, MAX_PRICE) < TWO_255
  }

  /** The bids at exactly `q`. */
  function BidsAt(pps: seq<PricePoint>, q: nat): nat {
    if pps == [] then 0 else (if pps[0].price == q then pps[0].bidAmount else 0) + BidsAt(pps[1..], q)
  }

  /** The asks at exactly `q`. */
  function AsksAt(pps: seq<PricePoint>, q: nat): nat {
    if pps == [] then 0 else (if pps[0].price == q then pps[0].askAmount else 0) + AsksAt(pps[1..], q)
  }

  /** At every price of the list each side adds up to a word. */
  predicate PointsFit(pps: seq<PricePoint>) {
    forall i | 0 <= i < |pps| :: BidsAt(pps, pps[i].price) < TWO_256 && AsksAt(pps, pps[i].price) < TWO_256
  }

  /** Both sides add up to words. */
  predicate TotalsFit(pps: seq<PricePoint>) {
    Demand(pps, 0) < TWO_256 && Supply(pps, MAX_PRICE) < TWO_256
  }

  lemma {:induction false} CurveConcat(a: seq<PricePoint>, b: seq<PricePoint>, q: nat)
    ensures Demand(a + b, q) == Demand(a, q) + Demand(b, q)
    ensures Supply(a + b, q) == Supply(a, q) + Supply(b, q)
  {
    if a == [] {
      assert a + b == b;
    } else {
      assert (a + b)[1..] == a[1..] + b;
      CurveConcat(a[1..], b, q);
    }
  }

  lemma CurveSplit(a: seq<PricePoint>, i: nat, q: nat)
    requires i < |a|
    ensures Demand(a, q) == Demand(a[..i], q) + Demand([a[i]], q) + Demand(a[i + 1..], q)
    ensures Supply(a, q) == Supply(a[..i], q) + Supply([a[i]], q) + Supply(a[i + 1..], q)
  {
    assert a == a[..i] + ([a[i]] + a[i + 1..]);
    CurveConcat(a[..i], [a[i]] + a[i + 1..], q);
    CurveConcat([a[i]], a[i + 1..], q);
  }

  lemma CurveOfParts(a: seq<PricePoint>, n: nat, q: nat)
    requires n <= |a|
    ensures Demand(a, q) == Demand(a[..n], q) + Demand(a[n..], q)
    ensures Supply(a, q) == Supply(a[..n], q) + Supply(a[n..], q)
  {
    assert a == a[..n] + a[n..];
    hide *;
    CurveConcat(a[..n], a[n..], q);
  }

  lemma CurveSnoc(a: seq<PricePoint>, n: nat, q: nat)
    requires n < |a|
    ensures Demand(a[..n + 1], q) == Demand(a[..n], q) + Demand([a[n]], q)
    ensures Supply(a[..n + 1], q) == Supply(a[..n], q) + Supply([a[n]], q)
  {
    assert a[..n + 1] == a[..n] + [a[n]];
    CurveConcat(a[..n], [a[n]], q);
  }

  lemma {:induction false} CurveBounds(pps: seq<PricePoint>, q: nat)
    ensures Demand(pps, q) <= Demand(pps, 0)
    ensures Supply(pps, q) <= Supply(pps, MAX_PRICE)
    ensures (forall pp | pp in pps :: pp.price >= q) ==> Demand(pps, q) == Demand(pps, 0)
    ensures (forall pp | pp in pps :: pp.price <= q) ==> Supply(pps, q) == Supply(pps, MAX_PRICE)
    ensures (forall pp | pp in pps :: pp.price < q) ==> Demand(pps, q) == 0
    ensures (forall pp | pp in pps :: pp.price > q) ==> Supply(pps, q) == 0
  {
    if pps != [] {
      CurveBounds(pps[1..], q);
    }
  }

  lemma {:induction false} CurveOfPermutation(a: seq<PricePoint>, b: seq<PricePoint>, q: nat)
    requires multiset(a) == multiset(b)
    ensures Demand(a, q) == Demand(b, q) && Supply(a, q) == Supply(b, q)
  {
    Sorting.PermutationMembers(a, b);
    if a != [] {
      var k := Sorting.RemoveHead(a, b);
      CurveOfPermutation(a[1..], b[..k] + b[k + 1..], q);
      CurveSplit(b, k, q);
      CurveSplit(a, 0, q);
      CurveConcat(b[..k], b[k + 1..], q);
    }
  }

  // ---- createPricePointList ----

  predicate DistinctPrices(pps: seq<PricePoint>) {
    forall i, j | 0 <= i < j < |pps| :: pps[i].price != pps[j].price
  }

  predicate HasPrice(pps: seq<PricePoint>, price: word) {
    exists i | 0 <= i < |pps| :: pps[i].price == price
  }

  ghost predicate SamePrices(a: seq<PricePoint>, b: seq<PricePoint>) {
    forall p: word :: HasPrice(a, p) <==> HasPrice(b, p)
  }

  ghost predicate SameCurve(a: seq<PricePoint>, b: seq<PricePoint>) {
    forall q: nat :: Demand(a, q) == Demand(b, q) && Supply(a, q) == Supply(b, q)
  }

  /** `pps` merges the points of `os` that share a price. */
  ghost predicate Merged(pps: seq<PricePoint>, os: seq<PricePoint>) {
    DistinctPrices(pps) && SamePrices(pps, os) && SameCurve(pps, os)
  }

  lemma {:induction false} AmountsAtPrice(pps: seq<PricePoint>, q: nat)
    ensures BidsAt(pps, q) == Demand(pps, q) - Demand(pps, q + 1)
    ensures AsksAt(pps, q) == Supply(pps, q) - if q == 0 then 0 else Supply(pps, q - 1)
    ensures (forall i | 0 <= i < |pps| :: pps[i].price != q) ==> BidsAt(pps, q) == AsksAt(pps, q) == 0
  {
    if pps != [] {
      AmountsAtPrice(pps[1..], q);
    }
  }

  lemma SameCurveSameAmounts(a: seq<PricePoint>, b: seq<PricePoint>, q: nat)
    requires SameCurve(a, b)
    ensures BidsAt(a, q) == BidsAt(b, q) && AsksAt(a, q) == AsksAt(b, q)
  {
    AmountsAtPrice(a, q);
    AmountsAtPrice(b, q);
  }

  lemma AmountsConcat(a: seq<PricePoint>, b: seq<PricePoint>, q: nat)
    ensures BidsAt(a + b, q) == BidsAt(a, q) + BidsAt(b, q)
    ensures AsksAt(a + b, q) == AsksAt(a, q) + AsksAt(b, q)
  {
    AmountsAtPrice(a, q);
    AmountsAtPrice(b, q);
    AmountsAtPrice(a + b, q);
    CurveConcat(a, b, q);
    CurveConcat(a, b, q + 1);
    if q > 0 {
      CurveConcat(a, b, q - 1);
    }
  }

  lemma AmountsSplit(pps: seq<PricePoint>, i: nat, q: nat)
    requires i < |pps|
    ensures BidsAt(pps, q) == BidsAt(pps[..i], q) + BidsAt([pps[i]], q) + BidsAt(pps[i + 1..], q)
    ensures AsksAt(pps, q) == AsksAt(pps[..i], q) + AsksAt([pps[i]], q) + AsksAt(pps[i + 1..], q)
  {
    hide *;
    assert pps == pps[..i] + ([pps[i]] + pps[i + 1..]);
    AmountsConcat(pps[..i], [pps[i]] + pps[i + 1..], q);
    AmountsConcat([pps[i]], pps[i + 1..], q);
  }

  lemma AmountsOfOne(pp: PricePoint)
    ensures BidsAt([pp], pp.price) == pp.bidAmount && AsksAt([pp], pp.price) == pp.askAmount
  {
  }

  lemma NothingElsewhere(pps: seq<PricePoint>, i: nat)
    requires DistinctPrices(pps) && i < |pps|
    ensures BidsAt(pps[..i], pps[i].price) == AsksAt(pps[..i], pps[i].price) == 0
    ensures BidsAt(pps[i + 1..], pps[i].price) == AsksAt(pps[i + 1..], pps[i].price) == 0
  {
    hide BidsAt, AsksAt;
    AmountsAtPrice(pps[..i], pps[i].price);
    AmountsAtPrice(pps[i + 1..], pps[i].price);
  }

  /** With distinct prices a point has all there is at its price. */
  lemma DistinctAmounts(pps: seq<PricePoint>, i: nat)
    requires DistinctPrices(pps) && i < |pps|
    ensures BidsAt(pps, pps[i].price) == pps[i].bidAmount && AsksAt(pps, pps[i].price) == pps[i].askAmount
  {
    hide *;
    var q := pps[i].price;
    NothingElsewhere(pps, i);
    AmountsOfOne(pps[i]);
    AmountsSplit(pps, i, q);
  }

  /** A prefix of the orders has no more at a price than all of them. */
  lemma AmountsOfPrefix(os: seq<PricePoint>, n: nat, q: nat)
    requires n < |os|
    ensures BidsAt(os[..n], q) + BidsAt([os[n]], q) <= BidsAt(os, q)
    ensures AsksAt(os[..n], q) + AsksAt([os[n]], q) <= AsksAt(os, q)
  {
    AmountsSplit(os, n, q);
  }

  /** Small enough totals are enough. */
  lemma FittingTotalsFit(os: seq<PricePoint>)
    requires TotalsFit(os)
    ensures PointsFit(os)
  {
    forall i | 0 <= i < |os|
      ensures BidsAt(os, os[i].price) < TWO_256 && AsksAt(os, os[i].price) < TWO_256
    {
      AmountsAtPrice(os, os[i].price);
      CurveBounds(os, os[i].price);
    }
  }

  predicate Indexed(pps: seq<PricePoint>, index: map<word, nat>) {
    && (forall p | p in index :: index[p] < |pps| && pps[index[p]].price == p)
    && (forall i | 0 <= i < |pps| :: pps[i].price in index && index[pps[i].price] == i)
  }

  lemma PushPoint(pps: seq<PricePoint>, p: word, q: nat)
    ensures Demand(pps + [NewPoint(p)], q) == Demand(pps, q)
    ensures Supply(pps + [NewPoint(p)], q) == Supply(pps, q)
  {
    CurveConcat(pps, [NewPoint(p)], q);
  }

  /** Adding to one point raises the curve by a point of that amount. */
  lemma RaisePoint(pps: seq<PricePoint>, i: nat, pp: PricePoint, x: PricePoint, q: nat)
    requires i < |pps| && pp.price == pps[i].price == x.price
    requires pp.bidAmount == pps[i].bidAmount + x.bidAmount && pp.askAmount == pps[i].askAmount + x.askAmount
    ensures Demand(pps[i := pp], q) == Demand(pps, q) + Demand([x], q)
    ensures Supply(pps[i := pp], q) == Supply(pps, q) + Supply([x], q)
  {
    var r := pps[i := pp];
    CurveSplit(pps, i, q);
    CurveSplit(r, i, q);
    assert r[..i] == pps[..i] && r[i + 1..] == pps[i + 1..];
  }

  lemma PrefixBounds(pps: seq<PricePoint>, n: nat, q: nat)
    requires n <= |pps|
    ensures Demand(pps[..n], q) <= Demand(pps, q) && Supply(pps[..n], q) <= Supply(pps, q)
  {
    CurveOfParts(pps, n, q);
  }

  /** What the point of the next order's price is to hold is no more than what there is at that price. */
  lemma RoomAt(before: seq<PricePoint>, pushed: seq<PricePoint>, os: seq<PricePoint>, n: nat, i: nat)
    requires n < |os| && i < |pushed| && pushed[i].price == os[n].price
    requires Merged(before, os[..n]) && DistinctPrices(pushed)
    requires pushed == before || pushed == before + [NewPoint(os[n].price)]
    ensures pushed[i].bidAmount + os[n].bidAmount <= BidsAt(os, os[n].price)
    ensures pushed[i].askAmount + os[n].askAmount <= AsksAt(os, os[n].price)
  {
    var q := os[n].price;
    DistinctAmounts(pushed, i);
    AmountsConcat(before, [NewPoint(q)], q);
    SameCurveSameAmounts(before, os[..n], q);
    AmountsOfPrefix(os, n, q);
  }

  lemma MergedPointsFit(pps: seq<PricePoint>, os: seq<PricePoint>)
    requires Merged(pps, os)
    ensures PointsFit(os)
  {
    forall j | 0 <= j < |os|
      ensures BidsAt(os, os[j].price) < TWO_256 && AsksAt(os, os[j].price) < TWO_256
    {
      assert HasPrice(os, os[j].price) && HasPrice(pps, os[j].price);
      var i :| 0 <= i < |pps| && pps[i].price == os[j].price;
      DistinctAmounts(pps, i);
      SameCurveSameAmounts(pps, os, os[j].price);
    }
  }

  method CreatePricePointList(orderList: seq<OrderState>) returns (r: Result<seq<PricePoint>>)
    ensures r.Ok? ==> Merged(r.value, AsPoints(orderList))
    ensures r.Ok? <==> PointsFit(AsPoints(orderList))
  {
    ghost var os := AsPoints(orderList);
    var ppList: seq<PricePoint> := [];
    var ppMap: map<word, nat> := map[];
    for n := 0 to |orderList|
      invariant Indexed(ppList, ppMap)
      invariant Merged(ppList, os[..n])
    {
      var k := orderList[n].price;
      ghost var before := ppList;
      if k !in ppMap {
        ppMap := ppMap[k := |ppList|];
        ppList := ppList + [NewPoint(k)];
      }
      var offset := ppMap[k];
      RoomAt(before, ppList, os, n, offset);
      ghost var pushed := ppList;
      if orderList[n].side.Sell? {
        var amount :- Add(ppList[offset].askAmount, orderList[n].remain);
        ppList := ppList[offset := ppList[offset].(askAmount := amount)];
      } else {
        var amount :- Add(ppList[offset].bidAmount, orderList[n].remain);
        ppList := ppList[offset := ppList[offset].(bidAmount := amount)];
      }
      MergeOne(before, pushed, ppList, os, n, offset);
    }
    assert os[..|os|] == os;
    MergedPointsFit(ppList, os);
    return Ok(ppList);
  }

  lemma MergeOne(before: seq<PricePoint>, pushed: seq<PricePoint>, after: seq<PricePoint>,
      os: seq<PricePoint>, n: nat, i: nat)
    requires n < |os| && i < |pushed| == |after| && pushed[i].price == os[n].price
    requires Merged(before, os[..n]) && DistinctPrices(pushed)
    requires pushed == before || pushed == before + [NewPoint(os[n].price)]
    requires after == pushed[i := after[i]] && after[i].price == pushed[i].price
    requires after[i].bidAmount == pushed[i].bidAmount + os[n].bidAmount
    requires after[i].askAmount == pushed[i].askAmount + os[n].askAmount
    ensures Merged(after, os[..n + 1])
  {
    forall q: nat
      ensures Demand(after, q) == Demand(os[..n + 1], q) && Supply(after, q) == Supply(os[..n + 1], q)
    {
      PushPoint(before, os[n].price, q);
      RaisePoint(pushed, i, after[i], os[n], q);
      CurveSnoc(os, n, q);
    }
    forall p: word
      ensures HasPrice(after, p) <==> HasPrice(os[..n + 1], p)
    {
      assert HasPrice(before, p) <==> HasPrice(os[..n], p);
      assert HasPrice(os[..n + 1], p) <==> HasPrice(os[..n], p) || p == os[n].price by {
        if HasPrice(os[..n], p) {
          var j :| 0 <= j < n && os[..n][j].price == p;
          assert os[..n + 1][j].price == p;
        }
        assert os[..n + 1][n] == os[n];
      }
      if HasPrice(before, p) {
        var j :| 0 <= j < |before| && before[j].price == p;
        assert after[j].price == p;
      }
      if HasPrice(after, p) && p != os[n].price {
        var j :| 0 <= j < |after| && after[j].price == p;
        assert before[j].price == p;
      }
      assert after[i].price == os[n].price;
    }
  }
}
