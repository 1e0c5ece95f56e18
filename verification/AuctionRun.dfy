/** Whole runs of the auction: one price after another until the book no longer crosses. */
module AuctionRun {
  import opened Prelude
  import opened U256
  import opened AuctionBook
  import opened AuctionPricing
  import opened AuctionPrice
  import opened AuctionStall

  /** The book after executing at each of `prices` in turn. */
  function RunBook(b: Book, prices: seq<word>): (r: Book)
    requires Ordered(b)
    ensures Ordered(r)
  {
    if prices == [] then b else ExecuteAt(prices[|prices| - 1], RunBook(b, prices[..|prices| - 1]))
  }

  /** Every round starts on a crossing book and executes at a price the code may choose there. */
  ghost predicate IsRun(highPrice: word, midPrice: word, lowPrice: word, b: Book, prices: seq<word>)
    requires Ordered(b)
  {
    forall i | 0 <= i < |prices| ::
      var before := RunBook(b, prices[..i]);
      Crosses(before) && ExecutionPrice(highPrice, midPrice, lowPrice, before, prices[i])
  }

  /** What a book has become: both sides lost the amount of the deals, only by fills and by dropping heads. */
  predicate Traded(b: Book, r: Book) {
    && b.deals <= r.deals
    && var ds := r.deals[|b.deals|..];
    && Total(b.bids) == Total(r.bids) + Dealt(ds)
    && Total(b.asks) == Total(r.asks) + Dealt(ds)
    && Residue(b.bids, r.bids) && Residue(b.asks, r.asks)
    && (forall i | 0 <= i < |ds| :: Fair(ds[i]))
  }

  lemma {:induction false} TotalSplits(os: seq<OrderState>, price: nat)
    ensures Total(os) == Volume(os, price) + Total(Resting(os, price))
  {
    if os != [] {
      TotalSplits(os[1..], price);
    }
  }

  lemma StepTrades(price: word, b: Book, r: Book)
    requires Step(price, b, r)
    ensures Traded(b, r)
  {
    TotalSplits(b.bids, price);
    TotalSplits(b.asks, price);
    TotalSplits(r.bids, price);
    TotalSplits(r.asks, price);
  }

  lemma TradedTrans(a: Book, b: Book, c: Book)
    requires Traded(a, b) && Traded(b, c)
    ensures Traded(a, c)
  {
    var d1, d2 := b.deals[|a.deals|..], c.deals[|b.deals|..];
    assert c.deals[|a.deals|..] == d1 + d2;
    DealtConcat(d1, d2);
    ResidueTrans(a.bids, b.bids, c.bids);
    ResidueTrans(a.asks, b.asks, c.asks);
  }

  /** Conservation and fairness over a run of any length; `RunBook` keeps both lists sorted. */
  lemma {:induction false} RunConserves(b: Book, prices: seq<word>)
    requires Ordered(b)
    ensures Traded(b, RunBook(b, prices))
  {
    if prices == [] {
      assert b.deals[|b.deals|..] == [];
    } else {
      var before := RunBook(b, prices[..|prices| - 1]);
      RunConserves(b, prices[..|prices| - 1]);
      ExecuteSteps(prices[|prices| - 1], before);
      StepTrades(prices[|prices| - 1], before, RunBook(b, prices));
      TradedTrans(b, before, RunBook(b, prices));
    }
  }

  /** The first price of the run lies between the heads. */
  predicate StartsInside(b: Book, prices: seq<word>) {
    prices != [] ==> !Exhausted(prices[0], b)
  }

  lemma SettledRunStartsInside(highPrice: word, midPrice: word, lowPrice: word, b: Book, prices: seq<word>)
    requires Ordered(b) && Settles(highPrice, midPrice, lowPrice, b)
    requires IsRun(highPrice, midPrice, lowPrice, b, prices)
    ensures StartsInside(b, prices)
  {
    if prices != [] {
      assert RunBook(b, prices[..0]) == b;
      OnSortedLists(b, prices[0]);
    }
  }

  /** From its second round on such a run has live heads. */
  lemma {:induction false} LiveAfterFirst(highPrice: word, midPrice: word, lowPrice: word, b: Book, prices: seq<word>)
    requires Ordered(b) && IsRun(highPrice, midPrice, lowPrice, b, prices) && StartsInside(b, prices)
    ensures prices != [] || LiveHeads(b) ==> LiveHeads(RunBook(b, prices))
  {
    hide ExecuteAt, ExecutionPrice, Exhausted, Crosses, Step, LiveHeads, SortedSide;
    if prices != [] {
      var n := |prices| - 1;
      var init := prices[..n];
      assert forall i | 0 <= i < n :: init[..i] == prices[..i];
      LiveAfterFirst(highPrice, midPrice, lowPrice, b, init);
      RoundIsInside(highPrice, midPrice, lowPrice, b, prices, n);
      ExecuteSteps(prices[n], RunBook(b, init));
    }
  }

  lemma RoundIsInside(highPrice: word, midPrice: word, lowPrice: word, b: Book, prices: seq<word>, i: nat)
    requires Ordered(b) && IsRun(highPrice, midPrice, lowPrice, b, prices) && StartsInside(b, prices) && i < |prices|
    requires i > 0 ==> LiveHeads(RunBook(b, prices[..i]))
    ensures !Exhausted(prices[i], RunBook(b, prices[..i]))
  {
    var before := RunBook(b, prices[..i]);
    assert Crosses(before);
    if i > 0 {
      LiveHeadsTrade(highPrice, midPrice, lowPrice, before, prices[i]);
    } else {
      assert prices[..0] == [];
    }
  }

  /** In a run every round trades, at one price, the most that any price could trade there. */
  lemma RoundTradesTheMaximum(highPrice: word, midPrice: word, lowPrice: word,
      b: Book, prices: seq<word>, i: nat, q: nat)
    requires Ordered(b) && IsRun(highPrice, midPrice, lowPrice, b, prices) && i < |prices|
    ensures var before, after := RunBook(b, prices[..i]), RunBook(b, prices[..i + 1]);
            && before.deals <= after.deals
            && var ds := after.deals[|before.deals|..];
            && Dealt(ds) == Crossed(before, prices[i]) >= Crossed(before, q)
            && (forall k | 0 <= k < |ds| :: ds[k].price == prices[i])
            && Resting(after.bids, prices[i]) == Resting(before.bids, prices[i])
            && Resting(after.asks, prices[i]) == Resting(before.asks, prices[i])
  {
    var before, p := RunBook(b, prices[..i]), prices[i];
    assert prices[..i + 1][..i] == prices[..i];
    ChosenPriceHasMaximumVolume(highPrice, midPrice, lowPrice, before, p, q);
    ExecuteSteps(p, before);
    ExecuteTradesTheMinimum(p, before);
  }

  /** That is not zero after the first round, and not in the first one either if the heads are live. */
  lemma RoundTradesSomething(highPrice: word, midPrice: word, lowPrice: word, b: Book, prices: seq<word>, i: nat)
    requires Ordered(b) && IsRun(highPrice, midPrice, lowPrice, b, prices) && i < |prices|
    requires LiveHeads(b) || (StartsInside(b, prices) && i > 0)
    ensures Crossed(RunBook(b, prices[..i]), prices[i]) > 0
  {
    hide RunBook, ExecutionPrice, Exhausted, Crossed, LiveHeads;
    FirstRound(highPrice, midPrice, lowPrice, b, prices);
    assert forall j | 0 <= j < i :: prices[..i][..j] == prices[..j];
    assert i > 0 ==> prices[..i][0] == prices[0];
    LiveAfterFirst(highPrice, midPrice, lowPrice, b, prices[..i]);
    assert Crosses(RunBook(b, prices[..i]));
    LiveHeadsTrade(highPrice, midPrice, lowPrice, RunBook(b, prices[..i]), prices[i]);
  }

  lemma FirstRound(highPrice: word, midPrice: word, lowPrice: word, b: Book, prices: seq<word>)
    requires Ordered(b) && IsRun(highPrice, midPrice, lowPrice, b, prices) && prices != []
    ensures LiveHeads(b) ==> StartsInside(b, prices)
  {
    assert RunBook(b, prices[..0]) == b && Crosses(RunBook(b, prices[..0]));
    if LiveHeads(b) {
      LiveHeadsTrade(highPrice, midPrice, lowPrice, b, prices[0]);
    }
  }

  /** Every round removes an order, so a run is no longer than the book. */
  lemma {:induction false} RunIsBounded(highPrice: word, midPrice: word, lowPrice: word, b: Book, prices: seq<word>)
    requires Ordered(b) && IsRun(highPrice, midPrice, lowPrice, b, prices) && StartsInside(b, prices)
    ensures var r := RunBook(b, prices); |r.bids| + |r.asks| + |prices| <= |b.bids| + |b.asks|
  {
    hide ExecuteAt, ExecutionPrice, Exhausted, Crosses, Step, LiveHeads, SortedSide;
    if prices != [] {
      var n := |prices| - 1;
      var init := prices[..n];
      assert forall i | 0 <= i < n :: init[..i] == prices[..i];
      RunIsBounded(highPrice, midPrice, lowPrice, b, init);
      LiveAfterFirst(highPrice, midPrice, lowPrice, b, init);
      RoundIsInside(highPrice, midPrice, lowPrice, b, prices, n);
      ExecuteSteps(prices[n], RunBook(b, init));
    }
  }

  /** A run can be extended by one more round. */
  lemma ExtendRun(highPrice: word, midPrice: word, lowPrice: word, b: Book, prices: seq<word>, p: word)
    requires Ordered(b) && IsRun(highPrice, midPrice, lowPrice, b, prices)
    requires Crosses(RunBook(b, prices)) && ExecutionPrice(highPrice, midPrice, lowPrice, RunBook(b, prices), p)
    ensures IsRun(highPrice, midPrice, lowPrice, b, prices + [p])
    ensures RunBook(b, prices + [p]) == ExecuteAt(p, RunBook(b, prices))
  {
    hide ExecuteAt, ExecutionPrice, Crosses, SortedSide;
    var ps := prices + [p];
    assert ps[..|prices|] == prices;
    assert forall i | 0 <= i < |prices| :: ps[..i] == prices[..i];
  }

  /** Once the heads no longer cross, no remaining pair does. */
  lemma UncrossedHeadsUncrossAll(b: Book, i: nat, j: nat)
    requires Ordered(b) && !Crosses(b) && i < |b.bids| && j < |b.asks|
    ensures b.asks[j].price > b.bids[i].price
  {
  }

  /** The totals that keep the 256-bit imbalance exact. */
  lemma SmallTotalsOfBook(b: Book)
    requires OneSided(b.bids, Buy) && OneSided(b.asks, Sell)
    ensures SmallTotals(PointsOf(b)) <==> Total(b.bids) < TWO_255 && Total(b.asks) < TWO_255
  {
    CrossedIsTradable(b, 0);
    CrossedIsTradable(b, MAX_PRICE);
    AllEligible(b.bids, 0);
    AllEligible(b.asks, MAX_PRICE);
  }

  lemma {:induction false} AllEligible(os: seq<OrderState>, q: nat)
    requires forall i | 0 <= i < |os| :: Eligible(os[i], q)
    ensures Volume(os, q) == Total(os)
  {
    if os != [] {
      AllEligible(os[1..], q);
    }
  }
}
