/** On which books the loop of `Match` ends, when orders may have been filled before. */
module AuctionStall {
  import opened Prelude
  import opened U256
  import opened AuctionBook
  import opened AuctionPricing
  import opened AuctionChoice
  import opened AuctionPrice
  import S256
  import Sorting

  // ---- Conditions that do not depend on the order of the lists ----

  predicate SomeBidAt(b: Book, p: nat) {
    exists i | 0 <= i < |b.bids| :: b.bids[i].price >= p
  }

  predicate SomeAskAt(b: Book, p: nat) {
    exists i | 0 <= i < |b.asks| :: b.asks[i].price <= p
  }

  /** `p` lies between the best ask and the best bid. */
  predicate Inside(b: Book, p: nat) {
    SomeBidAt(b, p) && SomeAskAt(b, p)
  }

  /** Some ask is at or below some bid. */
  predicate Overlaps(b: Book) {
    exists i | 0 <= i < |b.bids| :: SomeAskAt(b, b.bids[i].price)
  }

  /** Some price trades something. */
  predicate LiveOverlap(b: Book) {
    exists i | 0 <= i < |b.bids| :: b.bids[i].remain > 0 && Volume(b.asks, b.bids[i].price) > 0
  }

  lemma OnSortedLists(b: Book, p: word)
    requires Ordered(b)
    ensures Overlaps(b) <==> Crosses(b)
    ensures Inside(b, p) <==> !Exhausted(p, b)
  {
    if Crosses(b) {
      assert SomeAskAt(b, b.bids[0].price);
    }
  }

  /** Whatever price the code may choose for an overlapping book lies between the best ask and the best bid. */
  ghost predicate Settles(highPrice: word, midPrice: word, lowPrice: word, b: Book) {
    Overlaps(b) ==> forall p: word | ExecutionPrice(highPrice, midPrice, lowPrice, b, p) :: Inside(b, p)
  }

  // ---- The loop ends exactly on settled books ----

  /** The test of the loop fails or choosing a price throws. */
  predicate Stopped(choose: Book -> Result<word>, b: Book) {
    !Crosses(b) || choose(b).Throw?
  }

  /** The book after `n` turns of the loop. */
  function AfterTurns(choose: Book -> Result<word>, b: Book, n: nat): (r: Book)
    requires Ordered(b)
    ensures Ordered(r)
  {
    if n == 0 then b
    else
      var c := AfterTurns(choose, b, n - 1);
      if Stopped(choose, c) then c else ExecuteAt(choose(c).value, c)
  }

  /** `choose` is one way the code may pick its prices: it throws exactly where the code does. */
  ghost predicate Chooses(highPrice: word, midPrice: word, lowPrice: word, choose: Book -> Result<word>) {
    forall b: Book | Ordered(b) && Crosses(b) :: ChoosesFor(highPrice, midPrice, lowPrice, b, choose(b))
  }

  ghost predicate ChoosesFor(highPrice: word, midPrice: word, lowPrice: word, b: Book, r: Result<word>) {
    && (r.Throw? <==> !Priceable(midPrice, b))
    && (r.Ok? ==> ExecutionPrice(highPrice, midPrice, lowPrice, b, r.value))
  }

  /** Some choice for a crossing book. */
  ghost function SomeChoice(highPrice: word, midPrice: word, lowPrice: word, b: Book): (r: Result<word>)
    requires Crosses(b)
    ensures ChoosesFor(highPrice, midPrice, lowPrice, b, r)
  {
    PriceExists(highPrice, midPrice, lowPrice, b);
    if Priceable(midPrice, b) then
      var p: word :| ExecutionPrice(highPrice, midPrice, lowPrice, b, p);
      Ok(p)
    else
      Throw
  }

  ghost predicate Ends(choose: Book -> Result<word>, b: Book)
    requires Ordered(b)
  {
    exists n: nat :: Stopped(choose, AfterTurns(choose, b, n))
  }

  lemma {:induction false} StallsForEver(choose: Book -> Result<word>, b: Book, n: nat)
    requires Ordered(b) && !Stopped(choose, b) && Exhausted(choose(b).value, b)
    ensures AfterTurns(choose, b, n) == b
  {
    hide Crosses, SortedSide;
    if n > 0 {
      StallsForEver(choose, b, n - 1);
    }
  }

  /** After a first turn that trades, every further turn removes an order, so that the loop ends. */
  lemma {:induction false} FindEnd(highPrice: word, midPrice: word, lowPrice: word,
      choose: Book -> Result<word>, b: Book, n: nat)
    returns (k: nat)
    requires Chooses(highPrice, midPrice, lowPrice, choose) && Ordered(b)
    requires !Stopped(choose, b) && !Exhausted(choose(b).value, b)
    ensures var c := AfterTurns(choose, b, n + 1);
            || Stopped(choose, AfterTurns(choose, b, k))
            || (LiveHeads(c) && |c.bids| + |c.asks| + n < |b.bids| + |b.asks|)
  {
    hide ExecuteAt, ExecutionPrice, Exhausted, Crosses, Step, LiveHeads, SortedSide, Priceable;
    k := n;
    if n == 0 {
      assert AfterTurns(choose, b, 0) == b;
      ExecuteSteps(choose(b).value, b);
    } else {
      k := FindEnd(highPrice, midPrice, lowPrice, choose, b, n - 1);
      var c := AfterTurns(choose, b, n);
      if Stopped(choose, c) {
        k := n;
      } else if !Stopped(choose, AfterTurns(choose, b, k)) {
        LiveHeadsTrade(highPrice, midPrice, lowPrice, c, choose(c).value);
        ExecuteSteps(choose(c).value, c);
      }
    }
  }

  /** The loop ends if and only if it does not start or its first price lies between the heads. */
  lemma LoopEndsExactly(highPrice: word, midPrice: word, lowPrice: word, choose: Book -> Result<word>, b: Book)
    requires Chooses(highPrice, midPrice, lowPrice, choose) && Ordered(b)
    ensures Ends(choose, b) <==> Stopped(choose, b) || !Exhausted(choose(b).value, b)
  {
    if Stopped(choose, b) {
      assert Stopped(choose, AfterTurns(choose, b, 0));
    } else if !Exhausted(choose(b).value, b) {
      var k := FindEnd(highPrice, midPrice, lowPrice, choose, b, |b.bids| + |b.asks|);
      assert Stopped(choose, AfterTurns(choose, b, k));
    } else {
      forall n: nat
        ensures !Stopped(choose, AfterTurns(choose, b, n))
      {
        StallsForEver(choose, b, n);
      }
    }
  }

  lemma SettledEnds(highPrice: word, midPrice: word, lowPrice: word, choose: Book -> Result<word>, b: Book)
    requires Ordered(b) && Settles(highPrice, midPrice, lowPrice, b)
    requires Chooses(highPrice, midPrice, lowPrice, choose)
    ensures Ends(choose, b)
  {
    LoopEndsExactly(highPrice, midPrice, lowPrice, choose, b);
    hide ExecutionPrice, Exhausted, Inside, Overlaps, AfterTurns, Crosses, Ends;
    if !Stopped(choose, b) {
      OnSortedLists(b, choose(b).value);
      assert ExecutionPrice(highPrice, midPrice, lowPrice, b, choose(b).value);
    }
  }

  lemma UnsettledCanStall(highPrice: word, midPrice: word, lowPrice: word, b: Book)
    returns (choose: Book -> Result<word>)
    requires Ordered(b) && !Settles(highPrice, midPrice, lowPrice, b)
    ensures Chooses(highPrice, midPrice, lowPrice, choose) && !Ends(choose, b)
  {
    hide ExecutionPrice, Exhausted, Inside, Overlaps, AfterTurns, Ends, SortedSide, Priceable;
    OnSortedLists(b, 0);
    var p: word :| ExecutionPrice(highPrice, midPrice, lowPrice, b, p) && !Inside(b, p);
    PriceExists(highPrice, midPrice, lowPrice, b);
    choose := (c: Book) =>
      if c == b then Ok(p) else if Crosses(c) then SomeChoice(highPrice, midPrice, lowPrice, c) else Throw;
    LoopEndsExactly(highPrice, midPrice, lowPrice, choose, b);
    OnSortedLists(b, p);
  }

  /** For given reference prices it ends, however ties are ordered, exactly on settled books. */
  lemma SettledExactlyIfEnding(highPrice: word, midPrice: word, lowPrice: word, b: Book)
    requires Ordered(b)
    ensures Settles(highPrice, midPrice, lowPrice, b) <==>
            forall choose | Chooses(highPrice, midPrice, lowPrice, choose) :: Ends(choose, b)
  {
    hide *;
    if Settles(highPrice, midPrice, lowPrice, b) {
      forall choose | Chooses(highPrice, midPrice, lowPrice, choose)
        ensures Ends(choose, b)
      {
        SettledEnds(highPrice, midPrice, lowPrice, choose, b);
      }
    } else {
      var choose := UnsettledCanStall(highPrice, midPrice, lowPrice, b);
    }
  }

  // ---- Which books settle, whatever the reference prices ----

  lemma {:induction false} VolumeHasOrder(os: seq<OrderState>, q: nat) returns (i: nat)
    requires Volume(os, q) > 0
    ensures i < |os| && os[i].remain > 0 && Eligible(os[i], q)
  {
    if Eligible(os[0], q) && os[0].remain > 0 {
      i := 0;
    } else {
      i := VolumeHasOrder(os[1..], q);
      i := i + 1;
    }
  }

  lemma {:induction false} OrderHasVolume(os: seq<OrderState>, q: nat, i: nat)
    requires i < |os| && Eligible(os[i], q)
    ensures Volume(os, q) >= os[i].remain
  {
    if i > 0 {
      OrderHasVolume(os[1..], q, i - 1);
    }
  }

  lemma TradingPriceIsInside(b: Book, q: nat)
    requires OneSided(b.bids, Buy) && OneSided(b.asks, Sell) && Crossed(b, q) > 0
    ensures Inside(b, q) && LiveOverlap(b)
  {
    var i := VolumeHasOrder(b.bids, q);
    var j := VolumeHasOrder(b.asks, q);
    OrderHasVolume(b.asks, b.bids[i].price, j);
  }

  /** If live orders overlap the book settles. */
  lemma LiveOverlapSettles(highPrice: word, midPrice: word, lowPrice: word, b: Book)
    requires OneSided(b.bids, Buy) && OneSided(b.asks, Sell) && LiveOverlap(b)
    ensures Settles(highPrice, midPrice, lowPrice, b)
  {
    var i :| 0 <= i < |b.bids| && b.bids[i].remain > 0 && Volume(b.asks, b.bids[i].price) > 0;
    OrderHasVolume(b.bids, b.bids[i].price, i);
    forall p: word | ExecutionPrice(highPrice, midPrice, lowPrice, b, p)
      ensures Inside(b, p)
    {
      ChosenPriceHasMaximumVolume(highPrice, midPrice, lowPrice, b, p, b.bids[i].price);
      TradingPriceIsInside(b, p);
    }
  }

  ghost predicate AlwaysSettles(b: Book) {
    forall highPrice: word, midPrice: word, lowPrice: word :: Settles(highPrice, midPrice, lowPrice, b)
  }

  lemma TopPriceCanBeChosen(b: Book, t: word)
    requires Measurable(PointsOf(b)) && t in TopPrices(PointsOf(b))
    ensures ExecutionPrice(MAX_PRICE, MAX_PRICE, MAX_PRICE, b, t)
  {
    var os := PointsOf(b);
    var pps := CurveExists(os, |os|);
    assert os[..|os|] == os;
    assert HasPrice(pps, t);
    var i :| 0 <= i < |pps| && pps[i].price == t;
    TopPointHasTopPrice(pps, os, i);
    var ties := TiesFrom(pps, pps[i]);
    assert ChosenFrom(pps, ties, MAX_PRICE, MAX_PRICE, MAX_PRICE, os, t);
  }

  /** Every chosen price lies between two top prices. */
  lemma ChosenBetweenTops(highPrice: word, midPrice: word, lowPrice: word, b: Book, p: word)
    returns (lo: word, hi: word)
    requires ExecutionPrice(highPrice, midPrice, lowPrice, b, p)
    ensures lo in TopPrices(PointsOf(b)) && hi in TopPrices(PointsOf(b)) && lo <= p <= hi
  {
    var os := PointsOf(b);
    var pps: seq<PricePoint>, ties: seq<PricePoint> :|
      ChosenFrom(pps, ties, highPrice, midPrice, lowPrice, os, p);
    var i, j := SelectedBetweenTies(highPrice, midPrice, lowPrice, ties);
    lo, hi := ties[i].price, ties[j].price;
    assert ties[i] in TopPoints(pps) && ties[j] in TopPoints(pps);
    var m :| 0 <= m < |pps| && pps[m] == ties[i];
    var n :| 0 <= n < |pps| && pps[n] == ties[j];
    TopPointHasTopPrice(pps, os, m);
    TopPointHasTopPrice(pps, os, n);
  }

  /** No reference prices stall a measurable book if and only if its top prices lie between best ask and best bid. */
  lemma SettlesIfTopsAreInside(b: Book)
    requires Overlaps(b) && Measurable(PointsOf(b))
    ensures AlwaysSettles(b) <==> forall t | t in TopPrices(PointsOf(b)) :: Inside(b, t)
  {
    hide Measurable, ExecutionPrice, TopPrices;
    if AlwaysSettles(b) {
      assert Settles(MAX_PRICE, MAX_PRICE, MAX_PRICE, b);
      forall t | t in TopPrices(PointsOf(b))
        ensures Inside(b, t)
      {
        TopPriceCanBeChosen(b, t);
      }
    } else {
      var highPrice: word, midPrice: word, lowPrice: word :| !Settles(highPrice, midPrice, lowPrice, b);
      var p: word :| ExecutionPrice(highPrice, midPrice, lowPrice, b, p) && !Inside(b, p);
      var lo, hi := ChosenBetweenTops(highPrice, midPrice, lowPrice, b, p);
      assert SomeBidAt(b, hi) ==> SomeBidAt(b, p);
      assert SomeAskAt(b, lo) ==> SomeAskAt(b, p);
    }
  }

  /** Live demand and live supply at `p` together. */
  function Pressure(b: Book, p: nat): nat {
    Volume(b.bids, p) + Volume(b.asks, p)
  }

  predicate LeastPressure(b: Book, p: nat) {
    forall o | o in b.bids + b.asks :: Pressure(b, p) <= Pressure(b, o.price)
  }

  /** What a caller can check: lists do not overlap, or live orders do, or the least pressure is between the heads. */
  predicate CannotStall(b: Book) {
    || !Overlaps(b)
    || LiveOverlap(b)
    || forall o | o in b.bids + b.asks && LeastPressure(b, o.price) :: Inside(b, o.price)
  }

  lemma PressureIsImbalance(b: Book, q: nat)
    requires OneSided(b.bids, Buy) && OneSided(b.asks, Sell) && SmallTotals(PointsOf(b)) && !LiveOverlap(b)
    ensures Tradable(PointsOf(b), q) == 0
    ensures AbsImbalanceAt(PointsOf(b), q) == Ok(Pressure(b, q))
  {
    var os := PointsOf(b);
    CrossedIsTradable(b, q);
    CurveBounds(os, q);
    S256.SubIsExact(Demand(os, q), Supply(os, q));
    if Crossed(b, q) > 0 {
      TradingPriceIsInside(b, q);
    }
  }

  lemma TopsHaveLeastPressure(b: Book, o: OrderState)
    requires OneSided(b.bids, Buy) && OneSided(b.asks, Sell) && SmallTotals(PointsOf(b)) && !LiveOverlap(b)
    requires o in b.bids + b.asks
    ensures o.price in TopPrices(PointsOf(b)) <==> LeastPressure(b, o.price)
  {
    var all, os := b.bids + b.asks, PointsOf(b);
    OrderHasPoint(b, o);
    PressureIsImbalance(b, o.price);
    forall i | 0 <= i < |os|
      ensures Beats(os, os[i].price, o.price) <==> Pressure(b, all[i].price) < Pressure(b, o.price)
    {
      PressureIsImbalance(b, os[i].price);
    }
    hide Pressure, Beats;
    assert TopPrice(os, o.price) <==> LeastPressure(b, o.price) by {
      if LeastPressure(b, o.price) {
        assert forall i | 0 <= i < |os| :: all[i] in all;
      }
    }
    var k :| 0 <= k < |os| && os[k].price == o.price;
  }

  lemma TopsAreLeastOrders(b: Book)
    requires OneSided(b.bids, Buy) && OneSided(b.asks, Sell) && SmallTotals(PointsOf(b)) && !LiveOverlap(b)
    ensures (forall t | t in TopPrices(PointsOf(b)) :: Inside(b, t)) <==>
            forall o | o in b.bids + b.asks && LeastPressure(b, o.price) :: Inside(b, o.price)
  {
    var all, os := b.bids + b.asks, PointsOf(b);
    hide LiveOverlap, LeastPressure, SmallTotals, TopPrice, Inside;
    forall o | o in all
      ensures o.price in TopPrices(os) <==> LeastPressure(b, o.price)
    {
      TopsHaveLeastPressure(b, o);
    }
    forall t | t in TopPrices(os)
      ensures exists o :: o in all && o.price == t
    {
      var i :| 0 <= i < |os| && os[i].price == t;
      assert all[i] in all;
    }
  }

  /** Below 2^255 that is exactly the condition. */
  lemma AlwaysSettlesExactly(b: Book)
    requires OneSided(b.bids, Buy) && OneSided(b.asks, Sell) && SmallTotals(PointsOf(b))
    ensures AlwaysSettles(b) <==> CannotStall(b)
  {
    hide TopPrices, Measurable, LeastPressure, Inside, ExecutionPrice;
    if LiveOverlap(b) {
      forall highPrice: word, midPrice: word, lowPrice: word
        ensures Settles(highPrice, midPrice, lowPrice, b)
      {
        LiveOverlapSettles(highPrice, midPrice, lowPrice, b);
      }
    } else if Overlaps(b) {
      SmallIsMeasurable(PointsOf(b));
      SettlesIfTopsAreInside(b);
      TopsAreLeastOrders(b);
    }
  }

  // ---- Books that settle ----

  predicate AllLive(os: seq<OrderState>) {
    forall i | 0 <= i < |os| :: os[i].remain > 0
  }

  /** The best order of a sorted side is live, and so are all others added to it. */
  predicate LiveBest(os: seq<OrderState>, added: seq<OrderState>) {
    PriceSorted(os) && LiveHead(os) && AllLive(added)
  }

  lemma LiveAtLeastAsGood(os: seq<OrderState>, added: seq<OrderState>, side: Side, q: word)
    requires LiveBest(os, added) && OneSided(os + added, side)
    requires exists i | 0 <= i < |os + added| :: Eligible((os + added)[i], q)
    ensures Volume(os + added, q) > 0
    ensures exists i | 0 <= i < |os + added| :: (os + added)[i].remain > 0 && Eligible((os + added)[i], q)
  {
    var all := os + added;
    var i :| 0 <= i < |all| && Eligible(all[i], q);
    var k := if i < |os| then 0 else i;
    assert all[k].remain > 0 && Eligible(all[k], q) by {
      if i < |os| {
        assert os[i] == all[i] && os[0] == all[0];
      } else {
        assert added[i - |os|] == all[i];
      }
    }
    OrderHasVolume(all, q, k);
  }

  /**
    * What an auction leaves, with new live orders in any number, is a legal book for the next one;
    * so is any book of live orders.
    */
  lemma LeftoversSettle(highPrice: word, midPrice: word, lowPrice: word,
      r: Book, newBids: seq<OrderState>, newAsks: seq<OrderState>)
    requires LiveBest(r.bids, newBids) && LiveBest(r.asks, newAsks)
    requires OneSided(r.bids + newBids, Buy) && OneSided(r.asks + newAsks, Sell)
    ensures Settles(highPrice, midPrice, lowPrice, Book(r.bids + newBids, r.asks + newAsks, []))
  {
    var b := Book(r.bids + newBids, r.asks + newAsks, []);
    if Overlaps(b) {
      var i :| 0 <= i < |b.bids| && SomeAskAt(b, b.bids[i].price);
      var q := b.bids[i].price;
      LiveAtLeastAsGood(r.bids, newBids, Buy, q);
      var k :| 0 <= k < |b.bids| && b.bids[k].remain > 0 && Eligible(b.bids[k], q);
      assert SomeAskAt(b, b.bids[k].price);
      LiveAtLeastAsGood(r.asks, newAsks, Sell, b.bids[k].price);
      LiveOverlapSettles(highPrice, midPrice, lowPrice, b);
    }
  }

  // ---- Sorting does not matter ----

  lemma ExecutionPriceOfPermutation(highPrice: word, midPrice: word, lowPrice: word, a: Book, b: Book, p: word)
    requires multiset(a.bids) == multiset(b.bids) && multiset(a.asks) == multiset(b.asks)
    requires ExecutionPrice(highPrice, midPrice, lowPrice, a, p)
    ensures ExecutionPrice(highPrice, midPrice, lowPrice, b, p)
  {
    var oa, ob := PointsOf(a), PointsOf(b);
    PointsOfPermutation(a.bids + a.asks, b.bids + b.asks);
    var pps: seq<PricePoint>, ties: seq<PricePoint> :|
      ChosenFrom(pps, ties, highPrice, midPrice, lowPrice, oa, p);
    forall q: nat
      ensures Demand(oa, q) == Demand(ob, q) && Supply(oa, q) == Supply(ob, q)
    {
      CurveOfPermutation(oa, ob, q);
    }
    forall q: word
      ensures HasPrice(oa, q) <==> HasPrice(ob, q)
    {
      PermutationHasPrice(oa, ob, q);
      PermutationHasPrice(ob, oa, q);
    }
    assert ChosenFrom(pps, ties, highPrice, midPrice, lowPrice, ob, p);
  }

  lemma {:induction false} PointsOfPermutation(a: seq<OrderState>, b: seq<OrderState>)
    requires multiset(a) == multiset(b)
    ensures multiset(AsPoints(a)) == multiset(AsPoints(b))
  {
    Sorting.PermutationMembers(a, b);
    if a != [] {
      var k := Sorting.RemoveHead(a, b);
      PointsOfPermutation(a[1..], b[..k] + b[k + 1..]);
      assert AsPoints(a) == [AsPoint(a[0])] + AsPoints(a[1..]);
      assert AsPoints(b) == AsPoints(b[..k]) + [AsPoint(a[0])] + AsPoints(b[k + 1..]);
      assert AsPoints(b[..k] + b[k + 1..]) == AsPoints(b[..k]) + AsPoints(b[k + 1..]);
    } else {
      assert AsPoints(a) == AsPoints(b);
    }
  }

  lemma InsideOfPermutation(a: Book, b: Book, p: nat)
    requires multiset(a.bids) == multiset(b.bids) && multiset(a.asks) == multiset(b.asks)
    ensures SomeBidAt(a, p) ==> SomeBidAt(b, p)
    ensures SomeAskAt(a, p) ==> SomeAskAt(b, p)
    ensures Overlaps(a) ==> Overlaps(b)
  {
    Sorting.PermutationMembers(a.bids, b.bids);
    Sorting.PermutationMembers(a.asks, b.asks);
    if i :| 0 <= i < |a.bids| && a.bids[i].price >= p {
      assert a.bids[i] in b.bids;
    }
    if i :| 0 <= i < |a.asks| && a.asks[i].price <= p {
      assert a.asks[i] in b.asks;
    }
    if i :| 0 <= i < |a.bids| && SomeAskAt(a, a.bids[i].price) {
      var j :| 0 <= j < |a.asks| && a.asks[j].price <= a.bids[i].price;
      assert a.bids[i] in b.bids && a.asks[j] in b.asks;
      assert SomeAskAt(b, a.bids[i].price);
    }
  }

  lemma SettlesOfPermutation(highPrice: word, midPrice: word, lowPrice: word, a: Book, b: Book)
    requires multiset(a.bids) == multiset(b.bids) && multiset(a.asks) == multiset(b.asks)
    requires Settles(highPrice, midPrice, lowPrice, a)
    ensures Settles(highPrice, midPrice, lowPrice, b)
  {
    InsideOfPermutation(b, a, 0);
    if Overlaps(b) {
      forall p: word | ExecutionPrice(highPrice, midPrice, lowPrice, b, p)
        ensures Inside(b, p)
      {
        ExecutionPriceOfPermutation(highPrice, midPrice, lowPrice, b, a, p);
        InsideOfPermutation(a, b, p);
      }
    }
  }

  // ---- A book that does not settle ----

  /** Two filled orders still at the head of a book whose live orders do not cross. */
  function StalledBook(): Book {
    Book(
      [OrderState(10, 1, 4, 0, Buy, []), OrderState(10, 2, 7, 7, Buy, [])],
      [OrderState(5, 1, 4, 0, Sell, []), OrderState(20, 2, 3, 3, Sell, [])],
      [])
  }

  function StalledCurve(): seq<PricePoint> {
    [ PricePoint(10, 0, 7, 0, 7, 0, 7, 7),
      PricePoint(5, 0, 7, 0, 7, 0, 7, 7),
      PricePoint(20, 3, 0, 3, 0, 0, TWO_256 - 3, 3) ]
  }

  lemma CurveStep(os: seq<PricePoint>, q: nat)
    requires os != []
    ensures Demand(os, q) == (if os[0].price >= q then os[0].bidAmount else 0) + Demand(os[1..], q)
    ensures Supply(os, q) == (if os[0].price <= q then os[0].askAmount else 0) + Supply(os[1..], q)
  {
  }

  lemma NoCurve(q: nat)
    ensures Demand([], q) == Supply([], q) == 0
  {
  }

  lemma StalledCurveIsRight()
    ensures Curve(StalledCurve(), PointsOf(StalledBook()))
  {
    var os, pps := PointsOf(StalledBook()), StalledCurve();
    assert os == [AsPoint(OrderState(10, 1, 4, 0, Buy, [])), AsPoint(OrderState(10, 2, 7, 7, Buy, [])),
                  AsPoint(OrderState(5, 1, 4, 0, Sell, [])), AsPoint(OrderState(20, 2, 3, 3, Sell, []))];
    forall q: nat
      ensures Demand(os, q) == if q <= 10 then 7 else 0
      ensures Supply(os, q) == if q >= 20 then 3 else 0
    {
      CurveStep(os, q);
      CurveStep(os[1..], q);
      CurveStep(os[2..], q);
      CurveStep(os[3..], q);
      assert os[1..][1..] == os[2..] && os[2..][1..] == os[3..] && os[3..][1..] == [];
      hide Demand, Supply;
      assert Demand([], q) == Supply([], q) == 0 by {
        NoCurve(q);
      }
    }
    forall p: word
      ensures HasPrice(pps, p) <==> HasPrice(os, p)
    {
      assert pps[0].price == os[0].price && pps[1].price == os[2].price && pps[2].price == os[3].price;
    }
  }

  /** With a filled order at a head, a crossing book can choose a price at which nothing may trade, again and again. */
  lemma FilledHeadsCanStall(highPrice: word, midPrice: word, lowPrice: word)
    ensures Ordered(StalledBook()) && Crosses(StalledBook()) && !LiveHead(StalledBook().bids)
    ensures ExecutionPrice(highPrice, midPrice, lowPrice, StalledBook(), 20)
    ensures Exhausted(20, StalledBook()) && !Settles(highPrice, midPrice, lowPrice, StalledBook())
  {
    var pps := StalledCurve();
    StalledCurveIsRight();
    var ties := [pps[2]];
    assert TopPoints(pps) == {pps[2]} by {
      assert Better(pps[2], pps[0]) && Better(pps[2], pps[1]);
      assert pps[2] in pps;
    }
    assert ChosenFrom(pps, ties, highPrice, midPrice, lowPrice, PointsOf(StalledBook()), 20);
    OnSortedLists(StalledBook(), 20);
  }
}
