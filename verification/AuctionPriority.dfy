/** When orders are served in the order of the list, and when not. */
module AuctionPriority {
  import opened U256
  import opened AuctionBook
  import opened AuctionPrice
  import opened AuctionRun
  import AuctionPricing
  import AuctionChoice

  // ---- First come, first served ----

  /** `os` after `amount` has been taken off its front; filled orders leave. */
  function Consume(os: seq<OrderState>, amount: nat): (r: seq<OrderState>)
    ensures |r| <= |os| && LiveHead(r)
  {
    if os == [] then []
    else if os[0].remain <= amount then Consume(os[1..], amount - os[0].remain)
    else [Take(os[0], amount)] + os[1..]
  }

  /** What stands behind the next live order after the head. */
  function Waiting(os: seq<OrderState>): seq<OrderState> {
    if os == [] then []
    else
      var rest := DropZero(os[1..]);
      if rest == [] then [] else rest[1..]
  }

  /** One `ExecuteOrder` takes from the front of its counterparties. */
  ghost predicate ServesInOrder(price: word, f: Fill) {
    exists amount: nat :: FillFrom(price, f, 0).against == Consume(f.against, amount)
  }

  lemma {:induction false} ConsumeNothing(os: seq<OrderState>)
    ensures Consume(os, 0) == DropZero(os)
  {
    if os != [] {
      if os[0].remain == 0 {
        ConsumeNothing(os[1..]);
      } else {
        assert os == [os[0]] + os[1..];
      }
    }
  }

  lemma ConsumeFromHead(os: seq<OrderState>, amount: word)
    requires os != [] && amount <= os[0].remain
    ensures Consume(os, amount) == DropZero(os[0 := Take(os[0], amount)])
  {
    var os' := os[0 := Take(os[0], amount)];
    assert os'[1..] == os[1..];
    if amount == os[0].remain {
      ConsumeNothing(os[1..]);
    } else {
      assert os' == [os'[0]] + os[1..];
    }
  }

  /** Consuming changes no order but the one at the new head. */
  lemma {:induction false} ConsumeKeepsTail(os: seq<OrderState>, amount: nat)
    ensures var r := Consume(os, amount);
            r != [] ==> r[1..] == os[|os| - |r| + 1..]
  {
    if os != [] && os[0].remain <= amount {
      var r := Consume(os[1..], amount - os[0].remain);
      ConsumeKeepsTail(os[1..], amount - os[0].remain);
      if r != [] {
        assert os[1..][|os| - 1 - |r| + 1..] == os[|os| - |r| + 1..];
      }
    }
  }

  lemma {:induction false} ConsumeTwice(os: seq<OrderState>, x: nat, y: nat)
    ensures Consume(Consume(os, x), y) == Consume(os, x + y)
  {
    if os != [] {
      if os[0].remain <= x {
        ConsumeTwice(os[1..], x - os[0].remain, y);
      } else {
        var os' := Consume(os, x);
        assert os'[1..] == os[1..] && os'[0] == Take(os[0], x);
      }
    }
  }

  // ---- One order ----

  /** A live counterparty that is reached ends with less. */
  lemma TurnReduces(price: word, f: Fill, i: nat, side: Side)
    requires 1 <= i < |f.against| && LiveHead(f.against) && f.order.remain > 0
    requires Eligible(f.order, price) && f.order.side != side && SortedSide(f.against, side)
    requires Eligible(f.against[i], price) && f.against[i].remain > 0
    ensures var g := FillFrom(price, f, i);
            && Volume(g.against, price) < Volume(f.against, price)
            && |FillOne(price, f, i).against| == |f.against|
            && FillOne(price, f, i).against[0] == f.against[0]
            && SortedSide(FillOne(price, f, i).against, side) && FillOne(price, f, i).order.side == f.order.side
            && Eligible(FillOne(price, f, i).order, price)
  {
    hide Volume, Resting, FillFrom;
    var g := FillOne(price, f, i);
    FillOneEffect(price, f, i);
    ResidueKeeps(f.against, g.against, side);
    var d := Deal(f.order, f.against[i], Lesser(f.order.remain, f.against[i].remain), price);
    assert g.deals[|f.deals|..] == [d];
    OneDeal(d);
    FillUnfolds(price, f, i);
    if g.order.remain != 0 {
      FillEffect(price, g, i + 1, side);
    }
  }

  lemma OneDeal(d: Deal)
    ensures Dealt([d]) == d.amount
  {
    assert [d][..0] == [];
  }

  lemma FilledIsPassed(price: word, f: Fill, i: nat)
    requires 1 <= i < |f.against| && LiveHead(f.against) && f.against[i].remain == 0
    ensures var g := FillOne(price, f, i);
            g.against == f.against && g.order == f.order
  {
  }

  lemma VolumeFrom(os: seq<OrderState>, i: nat, price: word)
    requires i < |os| && Eligible(os[i], price)
    ensures Volume(os[i..], price) == os[i].remain + Volume(os[i + 1..], price)
  {
    assert os[i..][1..] == os[i + 1..];
  }

  lemma NothingFrom(os: seq<OrderState>, i: nat, price: word, side: Side)
    requires SortedSide(os, side) && i <= |os| && (i < |os| ==> !Eligible(os[i], price))
    ensures Volume(os[i..], price) == 0
  {
    assert SortedSide(os[i..], side);
    NothingEligible(os[i..], price, side);
  }

  /** From its second turn on the loop leaves the head alone; it changes the list exactly if it can trade at all. */
  lemma {:induction false} LaterTurns(price: word, f: Fill, i: nat, side: Side)
    requires 1 <= i <= |f.against| && LiveHead(f.against) && f.order.remain > 0
    requires Eligible(f.order, price) && f.order.side != side && SortedSide(f.against, side)
    ensures var g := FillFrom(price, f, i);
            && |g.against| == |f.against| && g.against[0] == f.against[0]
            && (g.against == f.against <==> Volume(f.against[i..], price) == 0)
            && (g.against == f.against ==> g.order == f.order)
    decreases |f.against| - i
  {
    hide FillFrom, FillOne, Volume, SortedSide;
    FillUnfolds(price, f, i);
    if i == |f.against| || !Eligible(f.against[i], price) {
      NothingFrom(f.against, i, price, side);
    } else {
      VolumeFrom(f.against, i, price);
      if f.against[i].remain == 0 {
        FilledIsPassed(price, f, i);
        LaterTurns(price, FillOne(price, f, i), i + 1, side);
      } else {
        TurnReduces(price, f, i, side);
        var g := FillOne(price, f, i);
        if g.order.remain != 0 {
          LaterTurns(price, g, i + 1, side);
        }
      }
    }
  }

  lemma {:induction false} DropKeepsTail(os: seq<OrderState>)
    ensures var r := DropZero(os); r == os[|os| - |r|..]
  {
    if os != [] && os[0].remain == 0 {
      DropKeepsTail(os[1..]);
      assert os[1..][|os| - 1 - |DropZero(os)|..] == os[|os| - |DropZero(os)|..];
    }
  }

  /** The order meets no more than the head, or nothing eligible waits behind the next live order. */
  predicate HeadSuffices(price: word, order: OrderState, against: seq<OrderState>) {
    against != [] ==> order.remain <= against[0].remain || Volume(Waiting(against), price) == 0
  }

  /**
    * `ExecuteOrder` serves its counterparties in order exactly under that condition;
    * then it trades with the head only. Otherwise it passes over the next live order.
    */
  lemma FillsInOrderExactly(price: word, f: Fill, side: Side)
    requires f.against != [] && Eligible(f.order, price) && Eligible(f.against[0], price)
    requires f.order.side != side && SortedSide(f.against, side)
    ensures ServesInOrder(price, f) <==> HeadSuffices(price, f.order, f.against)
    ensures HeadSuffices(price, f.order, f.against) ==>
      var g, amount := FillFrom(price, f, 0), Lesser(f.order.remain, f.against[0].remain);
      g.against == Consume(f.against, amount) && g.order == Take(f.order, amount)
  {
    var amount := Lesser(f.order.remain, f.against[0].remain);
    var o := FillOne(price, f, 0);
    ConsumeFromHead(f.against, amount);
    if f.order.remain > f.against[0].remain {
      var rest := DropZero(f.against[1..]);
      assert f.against[0 := Take(f.against[0], amount)][1..] == f.against[1..];
      assert o.against == rest;
      FillOneEffect(price, f, 0);
      ResidueKeeps(f.against, rest, side);
      if rest != [] {
        LaterTurns(price, o, 1, side);
        if Volume(Waiting(f.against), price) != 0 {
          PassedOver(price, f, rest);
        }
      }
    }
  }

  /** Among live orders that means: the third one, if there is one, is not eligible. */
  lemma WaitingOfLive(price: word, os: seq<OrderState>, side: Side)
    requires os != [] && SortedSide(os, side) && forall i | 0 <= i < |os| :: os[i].remain > 0
    ensures Volume(Waiting(os), price) == 0 <==> |os| < 3 || !Eligible(os[2], price)
  {
    if |os| >= 2 {
      assert DropZero(os[1..]) == os[1..] && os[1..][1..] == os[2..];
      if |os| >= 3 && Eligible(os[2], price) {
        VolumeFrom(os, 2, price);
      } else {
        NothingFrom(os, 2, price, side);
      }
    }
  }

  lemma PassedOver(price: word, f: Fill, rest: seq<OrderState>)
    requires f.against != [] && rest == DropZero(f.against[1..]) && rest != []
    requires var g := FillFrom(price, f, 0).against;
             |g| == |rest| && g[0] == rest[0] && g != rest
    ensures !ServesInOrder(price, f)
  {
    forall amount: nat
      ensures FillFrom(price, f, 0).against != Consume(f.against, amount)
    {
      var r := Consume(f.against, amount);
      if |r| == |rest| && r[0] == rest[0] {
        ConsumedIsRest(f.against, amount);
      }
    }
  }

  lemma ConsumedIsRest(os: seq<OrderState>, amount: nat)
    requires os != []
    requires var r, rest := Consume(os, amount), DropZero(os[1..]);
             |r| == |rest| > 0 && r[0] == rest[0]
    ensures Consume(os, amount) == DropZero(os[1..])
  {
    var r, rest := Consume(os, amount), DropZero(os[1..]);
    ConsumeKeepsTail(os, amount);
    DropKeepsTail(os[1..]);
    assert rest[1..] == os[|os| - |rest| + 1..];
    assert r == [r[0]] + r[1..] && rest == [rest[0]] + rest[1..];
  }

  // ---- One price ----

  /** Every call of `ExecuteOrder` in `ExecuteOrderList` serves in order. */
  ghost predicate RoundServesInOrder(price: word, b: Book)
    requires Ordered(b)
    decreases |b.bids| + |b.asks|
  {
    Exhausted(price, b) || (
      && ServesInOrder(price, Fill(b.bids[0], b.asks, b.deals))
      && (HeadBidShrinks(price, b);
          var b1 := FillHeadBid(price, b);
          Exhausted(price, b1) || (
            && ServesInOrder(price, Fill(b1.asks[0], b1.bids, b1.deals))
            && (HeadAskShrinks(price, b1);
                RoundServesInOrder(price, FillHeadAsk(price, b1))))))
  }

  /**
    * The heads trade with each other, and the two sides take turns: the head of `xs` acts next.
    * At every turn the head it meets suffices.
    */
  predicate Orderly(price: word, xs: seq<OrderState>, ys: seq<OrderState>)
    decreases |xs| + |ys|
  {
    xs == [] || ys == [] || !Eligible(xs[0], price) || !Eligible(ys[0], price) || (
      var amount := Lesser(xs[0].remain, ys[0].remain);
      HeadSuffices(price, xs[0], ys)
      && (TurnShrinks(xs, ys);
          Orderly(price, Consume(ys, amount), Consume(xs, amount))))
  }

  lemma TurnShrinks(xs: seq<OrderState>, ys: seq<OrderState>)
    requires xs != [] && ys != []
    ensures var amount := Lesser(xs[0].remain, ys[0].remain);
            |Consume(ys, amount)| + |Consume(xs, amount)| < |xs| + |ys|
  {
  }

  lemma OrderlyUnfolds(price: word, xs: seq<OrderState>, ys: seq<OrderState>)
    requires xs != [] && ys != [] && Eligible(xs[0], price) && Eligible(ys[0], price)
    ensures var amount := Lesser(xs[0].remain, ys[0].remain);
            Orderly(price, xs, ys) <==>
            HeadSuffices(price, xs[0], ys) && Orderly(price, Consume(ys, amount), Consume(xs, amount))
  {
  }

  lemma OrderlyEnds(price: word, b: Book)
    requires Ordered(b) && Exhausted(price, b)
    ensures Orderly(price, b.bids, b.asks) && Orderly(price, b.asks, b.bids)
  {
  }

  /** A turn of the head bid that serves in order: both heads trade the lesser of their amounts. */
  lemma HeadBidTurn(price: word, b: Book)
    requires Ordered(b) && !Exhausted(price, b) && HeadSuffices(price, b.bids[0], b.asks)
    ensures var b', amount := FillHeadBid(price, b), Lesser(b.bids[0].remain, b.asks[0].remain);
            && b'.bids == Consume(b.bids, amount) && b'.asks == Consume(b.asks, amount)
            && b.deals <= b'.deals && Dealt(b'.deals[|b.deals|..]) == amount
  {
    var f := Fill(b.bids[0], b.asks, b.deals);
    var amount := Lesser(b.bids[0].remain, b.asks[0].remain);
    FillsInOrderExactly(price, f, Sell);
    FillEffect(price, f, 0, Sell);
    ConsumeFromHead(b.bids, amount);
  }

  lemma HeadAskTurn(price: word, b: Book)
    requires Ordered(b) && !Exhausted(price, b) && HeadSuffices(price, b.asks[0], b.bids)
    ensures var b', amount := FillHeadAsk(price, b), Lesser(b.asks[0].remain, b.bids[0].remain);
            && b'.bids == Consume(b.bids, amount) && b'.asks == Consume(b.asks, amount)
            && b.deals <= b'.deals && Dealt(b'.deals[|b.deals|..]) == amount
  {
    var f := Fill(b.asks[0], b.bids, b.deals);
    var amount := Lesser(b.asks[0].remain, b.bids[0].remain);
    FillsInOrderExactly(price, f, Buy);
    FillEffect(price, f, 0, Buy);
    ConsumeFromHead(b.asks, amount);
  }

  /** All calls of a round serve in order if and only if the book is orderly. */
  lemma {:induction false} RoundServesInOrderExactly(price: word, b: Book)
    requires Ordered(b)
    ensures RoundServesInOrder(price, b) <==> Orderly(price, b.bids, b.asks)
    decreases |b.bids| + |b.asks|
  {
    hide FillFrom, DropZero, Consume, ServesInOrder, HeadSuffices;
    if Exhausted(price, b) {
      OrderlyEnds(price, b);
    } else {
      OrderlyUnfolds(price, b.bids, b.asks);
      FillsInOrderExactly(price, Fill(b.bids[0], b.asks, b.deals), Sell);
      if HeadSuffices(price, b.bids[0], b.asks) {
        HeadBidTurn(price, b);
        HeadBidShrinks(price, b);
        AskThenServes(price, FillHeadBid(price, b));
      }
    }
  }

  lemma {:induction false} AskThenServes(price: word, b: Book)
    requires Ordered(b)
    ensures Orderly(price, b.asks, b.bids) <==>
      Exhausted(price, b) || (
        && ServesInOrder(price, Fill(b.asks[0], b.bids, b.deals))
        && (HeadAskShrinks(price, b);
            RoundServesInOrder(price, FillHeadAsk(price, b))))
    decreases |b.bids| + |b.asks|
  {
    hide FillFrom, DropZero, Consume, ServesInOrder, HeadSuffices;
    if Exhausted(price, b) {
      OrderlyEnds(price, b);
    } else {
      OrderlyUnfolds(price, b.asks, b.bids);
      FillsInOrderExactly(price, Fill(b.asks[0], b.bids, b.deals), Buy);
      if HeadSuffices(price, b.asks[0], b.bids) {
        HeadAskTurn(price, b);
        HeadAskShrinks(price, b);
        RoundServesInOrderExactly(price, FillHeadAsk(price, b));
      }
    }
  }

  /** `r` is `b` after both fronts have been served for the amount of the new deals. */
  predicate Served(b: Book, r: Book) {
    && b.deals <= r.deals
    && var amount := Dealt(r.deals[|b.deals|..]);
    && r.bids == Consume(b.bids, amount) && r.asks == Consume(b.asks, amount)
  }

  lemma ServedTrans(a: Book, b: Book, c: Book)
    requires Served(a, b) && Served(b, c)
    ensures Served(a, c)
  {
    hide Consume, Dealt;
    var d1, d2 := b.deals[|a.deals|..], c.deals[|b.deals|..];
    assert c.deals[|a.deals|..] == d1 + d2;
    DealtConcat(d1, d2);
    ConsumeTwice(a.bids, Dealt(d1), Dealt(d2));
    ConsumeTwice(a.asks, Dealt(d1), Dealt(d2));
  }

  lemma {:induction false} OrderlyRound(price: word, b: Book)
    requires Ordered(b) && Orderly(price, b.bids, b.asks) && !Exhausted(price, b)
    ensures Served(b, ExecuteAt(price, b))
    decreases |b.bids| + |b.asks|
  {
    hide FillFrom, DropZero, Consume, HeadSuffices;
    OrderlyUnfolds(price, b.bids, b.asks);
    HeadBidTurn(price, b);
    HeadBidShrinks(price, b);
    var b1 := FillHeadBid(price, b);
    if !Exhausted(price, b1) {
      OrderlyUnfolds(price, b1.asks, b1.bids);
      HeadAskTurn(price, b1);
      HeadAskShrinks(price, b1);
      var b2 := FillHeadAsk(price, b1);
      ServedTrans(b, b1, b2);
      if !Exhausted(price, b2) {
        OrderlyRound(price, b2);
        ServedTrans(b, b2, ExecuteAt(price, b2));
      }
    }
  }

  /** On an orderly book executing a price serves both fronts, first come, first served, for exactly its volume. */
  lemma OrderlyRoundServesTheFront(price: word, b: Book)
    requires Ordered(b) && Orderly(price, b.bids, b.asks) && !Exhausted(price, b)
    ensures var r := ExecuteAt(price, b);
            r.bids == Consume(b.bids, Crossed(b, price)) && r.asks == Consume(b.asks, Crossed(b, price))
  {
    hide *;
    OrderlyRound(price, b);
    ExecuteTradesTheMinimum(price, b);
    ServedFor(b, ExecuteAt(price, b), Crossed(b, price));
  }

  lemma ServedFor(b: Book, r: Book, amount: nat)
    requires Served(b, r) && Dealt(r.deals[|b.deals|..]) == amount
    ensures r.bids == Consume(b.bids, amount) && r.asks == Consume(b.asks, amount)
  {
  }

  // ---- Whole runs ----

  lemma LiveIsServed(b: Book)
    requires LiveHeads(b)
    ensures Served(b, b)
  {
    ConsumeNothing(b.bids);
    ConsumeNothing(b.asks);
    assert b.deals[|b.deals|..] == [];
  }

  /** Every round is at a price at which its book is orderly. */
  predicate AllOrderly(b: Book, prices: seq<word>)
    requires Ordered(b)
  {
    forall i | 0 <= i < |prices| ::
      var before := RunBook(b, prices[..i]);
      Orderly(prices[i], before.bids, before.asks)
  }

  /** Then the whole run serves both fronts, first come first served. */
  lemma {:induction false} OrderlyRunServesTheFront(highPrice: word, midPrice: word, lowPrice: word,
      b: Book, prices: seq<word>)
    requires Ordered(b) && IsRun(highPrice, midPrice, lowPrice, b, prices) && StartsInside(b, prices)
    requires AllOrderly(b, prices) && (prices != [] || LiveHeads(b))
    ensures Served(b, RunBook(b, prices))
  {
    hide ExecutionPrice, Exhausted, Orderly, Served, LiveHeads, ExecuteAt, Crosses;
    if prices == [] {
      LiveIsServed(b);
    } else {
      var n := |prices| - 1;
      var init := prices[..n];
      var before := RunBook(b, init);
      assert forall i | 0 <= i < n :: init[..i] == prices[..i];
      LiveAfterFirst(highPrice, midPrice, lowPrice, b, init);
      RoundIsInside(highPrice, midPrice, lowPrice, b, prices, n);
      OrderlyRound(prices[n], before);
      if n > 0 {
        OrderlyRunServesTheFront(highPrice, midPrice, lowPrice, b, init);
        ServedTrans(b, before, RunBook(b, prices));
      }
    }
  }

  // ---- Books that are orderly ----

  lemma {:induction false} WaitingStays(price: word, os: seq<OrderState>, amount: nat)
    requires os != [] && amount <= os[0].remain && Volume(Waiting(os), price) == 0
    ensures Volume(Waiting(Consume(os, amount)), price) == 0
  {
    if amount < os[0].remain {
      assert Consume(os, amount)[1..] == os[1..];
    } else {
      ConsumeNothing(os[1..]);
      var rest := DropZero(os[1..]);
      if rest != [] {
        DropEffect(rest[1..], price);
      }
    }
  }

  /** Few orders: on neither side anything eligible waits behind the next live order. */
  lemma {:induction false} FewOrdersAreOrderly(price: word, xs: seq<OrderState>, ys: seq<OrderState>)
    requires Volume(Waiting(xs), price) == 0 && Volume(Waiting(ys), price) == 0
    ensures Orderly(price, xs, ys)
    decreases |xs| + |ys|
  {
    hide Consume, Waiting;
    if xs != [] && ys != [] && Eligible(xs[0], price) && Eligible(ys[0], price) {
      var amount := Lesser(xs[0].remain, ys[0].remain);
      WaitingStays(price, xs, amount);
      WaitingStays(price, ys, amount);
      TurnShrinks(xs, ys);
      FewOrdersAreOrderly(price, Consume(ys, amount), Consume(xs, amount));
    }
  }

  predicate OneSize(os: seq<OrderState>, size: nat) {
    size > 0 && forall i | 0 <= i < |os| :: os[i].remain == size
  }

  lemma ConsumeOne(os: seq<OrderState>, size: nat)
    requires os != [] && OneSize(os, size)
    ensures Consume(os, size) == os[1..] && OneSize(os[1..], size)
  {
    ConsumeNothing(os[1..]);
  }

  /** Orders of one size. */
  lemma {:induction false} OneSizeIsOrderly(price: word, xs: seq<OrderState>, ys: seq<OrderState>, size: nat)
    requires OneSize(xs, size) && OneSize(ys, size)
    ensures Orderly(price, xs, ys)
    decreases |xs| + |ys|
  {
    if xs != [] && ys != [] {
      ConsumeOne(xs, size);
      ConsumeOne(ys, size);
      OneSizeIsOrderly(price, ys[1..], xs[1..], size);
    }
  }

  lemma {:induction false} OneSizeStays(price: word, b: Book, size: nat)
    requires Ordered(b) && OneSize(b.bids, size) && OneSize(b.asks, size)
    ensures OneSize(ExecuteAt(price, b).bids, size) && OneSize(ExecuteAt(price, b).asks, size)
    decreases |b.bids| + |b.asks|
  {
    hide FillFrom, DropZero, Consume, Volume;
    if !Exhausted(price, b) {
      OneSizeTurn(price, b, size);
      var b1 := FillHeadBid(price, b);
      HeadBidShrinks(price, b);
      if !Exhausted(price, b1) {
        OneSizeTurn(price, b1, size);
        HeadAskShrinks(price, b1);
        OneSizeStays(price, FillHeadAsk(price, b1), size);
      }
    }
  }

  lemma OneSizeTurn(price: word, b: Book, size: nat)
    requires Ordered(b) && !Exhausted(price, b) && OneSize(b.bids, size) && OneSize(b.asks, size)
    ensures FillHeadBid(price, b).bids == FillHeadAsk(price, b).bids && OneSize(FillHeadBid(price, b).bids, size)
    ensures FillHeadBid(price, b).asks == FillHeadAsk(price, b).asks && OneSize(FillHeadBid(price, b).asks, size)
  {
    ConsumeOne(b.bids, size);
    ConsumeOne(b.asks, size);
    hide FillFrom, DropZero, Consume, FillHeadBid, FillHeadAsk;
    HeadBidTurn(price, b);
    HeadAskTurn(price, b);
  }

  lemma {:induction false} OneSizeRun(highPrice: word, midPrice: word, lowPrice: word,
      b: Book, prices: seq<word>, size: nat)
    requires Ordered(b) && IsRun(highPrice, midPrice, lowPrice, b, prices)
    requires OneSize(b.bids, size) && OneSize(b.asks, size)
    ensures AllOrderly(b, prices)
    ensures OneSize(RunBook(b, prices).bids, size) && OneSize(RunBook(b, prices).asks, size)
  {
    hide ExecutionPrice, Orderly, OneSize, ExecuteAt, Crosses;
    if prices != [] {
      var n := |prices| - 1;
      var init := prices[..n];
      var before := RunBook(b, init);
      assert forall i | 0 <= i < n :: init[..i] == prices[..i];
      OneSizeRun(highPrice, midPrice, lowPrice, b, init, size);
      OneSizeIsOrderly(prices[n], before.bids, before.asks, size);
      OneSizeStays(prices[n], before, size);
    }
  }

  /** With orders of one size a whole run is first come, first served, whatever the reference prices. */
  lemma OneSizeServesTheFront(highPrice: word, midPrice: word, lowPrice: word,
      b: Book, prices: seq<word>, size: nat)
    requires Ordered(b) && IsRun(highPrice, midPrice, lowPrice, b, prices)
    requires OneSize(b.bids, size) && OneSize(b.asks, size)
    ensures Served(b, RunBook(b, prices))
  {
    assert LiveHeads(b);
    hide *;
    OneSizeRun(highPrice, midPrice, lowPrice, b, prices, size);
    InsideIfLive(highPrice, midPrice, lowPrice, b, prices);
    OrderlyRunServesTheFront(highPrice, midPrice, lowPrice, b, prices);
  }

  lemma InsideIfLive(highPrice: word, midPrice: word, lowPrice: word, b: Book, prices: seq<word>)
    requires Ordered(b) && IsRun(highPrice, midPrice, lowPrice, b, prices) && LiveHeads(b)
    ensures StartsInside(b, prices)
  {
    if prices != [] {
      FirstRound(highPrice, midPrice, lowPrice, b, prices);
    }
  }

  // ---- A book that is not served in order ----

  function SkipBid(remain: word): OrderState {
    OrderState(10, 1, 8, remain, Buy, [])
  }

  function SkipAsk(price: word, height: int, total: word, remain: word): OrderState {
    OrderState(price, height, total, remain, Sell, [])
  }

  /** One bid, and three asks of rising price that it can all meet. */
  function SkipBook(): Book {
    Book([SkipBid(8)], [SkipAsk(3, 1, 1, 1), SkipAsk(5, 2, 5, 5), SkipAsk(7, 3, 5, 5)], [])
  }

  lemma SkipVolumes(q: nat)
    ensures Ordered(SkipBook()) && LiveHeads(SkipBook()) && Crosses(SkipBook())
    ensures Volume(SkipBook().bids, q) == if q <= 10 then 8 else 0
    ensures Volume(SkipBook().asks, q) == if q < 3 then 0 else if q < 5 then 1 else if q < 7 then 6 else 11
  {
    var asks := SkipBook().asks;
    VolumeStep(asks, q);
    VolumeStep(asks[1..], q);
    VolumeStep(asks[2..], q);
    VolumeStep(SkipBook().bids, q);
    assert asks[1..][1..] == asks[2..] && asks[2..][1..] == [] && SkipBook().bids[1..] == [];
  }

  lemma VolumeStep(os: seq<OrderState>, q: nat)
    requires os != []
    ensures Volume(os, q) == (if Eligible(os[0], q) then os[0].remain else 0) + Volume(os[1..], q)
  {
  }

  lemma SkippingBid(price: word)
    requires 7 <= price <= 10
    ensures FillHeadBid(price, SkipBook()).bids == [SkipBid(2)]
    ensures FillHeadBid(price, SkipBook()).asks == [SkipAsk(5, 2, 5, 5), SkipAsk(7, 3, 5, 0)]
  {
    var f := Fill(SkipBid(8), SkipBook().asks, []);
    var g := FillOne(price, f, 0);
    var rest := [SkipAsk(5, 2, 5, 5), SkipAsk(7, 3, 5, 5)];
    assert f.against[0 := Take(f.against[0], 1)] == [SkipAsk(3, 1, 1, 0)] + rest;
    assert ([SkipAsk(3, 1, 1, 0)] + rest)[1..] == rest;
    assert DropZero([SkipAsk(3, 1, 1, 0)] + rest) == DropZero(rest) == rest;
    assert g.order == SkipBid(7) && g.against == rest;
    var h := FillOne(price, g, 1);
    assert h.order == SkipBid(2) && h.against == [SkipAsk(5, 2, 5, 5), SkipAsk(7, 3, 5, 0)];
    hide FillFrom, FillOne;
    FillUnfolds(price, f, 0);
    FillUnfolds(price, g, 1);
    FillUnfolds(price, h, 2);
    assert SkipBook().bids[0 := SkipBid(2)] == [SkipBid(2)];
  }

  lemma SkippedAsk(price: word, b: Book)
    requires 7 <= price <= 10
    requires b.bids == [SkipBid(2)] && b.asks == [SkipAsk(5, 2, 5, 5), SkipAsk(7, 3, 5, 0)]
    ensures FillHeadAsk(price, b).bids == []
    ensures FillHeadAsk(price, b).asks == [SkipAsk(5, 2, 5, 3), SkipAsk(7, 3, 5, 0)]
  {
    var f := Fill(b.asks[0], b.bids, b.deals);
    var g := FillOne(price, f, 0);
    assert f.against[0 := Take(f.against[0], 2)][1..] == [];
    assert g.order == SkipAsk(5, 2, 5, 3) && g.against == [];
    hide FillFrom, FillOne;
    FillUnfolds(price, f, 0);
    FillUnfolds(price, g, 1);
    assert b.asks[0 := g.order] == [SkipAsk(5, 2, 5, 3), SkipAsk(7, 3, 5, 0)];
  }

  lemma SkippingRound(price: word)
    requires 7 <= price <= 10 && Ordered(SkipBook())
    ensures ExecuteAt(price, SkipBook()).bids == []
    ensures ExecuteAt(price, SkipBook()).asks == [SkipAsk(5, 2, 5, 3), SkipAsk(7, 3, 5, 0)]
  {
    hide FillHeadBid, FillHeadAsk;
    SkippingBid(price);
    HeadBidShrinks(price, SkipBook());
    var b1 := FillHeadBid(price, SkipBook());
    SkippedAsk(price, b1);
    HeadAskShrinks(price, b1);
  }

  /**
    * Whatever the reference prices, the auction on this book fills its dearest ask and leaves a better and older one.
    * So neither priority by price nor priority by time holds.
    */
  lemma BetterAskIsPassedOver(highPrice: word, midPrice: word, lowPrice: word, prices: seq<word>)
    requires Ordered(SkipBook()) && IsRun(highPrice, midPrice, lowPrice, SkipBook(), prices) && prices != []
    ensures |prices| == 1
    ensures RunBook(SkipBook(), prices).bids == []
    ensures RunBook(SkipBook(), prices).asks == [SkipAsk(5, 2, 5, 3), SkipAsk(7, 3, 5, 0)]
    ensures !Orderly(prices[0], SkipBook().bids, SkipBook().asks)
  {
    var b, p := SkipBook(), prices[0];
    assert RunBook(b, prices[..0]) == b;
    ChosenPriceHasMaximumVolume(highPrice, midPrice, lowPrice, b, p, 7);
    SkipVolumes(7);
    SkipVolumes(p);
    SkippingRound(p);
    assert prices[..1][..0] == [] && prices[..1][0] == p;
    assert RunBook(b, prices[..1]) == ExecuteAt(p, b);
    assert |prices| == 1;
    assert prices[..1] == prices;
    OneWaits(p);
  }

  lemma OneWaits(price: word)
    requires 7 <= price <= 10
    ensures !HeadSuffices(price, SkipBook().bids[0], SkipBook().asks)
    ensures !Orderly(price, SkipBook().bids, SkipBook().asks)
  {
    var asks := SkipBook().asks;
    assert DropZero(asks[1..]) == asks[1..] && asks[1..][1..] == [SkipAsk(7, 3, 5, 5)];
  }

  /** The auction does run on it. */
  lemma SkipBookIsTraded(highPrice: word, midPrice: word, lowPrice: word) returns (price: word)
    requires midPrice != 0
    ensures Ordered(SkipBook()) && IsRun(highPrice, midPrice, lowPrice, SkipBook(), [price])
  {
    var b := SkipBook();
    SkipVolumes(0);
    SkipVolumes(AuctionPricing.MAX_PRICE);
    CrossedIsTradable(b, 0);
    CrossedIsTradable(b, AuctionPricing.MAX_PRICE);
    AuctionChoice.SmallIsMeasurable(PointsOf(b));
    PriceExists(highPrice, midPrice, lowPrice, b);
    price :| ExecutionPrice(highPrice, midPrice, lowPrice, b, price);
    assert [price][..0] == [];
  }
}
