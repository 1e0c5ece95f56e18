/** Orders as values, and what executing a price does to a book of them. */
module AuctionBook {
  import opened Bytes
  import opened U256

  datatype Side = Buy | Sell

  /** The state of one order. */
  datatype OrderState = OrderState(price: word, height: int, total: word, remain: word, side: Side, owner: bytes)

  /** The line printed by `deal`: both orders as they were just before it. */
  datatype Deal = Deal(order: OrderState, against: OrderState, amount: word, price: word)

  datatype Book = Book(bids: seq<OrderState>, asks: seq<OrderState>, deals: seq<Deal>)

  // ---- Execution, as the code does it ----

  predicate Eligible(o: OrderState, price: nat) {
    if o.side.Buy? then o.price >= price else o.price <= price
  }

  function DropZero(os: seq<OrderState>): (r: seq<OrderState>)
    ensures |r| <= |os| && (r != [] ==> r[0].remain > 0)
    ensures os != [] && os[0].remain == 0 ==> |r| < |os|
  {
    if os != [] && os[0].remain == 0 then DropZero(os[1..]) else os
  }

  function Lesser(a: word, b: word): word {
    if a < b then a else b
  }

  /** One `ExecuteOrder` in progress: the order, its counterparties and the deals so far. */
  datatype Fill = Fill(order: OrderState, against: seq<OrderState>, deals: seq<Deal>)

  function Take(o: OrderState, amount: word): OrderState
    requires amount <= o.remain
  {
    o.(remain := o.remain - amount)
  }

  /** Deal with the `i`th counterparty and clear filled heads. */
  function FillOne(price: word, f: Fill, i: nat): Fill
    requires i < |f.against|
  {
    var amount := Lesser(f.order.remain, f.against[i].remain);
    Fill(
      Take(f.order, amount),
      DropZero(f.against[i := Take(f.against[i], amount)]),
      f.deals + [Deal(f.order, f.against[i], amount, price)])
  }

  /** The loop of `ExecuteOrder` from index `i`. A shift moves the list under the index, which skips an order. */
  function FillFrom(price: word, f: Fill, i: nat): Fill
    decreases |f.against| - i
  {
    if i >= |f.against| || !Eligible(f.against[i], price) then
      f
    else
      var g := FillOne(price, f, i);
      if g.order.remain == 0 then g else FillFrom(price, g, i + 1)
  }

  lemma FillUnfolds(price: word, f: Fill, i: nat)
    ensures FillFrom(price, f, i) ==
      if i >= |f.against| || !Eligible(f.against[i], price) then f
      else if FillOne(price, f, i).order.remain == 0 then FillOne(price, f, i)
      else FillFrom(price, FillOne(price, f, i), i + 1)
  {
  }

  /** The exit test of `ExecuteOrderList`. */
  predicate Exhausted(price: word, b: Book) {
    b.asks == [] || b.bids == [] || b.bids[0].price < price || b.asks[0].price > price
  }

  function FillHeadBid(price: word, b: Book): Book
    requires b.bids != []
  {
    var f := FillFrom(price, Fill(b.bids[0], b.asks, b.deals), 0);
    Book(DropZero(b.bids[0 := f.order]), f.against, f.deals)
  }

  function FillHeadAsk(price: word, b: Book): Book
    requires b.asks != []
  {
    var f := FillFrom(price, Fill(b.asks[0], b.bids, b.deals), 0);
    Book(f.against, DropZero(b.asks[0 := f.order]), f.deals)
  }

  /** `ExecuteOrderList` on values. */
  function ExecuteAt(price: word, b: Book): (r: Book)
    requires Ordered(b)
    ensures Ordered(r)
    decreases |b.bids| + |b.asks|
  {
    if Exhausted(price, b) then
      b
    else
      HeadBidShrinks(price, b);
      var b1 := FillHeadBid(price, b);
      if Exhausted(price, b1) then
        b1
      else
        HeadAskShrinks(price, b1);
        ExecuteAt(price, FillHeadAsk(price, b1))
  }

  // ---- What is promised ----

  /** The amount `os` would trade at `price`. */
  function Volume(os: seq<OrderState>, price: nat): (v: nat) {
    if os == [] then 0 else (if Eligible(os[0], price) then os[0].remain else 0) + Volume(os[1..], price)
  }

  /** The live orders that may not trade at `price`. */
  function Resting(os: seq<OrderState>, price: nat): seq<OrderState> {
    if os == [] then []
    else if !Eligible(os[0], price) && os[0].remain > 0 then [os[0]] + Resting(os[1..], price)
    else Resting(os[1..], price)
  }

  function Total(os: seq<OrderState>): nat {
    if os == [] then 0 else os[0].remain + Total(os[1..])
  }

  function Dealt(ds: seq<Deal>): nat {
    if ds == [] then 0 else Dealt(ds[..|ds| - 1]) + ds[|ds| - 1].amount
  }

  predicate OneSided(os: seq<OrderState>, side: Side) {
    forall i | 0 <= i < |os| :: os[i].side == side
  }

  /** Best price first. */
  predicate PriceSorted(os: seq<OrderState>) {
    forall i, j | 0 <= i < j < |os| ::
      if os[i].side.Buy? then os[i].price >= os[j].price else os[i].price <= os[j].price
  }

  predicate LiveHead(os: seq<OrderState>) {
    os != [] ==> os[0].remain > 0
  }

  predicate SortedSide(os: seq<OrderState>, side: Side) {
    OneSided(os, side) && PriceSorted(os)
  }

  /** Two sorted sides. Orders may be filled, at the head as well as further down. */
  predicate Ordered(b: Book) {
    SortedSide(b.bids, Buy) && SortedSide(b.asks, Sell)
  }

  predicate LiveHeads(b: Book) {
    LiveHead(b.bids) && LiveHead(b.asks)
  }

  /** Between a buyer and a seller, at a price within both limits, and for no more than either has left. */
  predicate Fair(d: Deal) {
    && d.order.side != d.against.side
    && Eligible(d.order, d.price) && Eligible(d.against, d.price)
    && d.amount <= d.order.remain && d.amount <= d.against.remain
  }

  /** `os'` is `os` after some partial fills and after dropping orders from the front. */
  predicate Residue(os: seq<OrderState>, os': seq<OrderState>) {
    && |os'| <= |os|
    && forall i | 0 <= i < |os'| ::
      var o := os[|os| - |os'| + i];
      os'[i].remain <= o.remain && os'[i] == o.(remain := os'[i].remain)
  }

  /** Effect of trading at one price, on one side, for `amount`. */
  predicate SideStep(price: word, os: seq<OrderState>, os': seq<OrderState>, amount: nat) {
    && Volume(os', price) + amount == Volume(os, price)
    && Resting(os', price) == Resting(os, price)
    && Residue(os, os')
  }

  /** Both sides lose the same amount, which is that of the new deals, all of them fair and at `price`. */
  predicate Step(price: word, b: Book, b': Book) {
    && b.deals <= b'.deals
    && var ds := b'.deals[|b.deals|..];
    && SideStep(price, b.bids, b'.bids, Dealt(ds))
    && SideStep(price, b.asks, b'.asks, Dealt(ds))
    && (forall i | 0 <= i < |ds| :: Fair(ds[i]) && ds[i].price == price)
  }

  // ---- Algebra of steps ----

  lemma {:induction false} DealtConcat(a: seq<Deal>, b: seq<Deal>)
    ensures Dealt(a + b) == Dealt(a) + Dealt(b)
  {
    if b == [] {
      assert a + b == a;
    } else {
      var c := a + b;
      assert c[..|c| - 1] == a + b[..|b| - 1];
      DealtConcat(a, b[..|b| - 1]);
    }
  }

  lemma StepRefl(price: word, b: Book)
    ensures Step(price, b, b)
  {
  }

  lemma ResidueTrans(a: seq<OrderState>, b: seq<OrderState>, c: seq<OrderState>)
    requires Residue(a, b) && Residue(b, c)
    ensures Residue(a, c)
  {
  }

  lemma StepTrans(price: word, a: Book, b: Book, c: Book)
    requires Step(price, a, b) && Step(price, b, c)
    ensures Step(price, a, c)
  {
    var d1, d2 := b.deals[|a.deals|..], c.deals[|b.deals|..];
    assert c.deals[|a.deals|..] == d1 + d2;
    DealtConcat(d1, d2);
    ResidueTrans(a.bids, b.bids, c.bids);
    ResidueTrans(a.asks, b.asks, c.asks);
  }

  // ---- Updating and dropping ----

  lemma {:induction false} TakeEffect(os: seq<OrderState>, i: nat, amount: word, price: word)
    requires i < |os| && amount <= os[i].remain && Eligible(os[i], price)
    ensures SideStep(price, os, os[i := Take(os[i], amount)], amount)
  {
    var os' := os[i := Take(os[i], amount)];
    if i > 0 {
      TakeEffect(os[1..], i - 1, amount, price);
      assert os'[1..] == os[1..][i - 1 := Take(os[i], amount)];
    } else {
      assert os'[1..] == os[1..];
    }
  }

  lemma DropOne(os: seq<OrderState>)
    requires os != []
    ensures Residue(os, os[1..])
  {
  }

  lemma StayingIsResidue(os: seq<OrderState>)
    ensures Residue(os, os)
  {
  }

  lemma {:induction false} DropEffect(os: seq<OrderState>, price: word)
    ensures SideStep(price, os, DropZero(os), 0)
  {
    if os != [] && os[0].remain == 0 {
      DropEffect(os[1..], price);
      DropOne(os);
      hide Residue;
      ResidueTrans(os, os[1..], DropZero(os));
    } else {
      StayingIsResidue(os);
    }
  }

  lemma ResidueKeeps(os: seq<OrderState>, os': seq<OrderState>, side: Side)
    requires SortedSide(os, side) && Residue(os, os')
    ensures SortedSide(os', side)
  {
  }

  lemma TakeAndDrop(os: seq<OrderState>, i: nat, amount: word, price: word)
    requires i < |os| && amount <= os[i].remain && Eligible(os[i], price)
    ensures SideStep(price, os, DropZero(os[i := Take(os[i], amount)]), amount)
  {
    var os' := os[i := Take(os[i], amount)];
    TakeEffect(os, i, amount, price);
    DropEffect(os', price);
    ResidueTrans(os, os', DropZero(os'));
  }

  // ---- One order against the other side ----

  /** What `ExecuteOrder` has done when it has come from `f` to `g`. */
  predicate Filled(price: word, f: Fill, g: Fill) {
    && f.deals <= g.deals
    && var ds := g.deals[|f.deals|..];
    && Dealt(ds) <= f.order.remain
    && g.order == Take(f.order, Dealt(ds))
    && SideStep(price, f.against, g.against, Dealt(ds))
    && (forall i | 0 <= i < |ds| :: Fair(ds[i]) && ds[i].price == price)
  }

  lemma FilledTrans(price: word, f: Fill, g: Fill, h: Fill)
    requires Filled(price, f, g) && Filled(price, g, h)
    ensures Filled(price, f, h)
  {
    var d1, d2 := g.deals[|f.deals|..], h.deals[|g.deals|..];
    assert h.deals[|f.deals|..] == d1 + d2;
    DealtConcat(d1, d2);
    ResidueTrans(f.against, g.against, h.against);
  }

  lemma FillOneEffect(price: word, f: Fill, i: nat)
    requires i < |f.against| && Eligible(f.order, price) && Eligible(f.against[i], price)
    requires f.order.side != f.against[i].side
    ensures Filled(price, f, FillOne(price, f, i))
  {
    var amount := Lesser(f.order.remain, f.against[i].remain);
    var d := Deal(f.order, f.against[i], amount, price);
    var g := FillOne(price, f, i);
    assert g.deals[|f.deals|..] == [d];
    assert Dealt([d]) == amount by { assert [d][..0] == []; }
    TakeAndDrop(f.against, i, amount, price);
  }

  /**
    * The deals of `ExecuteOrder` account for what its order and its counterparties lose, whatever it skips;
    * if it deals at all it leaves no filled head.
    */
  lemma {:induction false} FillEffect(price: word, f: Fill, i: nat, side: Side)
    requires Eligible(f.order, price) && f.order.side != side && SortedSide(f.against, side)
    ensures var g := FillFrom(price, f, i);
            && Filled(price, f, g) && SortedSide(g.against, side)
            && (LiveHead(f.against) || (i < |f.against| && Eligible(f.against[i], price)) ==> LiveHead(g.against))
    decreases |f.against| - i
  {
    if i < |f.against| && Eligible(f.against[i], price) {
      var g := FillOne(price, f, i);
      FillOneEffect(price, f, i);
      ResidueKeeps(f.against, g.against, side);
      if g.order.remain != 0 {
        FillEffect(price, g, i + 1, side);
        FilledTrans(price, f, g, FillFrom(price, g, i + 1));
      }
    } else {
      assert f.deals[|f.deals|..] == [];
    }
  }

  /** Either the order is filled or a counterparty is removed, even if one of them was filled before. */
  lemma FillProgress(price: word, f: Fill, side: Side)
    requires f.against != [] && Eligible(f.order, price) && Eligible(f.against[0], price)
    requires f.order.side != side && SortedSide(f.against, side)
    ensures var g := FillFrom(price, f, 0);
            g.order.remain == 0 || |g.against| < |f.against|
  {
    var g := FillOne(price, f, 0);
    if g.order.remain != 0 {
      assert f.against[0 := Take(f.against[0], f.against[0].remain)][0].remain == 0;
      assert |g.against| < |f.against|;
      FillOneEffect(price, f, 0);
      ResidueKeeps(f.against, g.against, side);
      FillEffect(price, g, 1, side);
    }
  }

  // ---- The two halves of a pass ----

  lemma PutBackHead(price: word, os: seq<OrderState>, o: OrderState, amount: word, side: Side)
    requires SortedSide(os, side) && os != [] && Eligible(os[0], price)
    requires amount <= os[0].remain && o == Take(os[0], amount)
    ensures var os' := DropZero(os[0 := o]);
            && SideStep(price, os, os', amount) && SortedSide(os', side) && LiveHead(os')
            && (o.remain == 0 ==> |os'| < |os|)
  {
    TakeAndDrop(os, 0, amount, price);
    ResidueKeeps(os, DropZero(os[0 := o]), side);
  }

  lemma HeadBidStep(price: word, b: Book)
    requires Ordered(b) && !Exhausted(price, b)
    ensures var b' := FillHeadBid(price, b);
            && Ordered(b') && LiveHeads(b') && Step(price, b, b')
            && |b'.bids| + |b'.asks| < |b.bids| + |b.asks|
  {
    var f := Fill(b.bids[0], b.asks, b.deals);
    var g := FillFrom(price, f, 0);
    FillEffect(price, f, 0, Sell);
    FillProgress(price, f, Sell);
    PutBackHead(price, b.bids, g.order, Dealt(g.deals[|f.deals|..]), Buy);
  }

  lemma HeadAskStep(price: word, b: Book)
    requires Ordered(b) && !Exhausted(price, b)
    ensures var b' := FillHeadAsk(price, b);
            && Ordered(b') && LiveHeads(b') && Step(price, b, b')
            && |b'.bids| + |b'.asks| < |b.bids| + |b.asks|
  {
    var f := Fill(b.asks[0], b.bids, b.deals);
    var g := FillFrom(price, f, 0);
    FillEffect(price, f, 0, Buy);
    FillProgress(price, f, Buy);
    PutBackHead(price, b.asks, g.order, Dealt(g.deals[|f.deals|..]), Sell);
  }

  lemma HeadBidShrinks(price: word, b: Book)
    requires Ordered(b) && !Exhausted(price, b)
    ensures var b' := FillHeadBid(price, b);
            Ordered(b') && |b'.bids| + |b'.asks| < |b.bids| + |b.asks|
  {
    HeadBidStep(price, b);
  }

  lemma HeadAskShrinks(price: word, b: Book)
    requires Ordered(b) && !Exhausted(price, b)
    ensures var b' := FillHeadAsk(price, b);
            Ordered(b') && |b'.bids| + |b'.asks| < |b.bids| + |b.asks|
  {
    HeadAskStep(price, b);
  }

  /**
    * Execution goes on until a side is exhausted, and every deal is accounted for.
    * Unless a side was exhausted to begin with, some order goes and no filled order is left at a head.
    */
  lemma {:induction false} ExecuteSteps(price: word, b: Book)
    requires Ordered(b)
    ensures var r := ExecuteAt(price, b);
            && Exhausted(price, r) && Step(price, b, r)
            && (!Exhausted(price, b) ==> |r.bids| + |r.asks| < |b.bids| + |b.asks| && LiveHeads(r))
    decreases |b.bids| + |b.asks|
  {
    if Exhausted(price, b) {
      StepRefl(price, b);
    } else {
      HeadBidStep(price, b);
      var b1 := FillHeadBid(price, b);
      if !Exhausted(price, b1) {
        HeadAskStep(price, b1);
        var b2 := FillHeadAsk(price, b1);
        ExecuteSteps(price, b2);
        StepTrans(price, b, b1, b2);
        StepTrans(price, b, b2, ExecuteAt(price, b2));
      }
    }
  }

  // ---- Main results about one price ----

  lemma {:induction false} NothingEligible(os: seq<OrderState>, price: word, side: Side)
    requires SortedSide(os, side)
    requires os == [] || !Eligible(os[0], price)
    ensures Volume(os, price) == 0
  {
    if os != [] {
      assert SortedSide(os[1..], side);
      NothingEligible(os[1..], price, side);
    }
  }

  function Crossed(b: Book, price: nat): nat {
    var x, y := Volume(b.bids, price), Volume(b.asks, price);
    if x < y then x else y
  }

  /** Executing a price trades exactly what that price can trade, and touches no live order it may not touch. */
  lemma ExecuteTradesTheMinimum(price: word, b: Book)
    requires Ordered(b)
    ensures var r := ExecuteAt(price, b);
            && b.deals <= r.deals
            && Dealt(r.deals[|b.deals|..]) == Crossed(b, price)
            && Resting(r.bids, price) == Resting(b.bids, price)
            && Resting(r.asks, price) == Resting(b.asks, price)
  {
    hide ExecuteAt, Residue, PriceSorted, Fair, Volume, Resting, Dealt;
    var r := ExecuteAt(price, b);
    ExecuteSteps(price, b);
    if r.bids == [] || !Eligible(r.bids[0], price) {
      NothingEligible(r.bids, price, Buy);
    } else {
      NothingEligible(r.asks, price, Sell);
    }
  }
}
