/** The auction as the script runs it: order objects, arrays shifted in place, loops. */
module Auction {
  import opened Prelude
  import opened Bytes
  import opened U256
  import opened AuctionBook
  import opened AuctionPrice
  import opened AuctionRun
  import opened AuctionStall
  import AuctionChoice
  import Sorting

  class Order {
    const price: word
    const height: int
    const totalAmount: word
    const side: Side
    const owner: bytes
    var remainAmount: word

    constructor (price: word, height: int, totalAmount: word, side: Side, owner: bytes)
      ensures State() == OrderState(price, height, totalAmount, totalAmount, side, owner)
    {
      this.price := price;
      this.height := height;
      this.totalAmount := totalAmount;
      this.remainAmount := totalAmount;
      this.side := side;
      this.owner := owner;
    }

    function State(): OrderState
      reads this
    {
      OrderState(price, height, totalAmount, remainAmount, side, owner)
    }

    /**
      * Returns the line it prints, and whether both subtractions went through.
      * If the second one throws, the first has been done.
      */
    method Deal(againstOrder: Order, amount: word, price: word) returns (ok: bool, line: AuctionBook.Deal)
      modifies `remainAmount, againstOrder`remainAmount
      ensures line == AuctionBook.Deal(old(State()), old(againstOrder.State()), amount, price)
      ensures againstOrder != this ==>
        && (ok <==> amount <= old(remainAmount) && amount <= old(againstOrder.remainAmount))
        && State() == (if amount <= old(remainAmount) then Take(old(State()), amount) else old(State()))
        && againstOrder.State() == if ok then Take(old(againstOrder.State()), amount) else old(againstOrder.State())
    {
      line := AuctionBook.Deal(State(), againstOrder.State(), amount, price);
      var remain := Sub(remainAmount, amount);
      if remain.Throw? {
        return false, line;
      }
      remainAmount := remain.value;
      var againstRemain := Sub(againstOrder.remainAmount, amount);
      if againstRemain.Throw? {
        return false, line;
      }
      againstOrder.remainAmount := againstRemain.value;
      ok := true;
    }
  }

  predicate NoDuplicates(os: seq<Order>) {
    forall i, j | 0 <= i < j < |os| :: os[i] != os[j]
  }

  /** Two arrays that share no order, with no order twice. */
  predicate Separate(a: seq<Order>, b: seq<Order>) {
    NoDuplicates(a) && NoDuplicates(b) && forall i, j | 0 <= i < |a| && 0 <= j < |b| :: a[i] != b[j]
  }

  /** A JavaScript array of orders. */
  class OrderList {
    var items: seq<Order>

    constructor (items: seq<Order>)
      ensures this.items == items
    {
      this.items := items;
    }

    /** Removes filled orders from the front. */
    method ClearZeroOrderList(ghost all: seq<Order>, ghost st: seq<OrderState>)
      requires View(this, all, st)
      modifies `items
      ensures View(this, all, st)
      ensures Last(st, |items|) == DropZero(Last(st, |old(items)|))
    {
      while items != [] && items[0].remainAmount == 0
        invariant View(this, all, st)
        invariant DropZero(Last(st, |items|)) == DropZero(Last(st, |old(items)|))
      {
        ghost var before := Last(st, |items|);
        assert items[0] == all[|all| - |items|];
        items := items[1..];
        assert before[1..] == Last(st, |items|);
      }
    }
  }

  /** The last `n` states. */
  function Last(st: seq<OrderState>, n: nat): seq<OrderState> {
    if n <= |st| then st[|st| - n..] else st
  }

  /**
    * `all` is the array before any shift and `st` the present states of all its orders;
    * what was shifted out is a prefix of filled orders.
    */
  ghost predicate View(list: OrderList, all: seq<Order>, st: seq<OrderState>)
    reads list, all
  {
    && |list.items| <= |all| == |st|
    && list.items == all[|all| - |list.items|..]
    && (forall i | 0 <= i < |all| :: all[i].State() == st[i])
    && (forall i | 0 <= i < |all| - |list.items| :: st[i].remain == 0)
  }

  lemma ViewSize(list: OrderList, all: seq<Order>, st: seq<OrderState>)
    requires View(list, all, st)
    ensures |Last(st, |list.items|)| == |list.items|
  {
  }

  lemma ViewAt(list: OrderList, all: seq<Order>, st: seq<OrderState>, i: nat)
    requires View(list, all, st) && i < |list.items|
    ensures |Last(st, |list.items|)| == |list.items|
    ensures Last(st, |list.items|)[i] == list.items[i].State()
  {
  }

  /** The order deals with the `i`th counterparty for the lesser of the two amounts. */
  method DealAt(price: word, order: Order, againstOrders: OrderList, i: nat,
      ghost all: seq<Order>, ghost st: seq<OrderState>)
    returns (line: AuctionBook.Deal, ghost st': seq<OrderState>)
    requires NoDuplicates(all) && order !in all && View(againstOrders, all, st) && i < |againstOrders.items|
    modifies order`remainAmount, all`remainAmount
    ensures View(againstOrders, all, st')
    ensures var against := Last(st, |againstOrders.items|)[i];
            var amount := Lesser(old(order.State()).remain, against.remain);
            && line == AuctionBook.Deal(old(order.State()), against, amount, price)
            && order.State() == Take(old(order.State()), amount)
            && Last(st', |againstOrders.items|) == Last(st, |againstOrders.items|)[i := Take(against, amount)]
  {
    var against := againstOrders.items[i];
    var minAmount := against.remainAmount;
    if order.remainAmount < against.remainAmount {
      minAmount := order.remainAmount;
    }
    ghost var n, at := |againstOrders.items|, |all| - |againstOrders.items| + i;
    assert against == all[at] && Last(st, n)[i] == st[at];
    var ok;
    ok, line := order.Deal(against, minAmount, price);
    assert ok;
    st' := st[at := Take(st[at], minAmount)];
    assert Last(st', n) == Last(st, n)[i := Take(st[at], minAmount)];
  }

  /** One turn of the loop of `ExecuteOrder`. */
  method DealWith(price: word, order: Order, againstOrders: OrderList, i: nat, log: seq<AuctionBook.Deal>,
      ghost all: seq<Order>, ghost st: seq<OrderState>)
    returns (log': seq<AuctionBook.Deal>, ghost st': seq<OrderState>)
    requires NoDuplicates(all) && order !in all && View(againstOrders, all, st) && i < |againstOrders.items|
    modifies order`remainAmount, againstOrders`items, all`remainAmount
    ensures View(againstOrders, all, st')
    ensures Fill(order.State(), Last(st', |againstOrders.items|), log')
         == FillOne(price, Fill(old(order.State()), Last(st, |old(againstOrders.items)|), log), i)
  {
    ViewSize(againstOrders, all, st);
    hide View;
    var line;
    line, st' := DealAt(price, order, againstOrders, i, all, st);
    log' := log + [line];
    againstOrders.ClearZeroOrderList(all, st');
  }

  method ExecuteOrder(price: word, order: Order, againstOrders: OrderList, log: seq<AuctionBook.Deal>,
      ghost all: seq<Order>, ghost st: seq<OrderState>)
    returns (log': seq<AuctionBook.Deal>, ghost st': seq<OrderState>)
    requires NoDuplicates(all) && order !in all && View(againstOrders, all, st)
    modifies order`remainAmount, againstOrders`items, all`remainAmount
    ensures View(againstOrders, all, st')
    ensures Fill(order.State(), Last(st', |againstOrders.items|), log')
         == FillFrom(price, Fill(old(order.State()), Last(st, |old(againstOrders.items)|), log), 0)
  {
    log', st' := log, st;
    ghost var goal := FillFrom(price, Fill(order.State(), Last(st, |againstOrders.items|), log), 0);
    hide View, FillOne, FillFrom;
    ViewSize(againstOrders, all, st');
    var i := 0;
    while i < |againstOrders.items|
      invariant View(againstOrders, all, st')
      invariant |Last(st', |againstOrders.items|)| == |againstOrders.items|
      invariant FillFrom(price, Fill(order.State(), Last(st', |againstOrders.items|), log'), i) == goal
      decreases |againstOrders.items| - i
    {
      ViewAt(againstOrders, all, st', i);
      FillUnfolds(price, Fill(order.State(), Last(st', |againstOrders.items|), log'), i);
      if againstOrders.items[i].side == Buy {
        if againstOrders.items[i].price < price {
          return;
        }
      } else {
        if againstOrders.items[i].price > price {
          return;
        }
      }
      log', st' := DealWith(price, order, againstOrders, i, log', all, st');
      ViewSize(againstOrders, all, st');
      if order.remainAmount == 0 {
        return;
      }
      i := i + 1;
    }
    FillUnfolds(price, Fill(order.State(), Last(st', |againstOrders.items|), log'), i);
  }

  ghost function BookOf(bidList: OrderList, askList: OrderList,
      sb: seq<OrderState>, sa: seq<OrderState>, log: seq<AuctionBook.Deal>): Book
    reads bidList, askList
  {
    Book(Last(sb, |bidList.items|), Last(sa, |askList.items|), log)
  }

  predicate Stop(price: word, bids: seq<Order>, asks: seq<Order>) {
    asks == [] || bids == [] || bids[0].price < price || asks[0].price > price
  }

  lemma StopIsExhausted(price: word, bidList: OrderList, askList: OrderList, bids: seq<Order>, asks: seq<Order>,
      sb: seq<OrderState>, sa: seq<OrderState>, log: seq<AuctionBook.Deal>)
    requires View(bidList, bids, sb) && View(askList, asks, sa)
    ensures Stop(price, bidList.items, askList.items) <==> Exhausted(price, BookOf(bidList, askList, sb, sa, log))
  {
  }

  /** First half of a pass of `ExecuteOrderList`. */
  method ExecuteHeadBid(price: word, bidList: OrderList, askList: OrderList, log: seq<AuctionBook.Deal>,
      ghost bids: seq<Order>, ghost asks: seq<Order>, ghost sb: seq<OrderState>, ghost sa: seq<OrderState>)
    returns (log': seq<AuctionBook.Deal>, ghost sb': seq<OrderState>, ghost sa': seq<OrderState>)
    requires bidList != askList && Separate(bids, asks)
    requires View(bidList, bids, sb) && View(askList, asks, sa) && bidList.items != []
    modifies bidList`items, askList`items, bids`remainAmount, asks`remainAmount
    ensures View(bidList, bids, sb') && View(askList, asks, sa')
    ensures BookOf(bidList, askList, sb', sa', log') == FillHeadBid(price, old(BookOf(bidList, askList, sb, sa, log)))
  {
    hide FillFrom, DropZero;
    sb', sa' := sb, sa;
    ghost var n, at := |bidList.items|, |bids| - |bidList.items|;
    var order := bidList.items[0];
    assert order == bids[at] && Last(sb, n)[0] == sb[at];
    log', sa' := ExecuteOrder(price, order, askList, log, asks, sa);
    sb' := sb[at := order.State()];
    assert Last(sb', n) == Last(sb, n)[0 := order.State()];
    bidList.ClearZeroOrderList(bids, sb');
  }

  /** Second half of a pass of `ExecuteOrderList`. */
  method ExecuteHeadAsk(price: word, bidList: OrderList, askList: OrderList, log: seq<AuctionBook.Deal>,
      ghost bids: seq<Order>, ghost asks: seq<Order>, ghost sb: seq<OrderState>, ghost sa: seq<OrderState>)
    returns (log': seq<AuctionBook.Deal>, ghost sb': seq<OrderState>, ghost sa': seq<OrderState>)
    requires bidList != askList && Separate(bids, asks)
    requires View(bidList, bids, sb) && View(askList, asks, sa) && askList.items != []
    modifies bidList`items, askList`items, bids`remainAmount, asks`remainAmount
    ensures View(bidList, bids, sb') && View(askList, asks, sa')
    ensures BookOf(bidList, askList, sb', sa', log') == FillHeadAsk(price, old(BookOf(bidList, askList, sb, sa, log)))
  {
    hide FillFrom, DropZero;
    sb', sa' := sb, sa;
    ghost var n, at := |askList.items|, |asks| - |askList.items|;
    var order := askList.items[0];
    assert order == asks[at] && Last(sa, n)[0] == sa[at];
    log', sb' := ExecuteOrder(price, order, bidList, log, bids, sb);
    sa' := sa[at := order.State()];
    assert Last(sa', n) == Last(sa, n)[0 := order.State()];
    askList.ClearZeroOrderList(asks, sa');
  }

  method ExecuteOrderList(price: word, bidList: OrderList, askList: OrderList, log: seq<AuctionBook.Deal>,
      ghost bids: seq<Order>, ghost asks: seq<Order>, ghost sb: seq<OrderState>, ghost sa: seq<OrderState>)
    returns (log': seq<AuctionBook.Deal>, ghost sb': seq<OrderState>, ghost sa': seq<OrderState>)
    requires bidList != askList && Separate(bids, asks)
    requires View(bidList, bids, sb) && View(askList, asks, sa)
    requires Ordered(BookOf(bidList, askList, sb, sa, log))
    modifies bidList`items, askList`items, bids`remainAmount, asks`remainAmount
    ensures View(bidList, bids, sb') && View(askList, asks, sa')
    ensures BookOf(bidList, askList, sb', sa', log') == ExecuteAt(price, old(BookOf(bidList, askList, sb, sa, log)))
  {
    log', sb', sa' := log, sb, sa;
    ghost var goal := ExecuteAt(price, BookOf(bidList, askList, sb, sa, log));
    hide View, Ordered;
    while true
      invariant View(bidList, bids, sb') && View(askList, asks, sa')
      invariant Ordered(BookOf(bidList, askList, sb', sa', log'))
      invariant ExecuteAt(price, BookOf(bidList, askList, sb', sa', log')) == goal
      decreases |BookOf(bidList, askList, sb', sa', log').bids| + |BookOf(bidList, askList, sb', sa', log').asks|
    {
      ghost var b := BookOf(bidList, askList, sb', sa', log');
      StopIsExhausted(price, bidList, askList, bids, asks, sb', sa', log');
      if Stop(price, bidList.items, askList.items) {
        break;
      }
      HeadBidShrinks(price, b);
      log', sb', sa' := ExecuteHeadBid(price, bidList, askList, log', bids, asks, sb', sa');
      ghost var b1 := BookOf(bidList, askList, sb', sa', log');
      StopIsExhausted(price, bidList, askList, bids, asks, sb', sa', log');
      if Stop(price, bidList.items, askList.items) {
        break;
      }
      HeadAskShrinks(price, b1);
      log', sb', sa' := ExecuteHeadAsk(price, bidList, askList, log', bids, asks, sb', sa');
    }
  }

  // ---- Match ----

  function BufCompare(a: bytes, b: bytes): int {
    if Less(a, b) then -1 else if a == b then 0 else 1
  }

  /** Negative if `a` has priority over `b`. `hash` stands for the script's SHA-256 of the owner. */
  function OrderComparator(hash: bytes -> bytes, a: Order, b: Order): int {
    if (a.side == Sell && a.price < b.price) || (a.side == Buy && a.price > b.price) then -1
    else if (a.side == Sell && a.price > b.price) || (a.side == Buy && a.price < b.price) then 1
    else if a.height < b.height then -1
    else if a.height > b.height then 1
    else BufCompare(hash(a.owner), hash(b.owner))
  }

  function Before(hash: bytes -> bytes): (Order, Order) -> bool {
    (a: Order, b: Order) => OrderComparator(hash, a, b) < 0
  }

  lemma ComparatorIsStrictOrder(hash: bytes -> bytes, os: seq<Order>, side: Side)
    requires forall o | o in os :: o.side == side
    ensures Sorting.StrictOrderOn(os, Before(hash))
  {
    forall a, b | a in os && b in os && OrderComparator(hash, a, b) < 0
      ensures OrderComparator(hash, b, a) >= 0
    {
      if a.price == b.price && a.height == b.height {
        LessAsymmetric(hash(a.owner), hash(b.owner));
      }
    }
    forall a, b, c | a in os && b in os && c in os && OrderComparator(hash, a, b) < 0 && OrderComparator(hash, b, c) < 0
      ensures OrderComparator(hash, a, c) < 0
    {
      if a.price == b.price == c.price && a.height == b.height == c.height {
        LessTransitive(hash(a.owner), hash(b.owner), hash(c.owner));
      }
    }
  }

  function States(os: seq<Order>): (r: seq<OrderState>)
    reads os
    ensures |r| == |os| && forall i | 0 <= i < |os| :: r[i] == os[i].State()
  {
    seq(|os|, i requires 0 <= i < |os| reads os => os[i].State())
  }

  lemma StatesConcat(a: seq<Order>, b: seq<Order>)
    ensures States(a + b) == States(a) + States(b)
  {
  }

  lemma {:induction false} StatesOfPermutation(a: seq<Order>, b: seq<Order>)
    requires multiset(a) == multiset(b)
    ensures multiset(States(a)) == multiset(States(b))
  {
    Sorting.PermutationMembers(a, b);
    if a != [] {
      var k := Sorting.RemoveHead(a, b);
      var x, b1, b2 := [a[0]], b[..k], b[k + 1..];
      StatesOfPermutation(a[1..], b1 + b2);
      assert a == x + a[1..] && b == b1 + (x + b2);
      StatesConcat(x, a[1..]);
      StatesConcat(b1, x + b2);
      StatesConcat(x, b2);
      StatesConcat(b1, b2);
    }
  }

  lemma {:induction false} TotalOfPermutation(a: seq<OrderState>, b: seq<OrderState>)
    requires multiset(a) == multiset(b)
    ensures Total(a) == Total(b)
  {
    Sorting.PermutationMembers(a, b);
    if a != [] {
      var k := Sorting.RemoveHead(a, b);
      TotalOfPermutation(a[1..], b[..k] + b[k + 1..]);
      assert b == b[..k] + ([a[0]] + b[k + 1..]);
      TotalConcat(b[..k], b[k + 1..]);
      TotalConcat(b[..k], [a[0]] + b[k + 1..]);
    }
  }

  lemma {:induction false} TotalConcat(a: seq<OrderState>, b: seq<OrderState>)
    ensures Total(a + b) == Total(a) + Total(b)
  {
    if a == [] {
      assert a + b == b;
    } else {
      assert (a + b)[1..] == a[1..] + b;
      TotalConcat(a[1..], b);
    }
  }

  /**
    * Of two orders at one price the lower height comes first;
    * of two at one height as well, the one whose owner's hash is not the greater.
    */
  ghost predicate SeniorFirst(hash: bytes -> bytes, os: seq<Order>) {
    forall i, j | 0 <= i < j < |os| && os[i].price == os[j].price ::
      && os[i].height <= os[j].height
      && (os[i].height == os[j].height ==> !Less(hash(os[j].owner), hash(os[i].owner)))
  }

  lemma SortedIsSeniorFirst(hash: bytes -> bytes, os: seq<Order>, side: Side)
    requires AllOn(os, side) && Sorting.NoInversion(os, Before(hash))
    ensures SeniorFirst(hash, os)
  {
    forall i, j | 0 <= i < j < |os| && os[i].price == os[j].price
      ensures os[i].height <= os[j].height
      ensures os[i].height == os[j].height ==> !Less(hash(os[j].owner), hash(os[i].owner))
    {
      assert !Before(hash)(os[j], os[i]);
    }
  }

  /** `Array.sort` with `orderComparator`: best price first. */
  method SortOrders(hash: bytes -> bytes, list: OrderList, ghost side: Side)
    requires NoDuplicates(list.items) && AllOn(list.items, side)
    modifies list`items
    ensures multiset(list.items) == multiset(old(list.items)) && NoDuplicates(list.items)
    ensures Sorting.NoInversion(list.items, Before(hash)) && SeniorFirst(hash, list.items)
    ensures SortedSide(States(list.items), side)
  {
    ghost var before := list.items;
    ComparatorIsStrictOrder(hash, before, side);
    var sorted := Sorting.Sort(list.items, Before(hash));
    Sorting.PermutationMembers(sorted, before);
    Sorting.PermutationKeepsDistinct(before, sorted, (o: Order) => o);
    list.items := sorted;
    forall i, j | 0 <= i < j < |sorted|
      ensures if sorted[i].side.Buy? then sorted[i].price >= sorted[j].price else sorted[i].price <= sorted[j].price
    {
      assert sorted[i] in before && sorted[j] in before;
      assert !Before(hash)(sorted[j], sorted[i]);
    }
    forall i | 0 <= i < |sorted|
      ensures sorted[i].side == side
    {
      assert sorted[i] in before;
    }
    SortedIsSeniorFirst(hash, sorted, side);
  }

  /** The test of the loop in `Match`. */
  predicate HeadsCross(bids: seq<Order>, asks: seq<Order>) {
    bids != [] && asks != [] && asks[0].price <= bids[0].price
  }

  /** No ask is at or below a bid. */
  predicate Apart(bids: seq<Order>, asks: seq<Order>) {
    forall i, j | 0 <= i < |bids| && 0 <= j < |asks| :: asks[j].price > bids[i].price
  }

  predicate AllOn(os: seq<Order>, side: Side) {
    forall i | 0 <= i < |os| :: os[i].side == side
  }

  /** `left` is `all` without some filled orders at the front. */
  ghost predicate Remains(all: seq<Order>, left: seq<Order>)
    reads all
  {
    && |left| <= |all| && left == all[|all| - |left|..]
    && (forall i | 0 <= i < |all| - |left| :: all[i].remainAmount == 0)
  }

  /** One round of `Match` on the crossing book `b`. */
  method Round(highPrice: word, midPrice: word, lowPrice: word, bidList: OrderList, askList: OrderList,
      log: seq<AuctionBook.Deal>, ghost bids: seq<Order>, ghost asks: seq<Order>,
      ghost sb: seq<OrderState>, ghost sa: seq<OrderState>, ghost b: Book)
    returns (price: Result<word>, log': seq<AuctionBook.Deal>, ghost sb': seq<OrderState>, ghost sa': seq<OrderState>)
    requires bidList != askList && Separate(bids, asks)
    requires View(bidList, bids, sb) && View(askList, asks, sa)
    requires b == BookOf(bidList, askList, sb, sa, log) && Ordered(b) && Crosses(b)
    modifies bidList`items, askList`items, bids`remainAmount, asks`remainAmount
    ensures View(bidList, bids, sb') && View(askList, asks, sa')
    ensures price.Ok? <==> Priceable(midPrice, b)
    ensures price.Ok? ==> ExecutionPrice(highPrice, midPrice, lowPrice, b.(deals := []), price.value)
    ensures BookOf(bidList, askList, sb', sa', log') == if price.Ok? then ExecuteAt(price.value, b) else b
  {
    log', sb', sa' := log, sb, sa;
    ViewStates(bidList, bids, sb);
    ViewStates(askList, asks, sa);
    assert PointsOf(b) == PointsOf(b.(deals := []));
    price := GetExecutionPrice(highPrice, midPrice, lowPrice, States(bidList.items), States(askList.items));
    if price.Ok? {
      log', sb', sa' := ExecuteOrderList(price.value, bidList, askList, log, bids, asks, sb, sa);
    }
  }

  /** One turn of the loop in `Match`; `ok` is false if choosing the price threw. */
  method NextPrice(highPrice: word, midPrice: word, lowPrice: word, bidList: OrderList, askList: OrderList,
      log: seq<AuctionBook.Deal>, ghost bids: seq<Order>, ghost asks: seq<Order>,
      ghost sb: seq<OrderState>, ghost sa: seq<OrderState>, ghost start: Book, ghost prices: seq<word>)
    returns (ok: bool, log': seq<AuctionBook.Deal>,
      ghost sb': seq<OrderState>, ghost sa': seq<OrderState>, ghost prices': seq<word>)
    requires bidList != askList && Separate(bids, asks) && HeadsCross(bidList.items, askList.items)
    requires View(bidList, bids, sb) && View(askList, asks, sa)
    requires IsRunTo(highPrice, midPrice, lowPrice, start, prices, BookOf(bidList, askList, sb, sa, log))
    requires Settles(highPrice, midPrice, lowPrice, start)
    modifies bidList`items, askList`items, bids`remainAmount, asks`remainAmount
    ensures View(bidList, bids, sb') && View(askList, asks, sa')
    ensures IsRunTo(highPrice, midPrice, lowPrice, start, prices', BookOf(bidList, askList, sb', sa', log'))
    ensures ok ==> |bidList.items| + |askList.items| < old(|bidList.items| + |askList.items|)
    ensures !ok ==> Halted(midPrice, BookOf(bidList, askList, sb', sa', log'))
  {
    ghost var b := BookOf(bidList, askList, sb, sa, log);
    BookCrosses(bidList, askList, bids, asks, sb, sa, log);
    assert Ordered(b);
    var price;
    price, log', sb', sa' := Round(highPrice, midPrice, lowPrice, bidList, askList, log, bids, asks, sb, sa, b);
    ok, prices' := price.Ok?, prices;
    if ok {
      NextRound(highPrice, midPrice, lowPrice, start, prices, price.value, b);
      prices' := prices + [price.value];
    }
  }

  /** The book crosses, but no price can be chosen for it. */
  predicate Halted(midPrice: word, b: Book) {
    Crosses(b) && !Priceable(midPrice, b)
  }

  /** The loop of `Match`, on sorted lists. */
  method MatchSorted(highPrice: word, midPrice: word, lowPrice: word, bidList: OrderList, askList: OrderList,
      ghost bids: seq<Order>, ghost asks: seq<Order>, ghost start: Book)
    returns (ok: bool, log: seq<AuctionBook.Deal>, ghost prices: seq<word>)
    requires bidList != askList && Separate(bids, asks)
    requires View(bidList, bids, start.bids) && View(askList, asks, start.asks)
    requires start == BookOf(bidList, askList, start.bids, start.asks, []) && Ordered(start)
    requires Settles(highPrice, midPrice, lowPrice, start)
    modifies bidList`items, askList`items, bids`remainAmount, asks`remainAmount
    ensures IsRun(highPrice, midPrice, lowPrice, start, prices) && StartsInside(start, prices)
    ensures Book(States(bidList.items), States(askList.items), log) == RunBook(start, prices)
    ensures Remains(bids, bidList.items) && Remains(asks, askList.items)
    ensures Total(start.bids) == Total(States(bidList.items)) + Dealt(log)
    ensures Total(start.asks) == Total(States(askList.items)) + Dealt(log)
    ensures forall i | 0 <= i < |log| :: Fair(log[i])
    ensures ok ==> Apart(bidList.items, askList.items)
    ensures !ok ==> Halted(midPrice, RunBook(start, prices))
    ensures midPrice != 0 && Total(start.bids) < TWO_255 && Total(start.asks) < TWO_255 ==> ok
  {
    ghost var sb, sa := start.bids, start.asks;
    prices, log, ok := [], [], true;
    assert IsRunTo(highPrice, midPrice, lowPrice, start, prices, start);
    hide View, IsRunTo, Settles, Halted;
    while ok && HeadsCross(bidList.items, askList.items)
      invariant View(bidList, bids, sb) && View(askList, asks, sa)
      invariant IsRunTo(highPrice, midPrice, lowPrice, start, prices, BookOf(bidList, askList, sb, sa, log))
      invariant !ok ==> Halted(midPrice, BookOf(bidList, askList, sb, sa, log))
      decreases ok, |bidList.items| + |askList.items|
    {
      ok, log, sb, sa, prices :=
        NextPrice(highPrice, midPrice, lowPrice, bidList, askList, log, bids, asks, sb, sa, start, prices);
    }
    ViewStates(bidList, bids, sb);
    ViewStates(askList, asks, sa);
    Remaining(bidList, bids, sb);
    Remaining(askList, asks, sa);
    ghost var end := Book(States(bidList.items), States(askList.items), log);
    RunResults(highPrice, midPrice, lowPrice, start, prices, end);
    hide *;
    if ok {
      Uncrossed(bidList.items, askList.items, end);
    } else {
      HaltsForAReason(midPrice, start, prices);
    }
  }

  lemma RunResults(highPrice: word, midPrice: word, lowPrice: word, start: Book, prices: seq<word>, end: Book)
    requires IsRunTo(highPrice, midPrice, lowPrice, start, prices, end) && start.deals == []
    requires Settles(highPrice, midPrice, lowPrice, start)
    ensures Ordered(start) && Ordered(end) && end == RunBook(start, prices)
    ensures IsRun(highPrice, midPrice, lowPrice, start, prices) && StartsInside(start, prices)
    ensures Total(start.bids) == Total(end.bids) + Dealt(end.deals)
    ensures Total(start.asks) == Total(end.asks) + Dealt(end.deals)
    ensures forall i | 0 <= i < |end.deals| :: Fair(end.deals[i])
  {
    RunConserves(start, prices);
    SettledRunStartsInside(highPrice, midPrice, lowPrice, start, prices);
    assert end.deals[0..] == end.deals;
  }

  lemma BookCrosses(bidList: OrderList, askList: OrderList, bids: seq<Order>, asks: seq<Order>,
      sb: seq<OrderState>, sa: seq<OrderState>, log: seq<AuctionBook.Deal>)
    requires View(bidList, bids, sb) && View(askList, asks, sa)
    ensures HeadsCross(bidList.items, askList.items) <==> Crosses(BookOf(bidList, askList, sb, sa, log))
  {
  }

  /** The rounds at `prices` lead from `start` to `b`. */
  ghost predicate IsRunTo(highPrice: word, midPrice: word, lowPrice: word, start: Book, prices: seq<word>, b: Book) {
    Ordered(start) && IsRun(highPrice, midPrice, lowPrice, start, prices) && b == RunBook(start, prices)
  }

  lemma NextRound(highPrice: word, midPrice: word, lowPrice: word, start: Book, prices: seq<word>, p: word, b: Book)
    requires IsRunTo(highPrice, midPrice, lowPrice, start, prices, b) && Crosses(b)
    requires Settles(highPrice, midPrice, lowPrice, start)
    requires ExecutionPrice(highPrice, midPrice, lowPrice, b.(deals := []), p)
    ensures Ordered(b)
    ensures var r := ExecuteAt(p, b);
            && IsRunTo(highPrice, midPrice, lowPrice, start, prices + [p], r)
            && |r.bids| + |r.asks| < |b.bids| + |b.asks|
  {
    assert PointsOf(b) == PointsOf(b.(deals := []));
    assert ExecutionPrice(highPrice, midPrice, lowPrice, b, p);
    ExtendRun(highPrice, midPrice, lowPrice, start, prices, p);
    hide ExecutionPrice, Exhausted, RunBook, Crosses, Settles, LiveHeads;
    var ps := prices + [p];
    assert ps[..|prices|] == prices;
    SettledRunStartsInside(highPrice, midPrice, lowPrice, start, prices);
    SettledRunStartsInside(highPrice, midPrice, lowPrice, start, ps);
    LiveAfterFirst(highPrice, midPrice, lowPrice, start, prices);
    RoundIsInside(highPrice, midPrice, lowPrice, start, ps, |prices|);
    ExecuteSteps(p, b);
  }

  /** The two calls of `sort` at the start of `Match`. */
  method SortLists(highPrice: word, midPrice: word, lowPrice: word, bidList: OrderList, askList: OrderList,
      hash: bytes -> bytes)
    returns (ghost bids: seq<Order>, ghost asks: seq<Order>, ghost start: Book)
    requires bidList != askList && Separate(bidList.items, askList.items)
    requires AllOn(bidList.items, Buy) && AllOn(askList.items, Sell)
    requires Settles(highPrice, midPrice, lowPrice, Book(States(bidList.items), States(askList.items), []))
    modifies bidList`items, askList`items
    ensures bids == bidList.items && asks == askList.items && Separate(bids, asks)
    ensures multiset(bids) == multiset(old(bidList.items)) && Sorting.NoInversion(bids, Before(hash))
    ensures SeniorFirst(hash, bids)
    ensures multiset(asks) == multiset(old(askList.items)) && Sorting.NoInversion(asks, Before(hash))
    ensures SeniorFirst(hash, asks)
    ensures forall i | 0 <= i < |bids| :: bids[i] in old(bidList.items)
    ensures forall i | 0 <= i < |asks| :: asks[i] in old(askList.items)
    ensures start == Book(States(bids), States(asks), []) && Ordered(start)
    ensures View(bidList, bids, start.bids) && View(askList, asks, start.asks)
    ensures start == BookOf(bidList, askList, start.bids, start.asks, [])
    ensures Total(start.bids) == old(Total(States(bidList.items)))
    ensures Total(start.asks) == old(Total(States(askList.items)))
    ensures Settles(highPrice, midPrice, lowPrice, start)
  {
    hide Settles, SortedSide, Before, Total, Separate, SeniorFirst, AllOn, View, BookOf, Last;
    ghost var bids0, asks0 := bidList.items, askList.items;
    EachApart(bids0, asks0);
    SortOrders(hash, bidList, Buy);
    SortOrders(hash, askList, Sell);
    bids, asks := bidList.items, askList.items;
    start := Book(States(bids), States(asks), []);
    assert States(bids0) == old(States(bidList.items)) && States(asks0) == old(States(askList.items));
    StartingBook(highPrice, midPrice, lowPrice, bids0, asks0, bids, asks);
    FreshView(bidList, askList);
  }

  lemma FreshView(bidList: OrderList, askList: OrderList)
    ensures var sb, sa := States(bidList.items), States(askList.items);
            && View(bidList, bidList.items, sb) && View(askList, askList.items, sa)
            && BookOf(bidList, askList, sb, sa, []) == Book(sb, sa, [])
  {
  }

  /**
    * The whole auction. `bids` and `asks` are the lists as sorted, `start` what is in them then
    * and `prices` the price of every round. `ok` is false if a call threw; the orders keep what was traded until then.
    * On a book that does not settle the loop of the code need not end.
    */
  method Match(highPrice: word, midPrice: word, lowPrice: word, bidList: OrderList, askList: OrderList,
      hash: bytes -> bytes)
    returns (ok: bool, log: seq<AuctionBook.Deal>,
      ghost bids: seq<Order>, ghost asks: seq<Order>, ghost start: Book, ghost prices: seq<word>)
    requires bidList != askList && Separate(bidList.items, askList.items)
    requires AllOn(bidList.items, Buy) && AllOn(askList.items, Sell)
    requires Settles(highPrice, midPrice, lowPrice, Book(States(bidList.items), States(askList.items), []))
    modifies bidList`items, askList`items, bidList.items`remainAmount, askList.items`remainAmount
    // the start: the given orders, sorted
    ensures multiset(bids) == multiset(old(bidList.items)) && Sorting.NoInversion(bids, Before(hash))
    ensures SeniorFirst(hash, bids)
    ensures multiset(asks) == multiset(old(askList.items)) && Sorting.NoInversion(asks, Before(hash))
    ensures SeniorFirst(hash, asks)
    ensures Ordered(start) && start.deals == [] && |start.bids| == |bids| && |start.asks| == |asks|
    ensures forall i | 0 <= i < |bids| :: bids[i] in old(bidList.items) && old(bids[i].State()) == start.bids[i]
    ensures forall i | 0 <= i < |asks| :: asks[i] in old(askList.items) && old(asks[i].State()) == start.asks[i]
    // the rounds, and what they make of every order
    ensures IsRun(highPrice, midPrice, lowPrice, start, prices) && StartsInside(start, prices)
    ensures Book(States(bidList.items), States(askList.items), log) == RunBook(start, prices)
    ensures Remains(bids, bidList.items) && Remains(asks, askList.items)
    // conservation and fairness
    ensures old(Total(States(bidList.items))) == Total(States(bidList.items)) + Dealt(log)
    ensures old(Total(States(askList.items))) == Total(States(askList.items)) + Dealt(log)
    ensures forall i | 0 <= i < |log| :: Fair(log[i])
    // the end
    ensures ok ==> Apart(bidList.items, askList.items)
    ensures !ok ==> Halted(midPrice, RunBook(start, prices))
    ensures midPrice != 0 && Total(start.bids) < TWO_255 && Total(start.asks) < TWO_255 ==> ok
  {
    hide *;
    bids, asks, start := SortLists(highPrice, midPrice, lowPrice, bidList, askList, hash);
    ok, log, prices := MatchSorted(highPrice, midPrice, lowPrice, bidList, askList, bids, asks, start);
  }

  lemma Remaining(list: OrderList, all: seq<Order>, st: seq<OrderState>)
    requires View(list, all, st)
    ensures Remains(all, list.items)
  {
    assert forall i | 0 <= i < |all| - |list.items| :: all[i].State() == st[i];
  }

  lemma EachApart(a: seq<Order>, b: seq<Order>)
    requires Separate(a, b)
    ensures NoDuplicates(a) && NoDuplicates(b)
  {
  }

  lemma StartingBook(highPrice: word, midPrice: word, lowPrice: word,
      bids0: seq<Order>, asks0: seq<Order>, bids: seq<Order>, asks: seq<Order>)
    requires Separate(bids0, asks0) && AllOn(bids0, Buy) && AllOn(asks0, Sell)
    requires Settles(highPrice, midPrice, lowPrice, Book(States(bids0), States(asks0), []))
    requires multiset(bids) == multiset(bids0) && NoDuplicates(bids)
    requires multiset(asks) == multiset(asks0) && NoDuplicates(asks)
    requires SortedSide(States(bids), Buy) && SortedSide(States(asks), Sell)
    ensures Separate(bids, asks)
    ensures Settles(highPrice, midPrice, lowPrice, Book(States(bids), States(asks), []))
    ensures Total(States(bids)) == Total(States(bids0)) && Total(States(asks)) == Total(States(asks0))
    ensures forall i | 0 <= i < |bids| :: bids[i] in bids0
    ensures forall i | 0 <= i < |asks| :: asks[i] in asks0
  {
    StatesOfPermutation(bids, bids0);
    StatesOfPermutation(asks, asks0);
    TotalOfPermutation(States(bids), States(bids0));
    TotalOfPermutation(States(asks), States(asks0));
    SettlesOfPermutation(highPrice, midPrice, lowPrice,
      Book(States(bids0), States(asks0), []), Book(States(bids), States(asks), []));
    hide Settles;
    Sorting.PermutationMembers(bids, bids0);
    Sorting.PermutationMembers(asks, asks0);
    assert forall i | 0 <= i < |bids| :: bids[i] in bids0;
    assert forall i | 0 <= i < |asks| :: asks[i] in asks0;
  }

  lemma ViewStates(list: OrderList, all: seq<Order>, st: seq<OrderState>)
    requires View(list, all, st)
    ensures States(list.items) == Last(st, |list.items|)
  {
  }

  /** Choosing a price only throws for a zero middle price or a total of 2^255 to begin with. */
  lemma HaltsForAReason(midPrice: word, start: Book, prices: seq<word>)
    requires Ordered(start) && Halted(midPrice, RunBook(start, prices))
    ensures midPrice == 0 || Total(start.bids) >= TWO_255 || Total(start.asks) >= TWO_255
  {
    RunConserves(start, prices);
    var b := RunBook(start, prices);
    SmallTotalsOfBook(b);
    if Total(start.bids) < TWO_255 && Total(start.asks) < TWO_255 {
      AuctionChoice.SmallIsMeasurable(PointsOf(b));
    }
  }

  lemma Uncrossed(bids: seq<Order>, asks: seq<Order>, b: Book)
    requires States(bids) == b.bids && States(asks) == b.asks && Ordered(b) && !HeadsCross(bids, asks)
    ensures Apart(bids, asks)
  {
  }
}
