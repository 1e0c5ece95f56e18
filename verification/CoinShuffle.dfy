/** The coin shuffle: the payout the lambda computes and the escrow contract that honours it. */
module CoinShuffle {
  import opened Prelude
  import opened Bytes
  import opened U256
  import Sorting

  type Address = nat
  type Coin = nat

  const MAX_WAITING_TIME := 2 * 24 * 3600
  const MAX_REWARD_RATIO := 12
  const MAX_INPUTS := 32

  /** What one `joinTask` call puts into the hash chain. */
  datatype Record = Record(sender: Address, amount: word, encryptedReceiver: bytes)

  /** Keccak-256 of a chain value and a record, cut to 248 bits. Left abstract. */
  type keccak = (nat, Record) -> nat

  // ---- Task identifiers ----

  function CoinOf(id: nat): Coin {
    id / 0x100_0000_0000_0000_0000_0000
  }

  function DueTime(id: nat): nat {
    (id / 0x1_0000_0000_0000) % 0x100_0000_0000
  }

  function AmountByte(id: nat): byte {
    (id / 0x100_0000_0000) % 0x100
  }

  /** The fields of an identifier are read back: 160 bits of coin, 40 of due time, 8 of amount, 40 of nonce. */
  lemma FieldsAreReadBack(coin: nat, due: nat, amount: byte, nonce: nat)
    requires due < 0x100_0000_0000 && nonce < 0x100_0000_0000
    ensures var low := due * 0x1_0000_0000_0000 + amount * 0x100_0000_0000 + nonce;
            var id := coin * 0x100_0000_0000_0000_0000_0000 + low;
            CoinOf(id) == coin && DueTime(id) == due && AmountByte(id) == amount
  {
    var low := amount * 0x100_0000_0000 + nonce;
    var id := coin * 0x100_0000_0000_0000_0000_0000 + due * 0x1_0000_0000_0000 + low;
    assert id / 0x1_0000_0000_0000 == coin * 0x100_0000_0000 + due;
    assert id / 0x100_0000_0000 == (coin * 0x100_0000_0000 + due) * 0x100 + amount;
  }

  function Pow10(n: nat): nat {
    if n == 0 then 1 else 10 * Pow10(n - 1)
  }

  /** Three bits count from 1 to 8, five bits are a decimal exponent. */
  function ExpandAmount(amount: byte): nat {
    (1 + amount / 32) * Pow10(amount % 32)
  }

  /** The byte 32 * c + d stands for c + 1 times ten to the power of d. */
  lemma BaseOfByte(c: nat, d: nat)
    requires c < 8 && d < 32
    ensures ExpandAmount(32 * c + d) == (c + 1) * Pow10(d)
  {
    hide Pow10;
    assert (32 * c + d) / 32 == c && (32 * c + d) % 32 == d;
  }

  function Base(id: nat): nat {
    ExpandAmount(AmountByte(id))
  }

  lemma {:induction false} Pow10Grows(m: nat, n: nat)
    requires m <= n
    ensures 1 <= Pow10(m) <= Pow10(n)
    decreases n
  {
    if m < n {
      Pow10Grows(m, n - 1);
    } else if n > 0 {
      Pow10Grows(n - 1, n - 1);
    }
  }

  lemma ExpandedIsSmall(a: byte)
    ensures 1 <= ExpandAmount(a) <= 8 * Pow10(31)
  {
    Pow10Grows(a % 32, 31);
    Pow10Grows(0, a % 32);
    SmallFactor(1 + a / 32, Pow10(a % 32));
  }

  lemma SmallFactor(c: nat, p: nat)
    requires 1 <= c <= 8
    ensures p <= c * p <= 8 * p
  {
    ProductNotNegative(c - 1, p);
    ProductNotNegative(8 - c, p);
  }

  lemma Pow10Of31()
    ensures Pow10(31) == 10_000_000_000_000_000_000_000_000_000_000
  {
    assert Pow10(5) == 100_000;
    assert Pow10(10) == 10_000_000_000;
    assert Pow10(15) == 1_000_000_000_000_000;
    assert Pow10(20) == 100_000_000_000_000_000_000;
    assert Pow10(25) == 10_000_000_000_000_000_000_000_000;
    assert Pow10(30) == 1_000_000_000_000_000_000_000_000_000_000;
  }

  // ---- The lambda ----

  datatype Payout = Payout(amount: word, fee: word, receivers: seq<Address>)

  function Receivers(result: Option<Address>): seq<Address> {
    match result
    case None => []
    case Some(a) => [a]
  }

  /** The receivers whose ciphertext could be decrypted. */
  function Decrypted(results: seq<Option<Address>>): seq<Address> {
    if results == [] then [] else Decrypted(results[..|results| - 1]) + Receivers(results[|results| - 1])
  }

  function Collected(records: seq<Record>): nat {
    if records == [] then 0 else Collected(records[..|records| - 1]) + records[|records| - 1].amount
  }

  /** The loop of the lambda; `results` tells for each record what its decryption gave. */
  method SumUp(records: seq<Record>, results: seq<Option<Address>>) returns (r: Result<(word, seq<Address>)>)
    requires |results| == |records|
    ensures r.Ok? ==> r.value == (Collected(records), Decrypted(results))
    ensures r.Throw? ==> Collected(records) >= TWO_256
  {
    var receiverList := [];
    var totalAmount: word := 0;
    for i := 0 to |records|
      invariant receiverList == Decrypted(results[..i])
      invariant totalAmount == Collected(records[..i])
    {
      assert results[..i + 1][..i] == results[..i] && records[..i + 1][..i] == records[..i];
      CollectedPrefix(records, i + 1);
      receiverList := receiverList + Receivers(results[i]);
      totalAmount :- Add(totalAmount, records[i].amount);
    }
    assert results[..|results|] == results && records[..|records|] == records;
    return Ok((totalAmount, receiverList));
  }

  lemma {:induction false} CollectedPrefix(records: seq<Record>, n: nat)
    requires n <= |records|
    ensures Collected(records[..n]) <= Collected(records)
    decreases |records|
  {
    if n < |records| {
      CollectedPrefix(records[..|records| - 1], n);
      assert records[..|records| - 1][..n] == records[..n];
    } else {
      assert records[..n] == records;
    }
  }

  /** Fee and share. Throws if the amounts do not cover the base amounts, or for want of a receiver. */
  method Divide(totalAmount: word, amountBase: nat, n: nat) returns (r: Result<(word, word)>)
    ensures r.Throw? <==> n == 0 || amountBase * n > totalAmount
    ensures r.Ok? ==> var (amount, fee) := r.value;
      && fee == (totalAmount - amountBase * n) / 100
      && fee + amount * n <= totalAmount < fee + amount * n + n
      && amount >= amountBase
  {
    ProductNotNegative(amountBase, n);
    var totalBase := Multiply(amountBase, n);
    if totalBase.Throw? {
      return Throw;
    }
    var reward := Sub(totalAmount, totalBase.value);
    if reward.Throw? {
      return Throw;
    }
    var fee: word := reward.value / 100;
    var rest := Sub(totalAmount, fee);
    if rest.Throw? || n == 0 {
      return Throw;
    }
    DivideNat(rest.value, n);
    var amount: word := rest.value / n;
    Shares(totalAmount, amountBase, n, fee, amount);
    return Ok((amount, fee));
  }

  lemma Shares(total: nat, base: nat, n: nat, fee: nat, amount: nat)
    requires n > 0 && base * n <= total && fee == (total - base * n) / 100
    requires 0 <= (total - fee) - amount * n < n
    ensures amount >= base
  {
    assert base * n - amount * n == (base - amount) * n;
    ProductDominates(base - amount, n);
  }

  /** The checked multiplication of the word type. */
  function Multiply(u: nat, v: nat): Result<word> {
    ProductNotNegative(u, v);
    if u * v >= TWO_256 then Throw else Ok(u * v)
  }

  /** Amounts and receivers out of the records. */
  method ComputePayout(id: nat, records: seq<Record>, results: seq<Option<Address>>) returns (r: Result<Payout>)
    requires |results| == |records|
    ensures r.Ok? ==> Pays(id, records, results, r.value)
    ensures WithinLimits(id, records) ==> (r.Throw? <==> Decrypted(results) == [])
  {
    var sums := SumUp(records, results);
    if WithinLimits(id, records) {
      LimitsBoundTheSum(id, records, results);
    }
    if sums.Throw? {
      return Throw;
    }
    var (totalAmount, receiverList) := sums.value;
    var shares := Divide(totalAmount, ExpandAmount(AmountByte(id)), |receiverList|);
    if shares.Throw? {
      return Throw;
    }
    var (amount, fee) := shares.value;
    var sorted := Sorting.Sort(receiverList, Before);
    Sorting.PermutationMembers(sorted, receiverList);
    SortedAddresses(sorted);
    return Ok(Payout(amount, fee, sorted));
  }

  lemma SortedAddresses(to: seq<Address>)
    requires Sorting.NoInversion(to, Before)
    ensures Ascending(to)
  {
    forall i, j | 0 <= i < j < |to|
      ensures to[i] <= to[j]
    {
      assert !Before(to[j], to[i]);
    }
  }

  /** Every record is at least the base amount and less than 12% above it, and there are at most 32. */
  predicate WithinLimits(id: nat, records: seq<Record>) {
    |records| <= MAX_INPUTS && forall i | 0 <= i < |records| ::
      Base(id) <= records[i].amount < Base(id) * (100 + MAX_REWARD_RATIO) / 100
  }

  lemma {:induction false} CollectedBetween(records: seq<Record>, lo: nat, hi: nat)
    requires forall i | 0 <= i < |records| :: lo <= records[i].amount <= hi
    ensures lo * |records| <= Collected(records) <= hi * |records|
  {
    if records != [] {
      CollectedBetween(records[..|records| - 1], lo, hi);
      assert lo * |records| == lo * (|records| - 1) + lo && hi * |records| == hi * (|records| - 1) + hi;
    }
  }

  lemma {:induction false} NoMoreReceiversThanRecords(results: seq<Option<Address>>)
    ensures |Decrypted(results)| <= |results|
  {
    if results != [] {
      NoMoreReceiversThanRecords(results[..|results| - 1]);
    }
  }

  lemma LimitsBoundTheSum(id: nat, records: seq<Record>, results: seq<Option<Address>>)
    requires WithinLimits(id, records) && |results| == |records|
    ensures Collected(records) < TWO_256
    ensures Base(id) * |Decrypted(results)| <= Collected(records)
  {
    var base := Base(id);
    ExpandedIsSmall(AmountByte(id));
    Pow10Of31();
    assert 64 * base < TWO_256;
    LimitsAreNarrow(id, records);
    CollectedBetween(records, base, 2 * base);
    NoMoreReceiversThanRecords(results);
    var n, m := |records|, |Decrypted(results)|;
    hide *;
    Products(base, n, m);
  }

  lemma LimitsAreNarrow(id: nat, records: seq<Record>)
    requires WithinLimits(id, records)
    ensures |records| <= 32
    ensures forall i | 0 <= i < |records| :: Base(id) <= records[i].amount <= 2 * Base(id)
  {
    var base := Base(id);
    hide Base;
    assert base * (100 + MAX_REWARD_RATIO) / 100 <= 2 * base;
  }

  lemma Products(base: nat, n: nat, m: nat)
    requires m <= n <= 32
    ensures base * m <= base * n && 2 * base * n <= 64 * base
  {
    ProductNotNegative(n - m, base);
    ProductNotNegative(32 - n, base);
  }

  predicate Ascending(to: seq<Address>) {
    forall i, j | 0 <= i < j < |to| :: to[i] <= to[j]
  }

  predicate Before(a: Address, b: Address) {
    a < b
  }

  /** What a payout owes to the records it is computed from. */
  predicate Pays(id: nat, records: seq<Record>, results: seq<Option<Address>>, p: Payout) {
    var n := |p.receivers|;
    && n > 0 && |results| == |records|
    // the decrypted receivers, in an order that does not tell who joined when
    && multiset(p.receivers) == multiset(Decrypted(results))
    && Ascending(p.receivers)
    // all is shared out but less than one unit per receiver
    && p.fee + p.amount * n <= Collected(records) < p.fee + p.amount * n + n
    // nobody gets less than the base amount
    && p.amount >= Base(id)
    // the fee is 1% of what exceeds the base amounts
    && p.fee == (Collected(records) - Base(id) * n) / 100
  }

  // ---- The contract ----

  datatype TaskStatus = TaskStatus(count: nat, hash: nat)

  /** Token balances by coin and holder; missing entries are zero. */
  type Balances = map<(Coin, Address), nat>

  function BalanceOf(b: Balances, coin: Coin, holder: Address): nat {
    if (coin, holder) in b then b[(coin, holder)] else 0
  }

  /** A standard token: fails on insufficient funds, else moves exactly the amount. */
  function Transfer(b: Balances, coin: Coin, from: Address, to: Address, amount: nat): Option<Balances> {
    if BalanceOf(b, coin, from) < amount then None
    else
      var debited := b[(coin, from) := BalanceOf(b, coin, from) - amount];
      Some(debited[(coin, to) := BalanceOf(debited, coin, to) + amount])
  }

  function TransferAll(b: Balances, coin: Coin, from: Address, to: seq<Address>, amount: nat): Option<Balances> {
    if to == [] then Some(b)
    else match TransferAll(b, coin, from, to[..|to| - 1], amount)
      case None => None
      case Some(c) => Transfer(c, coin, from, to[|to| - 1], amount)
  }

  /** `records` is the history the contract does not store: what joined each task since it was created. */
  datatype State = State(taskMap: map<nat, TaskStatus>, balances: Balances, records: map<nat, seq<Record>>)

  function StatusOf(m: map<nat, TaskStatus>, id: nat): TaskStatus {
    if id in m then m[id] else TaskStatus(0, 0)
  }

  function RecordsOf(m: map<nat, seq<Record>>, id: nat): seq<Record> {
    if id in m then m[id] else []
  }

  /** None stands for a revert. */
  function CreateTask(st: State, id: nat, now: nat): Option<State> {
    if DueTime(id) >= now + MAX_WAITING_TIME then None
    else if StatusOf(st.taskMap, id).hash != 0 then None
    else if id % 256 != 0 then None
    else Some(st.(taskMap := st.taskMap[id := TaskStatus(0, id)], records := st.records[id := []]))
  }

  function JoinTask(k: keccak, self: Address, st: State, id: nat, r: Record, now: nat): Option<State> {
    var created := if StatusOf(st.taskMap, id).hash == 0 then CreateTask(st, id, now) else Some(st);
    if created.None? then None
    else
      var st1 := created.value;
      var status := StatusOf(st1.taskMap, id);
      if now >= DueTime(id) then None
      else if r.amount < Base(id) then None
      else if r.amount >= Base(id) * (100 + MAX_REWARD_RATIO) / 100 then None
      else
        var moved := Transfer(st1.balances, CoinOf(id), r.sender, self, r.amount);
        if moved.None? || status.count >= MAX_INPUTS then None
        else Some(State(
          st1.taskMap[id := TaskStatus(status.count + 1, k(status.hash, r))],
          moved.value,
          st1.records[id := RecordsOf(st1.records, id) + [r]]))
  }

  // ---- When the calls are accepted, and what they change ----

  /** Two days are 172800 seconds. */
  predicate CanBeCreated(st: State, id: nat, now: nat) {
    StatusOf(st.taskMap, id).hash == 0 && id % 256 == 0 && DueTime(id) < now + 172800
  }

  lemma CreateIsAcceptedExactly(st: State, id: nat, now: nat)
    ensures CreateTask(st, id, now).Some? <==> CanBeCreated(st, id, now)
    ensures CanBeCreated(st, id, now) ==>
      CreateTask(st, id, now) == Some(State(st.taskMap[id := TaskStatus(0, id)], st.balances, st.records[id := []]))
  {
  }

  /**
    * A join is accepted exactly before the due time, with an amount from the base to less than 12% above it
    * that the sender has, for a task that is open to fewer than 32 records or can be created now.
    */
  predicate CanBeJoined(st: State, id: nat, r: Record, now: nat) {
    && now < DueTime(id)
    && Base(id) <= r.amount < Base(id) * 112 / 100
    && BalanceOf(st.balances, CoinOf(id), r.sender) >= r.amount
    && if StatusOf(st.taskMap, id).hash == 0 then CanBeCreated(st, id, now) else StatusOf(st.taskMap, id).count < 32
  }

  /** The task as a join finds it, if need be just created. */
  function Found(st: State, id: nat): TaskStatus {
    if StatusOf(st.taskMap, id).hash == 0 then TaskStatus(0, id) else StatusOf(st.taskMap, id)
  }

  function FoundRecords(st: State, id: nat): seq<Record> {
    if StatusOf(st.taskMap, id).hash == 0 then [] else RecordsOf(st.records, id)
  }

  /** Nothing but the task, its records and the two balances changes. */
  lemma JoinIsAcceptedExactly(k: keccak, self: Address, st: State, id: nat, r: Record, now: nat)
    ensures JoinTask(k, self, st, id, r, now).Some? <==> CanBeJoined(st, id, r, now)
    ensures CanBeJoined(st, id, r, now) ==>
      var st', before := JoinTask(k, self, st, id, r, now).value, Found(st, id);
      && st'.taskMap == st.taskMap[id := TaskStatus(before.count + 1, k(before.hash, r))]
      && st'.records == st.records[id := FoundRecords(st, id) + [r]]
      && Transfer(st.balances, CoinOf(id), r.sender, self, r.amount) == Some(st'.balances)
  {
    hide Base, DueTime, CoinOf;
    CreateIsAcceptedExactly(st, id, now);
  }

  /** The fee to the caller, then the amount to every receiver. */
  function PayOut(b: Balances, coin: Coin, self: Address, p: Payout, caller: Address): Option<Balances> {
    match Transfer(b, coin, self, caller, p.fee)
    case None => None
    case Some(afterFee) => TransferAll(afterFee, coin, self, p.receivers, p.amount)
  }

  function FinishTask(self: Address, st: State, id: nat, p: Payout, caller: Address): Option<State> {
    match PayOut(st.balances, CoinOf(id), self, p, caller)
    case None => None
    case Some(b) => Some(State(st.taskMap - {id}, b, st.records - {id}))
  }

  /** The chain value after joining `records` to a new task. */
  function Chain(k: keccak, id: nat, records: seq<Record>): nat {
    if records == [] then id else k(Chain(k, id, records[..|records| - 1]), records[|records| - 1])
  }

  /** One execution of the lambda: the records it is given and what decrypting each of them gives. */
  datatype LambdaRun = LambdaRun(records: seq<Record>, results: seq<Option<Address>>)

  /**
    * The check of `finishTask`: the signature is the one the lambda gave, on some records,
    * for this task, chain value and payout. `None` stands for any other signature.
    */
  predicate Accepted(k: keccak, id: nat, hash: nat, signature: Option<LambdaRun>, p: Payout) {
    && signature.Some?
    && Pays(id, signature.value.records, signature.value.results, p)
    && Chain(k, id, signature.value.records) == hash
  }

  // ---- The hash chain ----

  /** What would have to be found in the hash to cheat the chain. */
  datatype Clash =
    | Collision(h1: nat, r1: Record, h2: nat, r2: Record)
    | HitsTask(id: nat, h: nat, r: Record)
    | HitsZero(h: nat, r: Record)

  predicate IsClash(k: keccak, c: Clash) {
    match c
    case Collision(h1, r1, h2, r2) => (h1, r1) != (h2, r2) && k(h1, r1) == k(h2, r2)
    case HitsTask(id, h, r) => k(h, r) == id
    case HitsZero(h, r) => k(h, r) == 0
  }

  /** Computed from two different lists of records for a task. */
  function ChainClash(k: keccak, id: nat, a: seq<Record>, b: seq<Record>): Clash
    requires a != b
    decreases |a|
  {
    if a == [] then
      HitsTask(id, Chain(k, id, b[..|b| - 1]), b[|b| - 1])
    else if b == [] then
      HitsTask(id, Chain(k, id, a[..|a| - 1]), a[|a| - 1])
    else
      var ha, hb := Chain(k, id, a[..|a| - 1]), Chain(k, id, b[..|b| - 1]);
      if (ha, a[|a| - 1]) != (hb, b[|b| - 1]) then
        Collision(ha, a[|a| - 1], hb, b[|b| - 1])
      else
        assert a == a[..|a| - 1] + [a[|a| - 1]] && b == b[..|b| - 1] + [b[|b| - 1]];
        ChainClash(k, id, a[..|a| - 1], b[..|b| - 1])
  }

  /** If their chain values are equal, that is two colliding hash inputs, or one that hashes to the task. */
  lemma {:induction false} EqualChainsClash(k: keccak, id: nat, a: seq<Record>, b: seq<Record>)
    requires a != b && Chain(k, id, a) == Chain(k, id, b)
    ensures IsClash(k, ChainClash(k, id, a, b)) && !ChainClash(k, id, a, b).HitsZero?
    decreases |a|
  {
    if a != [] && b != [] {
      var ha, hb := Chain(k, id, a[..|a| - 1]), Chain(k, id, b[..|b| - 1]);
      if (ha, a[|a| - 1]) == (hb, b[|b| - 1]) {
        assert a == a[..|a| - 1] + [a[|a| - 1]] && b == b[..|b| - 1] + [b[|b| - 1]];
        EqualChainsClash(k, id, a[..|a| - 1], b[..|b| - 1]);
      }
    }
  }
}
