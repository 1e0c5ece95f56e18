/** Solvency of the coin shuffle contract over every run, and the contract itself. */
module CoinEscrow {
  import opened Prelude
  import opened Bytes
  import opened U256
  import opened CoinShuffle
  import Sorting

  // ---- What the contract owes ----

  /** The sum collected by those open tasks among `ids` that are in `coin`. */
  ghost function OwedBy(ids: set<nat>, records: map<nat, seq<Record>>, coin: Coin): nat {
    if ids == {} then 0
    else
      var id :| id in ids;
      Share(records, id, coin) + OwedBy(ids - {id}, records, coin)
  }

  function Share(records: map<nat, seq<Record>>, id: nat, coin: Coin): nat {
    if CoinOf(id) == coin then Collected(RecordsOf(records, id)) else 0
  }

  ghost function Owed(records: map<nat, seq<Record>>, coin: Coin): nat {
    OwedBy(records.Keys, records, coin)
  }

  lemma {:induction false} OwedWithout(ids: set<nat>, records: map<nat, seq<Record>>, coin: Coin, id: nat)
    requires id in ids
    ensures OwedBy(ids, records, coin) == Share(records, id, coin) + OwedBy(ids - {id}, records, coin)
  {
    var x :| x in ids && OwedBy(ids, records, coin) == Share(records, x, coin) + OwedBy(ids - {x}, records, coin);
    if x != id {
      OwedWithout(ids - {x}, records, coin, id);
      OwedWithout(ids - {id}, records, coin, x);
      assert ids - {x} - {id} == ids - {id} - {x};
    }
  }

  lemma {:induction false} OwedSame(ids: set<nat>, a: map<nat, seq<Record>>, b: map<nat, seq<Record>>, coin: Coin)
    requires forall id | id in ids :: RecordsOf(a, id) == RecordsOf(b, id)
    ensures OwedBy(ids, a, coin) == OwedBy(ids, b, coin)
  {
    if ids != {} {
      var id :| id in ids;
      OwedWithout(ids, a, coin, id);
      OwedWithout(ids, b, coin, id);
      OwedSame(ids - {id}, a, b, coin);
    }
  }

  lemma OwedAfterUpdate(records: map<nat, seq<Record>>, id: nat, rs: seq<Record>, coin: Coin)
    ensures Owed(records[id := rs], coin) + Share(records, id, coin)
         == Owed(records, coin) + (if CoinOf(id) == coin then Collected(rs) else 0)
  {
    var after := records[id := rs];
    var others := records.Keys - {id};
    assert after.Keys - {id} == others;
    OwedWithout(after.Keys, after, coin, id);
    OwedSame(others, records, after, coin);
    if id in records {
      OwedWithout(records.Keys, records, coin, id);
    } else {
      assert others == records.Keys;
    }
  }

  lemma OwedAfterRemoval(records: map<nat, seq<Record>>, id: nat, coin: Coin)
    ensures Owed(records - {id}, coin) + Share(records, id, coin) == Owed(records, coin)
  {
    var after := records - {id};
    assert after.Keys == records.Keys - {id};
    OwedSame(after.Keys, records, after, coin);
    if id in records {
      OwedWithout(records.Keys, records, coin, id);
    } else {
      assert after.Keys == records.Keys;
    }
  }

  // ---- Transfers ----

  lemma TransferEffect(b: Balances, coin: Coin, from: Address, to: Address, amount: nat, c: Coin, who: Address)
    ensures Transfer(b, coin, from, to, amount).None? <==> BalanceOf(b, coin, from) < amount
    ensures Transfer(b, coin, from, to, amount).Some? ==>
      BalanceOf(Transfer(b, coin, from, to, amount).value, c, who) == BalanceOf(b, c, who)
        - (if c == coin && who == from then amount else 0) + (if c == coin && who == to then amount else 0)
  {
  }

  lemma {:induction false} TransferAllEffect(b: Balances, coin: Coin, from: Address, to: seq<Address>, amount: nat,
      c: Coin)
    requires BalanceOf(b, coin, from) >= amount * |to|
    ensures var r := TransferAll(b, coin, from, to, amount);
            && r.Some?
            && BalanceOf(r.value, c, from) >= BalanceOf(b, c, from) - (if c == coin then amount * |to| else 0)
  {
    if to != [] {
      var n := |to| - 1;
      assert amount * |to| == amount * n + amount;
      TransferAllEffect(b, coin, from, to[..n], amount, c);
      TransferAllEffect(b, coin, from, to[..n], amount, coin);
      var before := TransferAll(b, coin, from, to[..n], amount).value;
      TransferEffect(before, coin, from, to[n], amount, c, from);
      TransferEffect(before, coin, from, to[n], amount, coin, from);
    }
  }

  // ---- Runs ----

  /** Calls of anybody, and what else happens to the tokens. `finishTask` is called with a signature and a payout. */
  datatype Event =
    | Create(id: nat, now: nat)
    | Join(id: nat, record: Record, now: nat)
    | Finish(id: nat, signature: Option<LambdaRun>, payout: Payout, caller: Address)
    | Tokens(balances: Balances)

  /** The contract never calls itself, and a standard token lets nobody else spend its balance. */
  ghost predicate Allowed(self: Address, st: State, e: Event) {
    match e
    case Create(_, _) => true
    case Join(_, r, _) => r.sender != self
    case Finish(_, _, _, _) => true
    case Tokens(b) => forall coin: Coin :: BalanceOf(b, coin, self) >= BalanceOf(st.balances, coin, self)
  }

  /** A reverted call leaves the state as it was. */
  function OrElse(r: Option<State>, st: State): State {
    match r
    case None => st
    case Some(s) => s
  }

  /** `finishTask` checks the signature over the task, its present chain value and the payout. */
  function Next(k: keccak, self: Address, st: State, e: Event): State {
    match e
    case Create(id, now) => OrElse(CreateTask(st, id, now), st)
    case Join(id, r, now) => OrElse(JoinTask(k, self, st, id, r, now), st)
    case Finish(id, signature, p, caller) =>
      if Accepted(k, id, StatusOf(st.taskMap, id).hash, signature, p)
      then OrElse(FinishTask(self, st, id, p, caller), st)
      else st
    case Tokens(b) => st.(balances := b)
  }

  function Run(k: keccak, self: Address, b: Balances, es: seq<Event>): State {
    if es == [] then State(map[], b, map[]) else Next(k, self, Run(k, self, b, es[..|es| - 1]), es[|es| - 1])
  }

  ghost predicate AllAllowed(k: keccak, self: Address, b: Balances, es: seq<Event>) {
    forall i | 0 <= i < |es| :: Allowed(self, Run(k, self, b, es[..i]), es[i])
  }

  /** Every open task records what its chain value and count stand for, within the limits. */
  ghost predicate Booked(k: keccak, st: State) {
    && st.taskMap.Keys == st.records.Keys
    && forall id | id in st.taskMap :: TaskBooked(k, id, st.taskMap[id], RecordsOf(st.records, id))
  }

  ghost predicate TaskBooked(k: keccak, id: nat, status: TaskStatus, rs: seq<Record>) {
    status == TaskStatus(|rs|, Chain(k, id, rs)) && WithinLimits(id, rs)
  }

  ghost predicate Solvent(self: Address, st: State) {
    forall coin: Coin :: BalanceOf(st.balances, coin, self) >= Owed(st.records, coin)
  }

  ghost predicate Good(k: keccak, self: Address, st: State) {
    Booked(k, st) && Solvent(self, st)
  }

  lemma CreateIsGood(k: keccak, self: Address, st: State, id: nat, now: nat)
    requires Good(k, self, st) && CreateTask(st, id, now).Some?
    ensures Good(k, self, CreateTask(st, id, now).value)
  {
    var st' := CreateTask(st, id, now).value;
    assert TaskBooked(k, id, TaskStatus(0, id), []);
    forall coin: Coin
      ensures BalanceOf(st'.balances, coin, self) >= Owed(st'.records, coin)
    {
      OwedAfterUpdate(st.records, id, [], coin);
    }
  }

  lemma JoinIsBooked(k: keccak, id: nat, status: TaskStatus, rs: seq<Record>, r: Record)
    requires TaskBooked(k, id, status, rs) && status.count < MAX_INPUTS
    requires Base(id) <= r.amount < Base(id) * (100 + MAX_REWARD_RATIO) / 100
    ensures TaskBooked(k, id, TaskStatus(status.count + 1, k(status.hash, r)), rs + [r])
  {
    hide Base;
    assert (rs + [r])[..|rs|] == rs;
  }

  lemma JoinOpenIsGood(k: keccak, self: Address, st: State, id: nat, r: Record)
    requires Good(k, self, st) && id in st.taskMap && r.sender != self
    requires Base(id) <= r.amount < Base(id) * (100 + MAX_REWARD_RATIO) / 100
    requires Transfer(st.balances, CoinOf(id), r.sender, self, r.amount).Some? && st.taskMap[id].count < MAX_INPUTS
    ensures Good(k, self, State(
      st.taskMap[id := TaskStatus(st.taskMap[id].count + 1, k(st.taskMap[id].hash, r))],
      Transfer(st.balances, CoinOf(id), r.sender, self, r.amount).value,
      st.records[id := RecordsOf(st.records, id) + [r]]))
  {
    var rs := RecordsOf(st.records, id);
    var rs' := rs + [r];
    assert TaskBooked(k, id, st.taskMap[id], rs);
    JoinIsBooked(k, id, st.taskMap[id], rs, r);
    hide TaskBooked, Base, Transfer, Owed;
    var b := Transfer(st.balances, CoinOf(id), r.sender, self, r.amount).value;
    forall coin: Coin
      ensures BalanceOf(b, coin, self) >= Owed(st.records[id := rs'], coin)
    {
      OwedAfterUpdate(st.records, id, rs', coin);
      TransferEffect(st.balances, CoinOf(id), r.sender, self, r.amount, coin, self);
      assert BalanceOf(st.balances, coin, self) >= Owed(st.records, coin);
    }
  }

  lemma JoinIsGood(k: keccak, self: Address, st: State, id: nat, r: Record, now: nat)
    requires Good(k, self, st) && r.sender != self && JoinTask(k, self, st, id, r, now).Some?
    ensures Good(k, self, JoinTask(k, self, st, id, r, now).value)
  {
    hide Solvent, TaskBooked, Transfer, Base, Chain;
    if StatusOf(st.taskMap, id).hash == 0 {
      CreateIsGood(k, self, st, id, now);
      JoinOpenIsGood(k, self, CreateTask(st, id, now).value, id, r);
    } else {
      JoinOpenIsGood(k, self, st, id, r);
    }
  }

  // ---- What goes wrong if a run does not stay solvent ----

  /** Computed when a payout for `records` is accepted though other records, or none, are in the open task. */
  function FinishClash(k: keccak, st: State, id: nat, records: seq<Record>): Option<Clash> {
    if records == [] then None
    else if id !in st.taskMap then Some(HitsZero(Chain(k, id, records[..|records| - 1]), records[|records| - 1]))
    else if records == RecordsOf(st.records, id) then None
    else Some(ChainClash(k, id, records, RecordsOf(st.records, id)))
  }

  /** An accepted payout is for exactly the records that joined, so what it hands out was collected; or it clashes. */
  lemma AcceptedIsCovered(k: keccak, st: State, id: nat, signature: Option<LambdaRun>, p: Payout)
    requires Booked(k, st) && Accepted(k, id, StatusOf(st.taskMap, id).hash, signature, p)
    ensures match FinishClash(k, st, id, signature.value.records)
            case Some(c) => IsClash(k, c)
            case None =>
              var n, collected := |p.receivers|, Collected(RecordsOf(st.records, id));
              && id in st.taskMap && signature.value.records == RecordsOf(st.records, id)
              && p.fee + p.amount * n <= collected < p.fee + p.amount * n + n
              && p.amount >= Base(id) && n > 0
  {
    var records, results := signature.value.records, signature.value.results;
    assert records != [] by {
      NoMoreReceiversThanRecords(results);
      Sorting.PermutationMembers(p.receivers, Decrypted(results));
    }
    if id in st.taskMap {
      assert TaskBooked(k, id, st.taskMap[id], RecordsOf(st.records, id));
      if records != RecordsOf(st.records, id) {
        EqualChainsClash(k, id, records, RecordsOf(st.records, id));
      }
    }
  }

  /** In a solvent state an accepted payout never lacks funds and leaves the contract solvent; or it clashes. */
  lemma FinishIsGood(k: keccak, self: Address, st: State, id: nat,
      signature: Option<LambdaRun>, p: Payout, caller: Address)
    requires Good(k, self, st) && Accepted(k, id, StatusOf(st.taskMap, id).hash, signature, p)
    ensures match FinishClash(k, st, id, signature.value.records)
            case Some(c) => IsClash(k, c)
            case None =>
              && FinishTask(self, st, id, p, caller).Some?
              && Good(k, self, FinishTask(self, st, id, p, caller).value)
  {
    AcceptedIsCovered(k, st, id, signature, p);
    if FinishClash(k, st, id, signature.value.records).None? {
      hide Accepted, FinishClash;
      CoveredFinishIsGood(k, self, st, id, p, caller);
    }
  }

  lemma CoveredFinishIsGood(k: keccak, self: Address, st: State, id: nat, p: Payout, caller: Address)
    requires Good(k, self, st) && p.fee + p.amount * |p.receivers| <= Collected(RecordsOf(st.records, id))
    ensures FinishTask(self, st, id, p, caller).Some?
    ensures Good(k, self, FinishTask(self, st, id, p, caller).value)
  {
    hide PayOut, TaskBooked, Owed;
    var spent := p.fee + p.amount * |p.receivers|;
    FinishCovers(self, st, id, p, caller, spent, CoinOf(id));
    var st' := FinishTask(self, st, id, p, caller).value;
    assert Booked(k, st');
    forall coin: Coin
      ensures BalanceOf(st'.balances, coin, self) >= Owed(st'.records, coin)
    {
      FinishCovers(self, st, id, p, caller, spent, coin);
    }
  }

  /** What the contract has left of a coin covers what it still owes in that coin. */
  lemma FinishCovers(self: Address, st: State, id: nat, p: Payout, caller: Address, spent: nat, coin: Coin)
    requires Solvent(self, st) && spent == p.fee + p.amount * |p.receivers| <= Collected(RecordsOf(st.records, id))
    ensures FinishTask(self, st, id, p, caller).Some?
    ensures var st' := FinishTask(self, st, id, p, caller).value;
            BalanceOf(st'.balances, coin, self) >= Owed(st'.records, coin)
  {
    var home := CoinOf(id);
    OwedAfterRemoval(st.records, id, home);
    OwedAfterRemoval(st.records, id, coin);
    assert BalanceOf(st.balances, home, self) >= Owed(st.records, home);
    assert BalanceOf(st.balances, coin, self) >= Owed(st.records, coin);
    hide PayOut, Owed, Collected, BalanceOf, Solvent;
    PayOutEffect(st.balances, home, self, p, caller, spent, coin);
  }

  /** Fee and shares leave the contract with no less than it had minus what they add up to. */
  lemma PayOutEffect(b: Balances, coin: Coin, self: Address, p: Payout, caller: Address, spent: nat, c: Coin)
    requires spent == p.fee + p.amount * |p.receivers| <= BalanceOf(b, coin, self)
    ensures var r := PayOut(b, coin, self, p, caller);
            && r.Some?
            && BalanceOf(r.value, c, self) >= BalanceOf(b, c, self) - (if c == coin then spent else 0)
  {
    TransferEffect(b, coin, self, caller, p.fee, coin, self);
    TransferEffect(b, coin, self, caller, p.fee, c, self);
    hide Transfer, TransferAll, BalanceOf;
    TransferAllEffect(Transfer(b, coin, self, caller, p.fee).value, coin, self, p.receivers, p.amount, c);
  }

  function EventClash(k: keccak, st: State, e: Event): Option<Clash> {
    match e
    case Create(_, _) => None
    case Join(_, _, _) => None
    case Finish(id, signature, p, _) =>
      if Accepted(k, id, StatusOf(st.taskMap, id).hash, signature, p)
      then FinishClash(k, st, id, signature.value.records)
      else None
    case Tokens(_) => None
  }

  /** The first clash in a run, if there is one. */
  function RunClash(k: keccak, self: Address, b: Balances, es: seq<Event>): Option<Clash> {
    if es == [] then None
    else
      var before := es[..|es| - 1];
      match RunClash(k, self, b, before)
      case Some(c) => Some(c)
      case None => EventClash(k, Run(k, self, b, before), es[|es| - 1])
  }

  lemma NextIsGood(k: keccak, self: Address, st: State, e: Event)
    requires Good(k, self, st) && Allowed(self, st, e)
    ensures match EventClash(k, st, e)
            case Some(c) => IsClash(k, c)
            case None => Good(k, self, Next(k, self, st, e))
  {
    hide Accepted, Booked, CreateTask, JoinTask, FinishTask, FinishClash;
    match e
    case Create(id, now) =>
      if CreateTask(st, id, now).Some? {
        CreateIsGood(k, self, st, id, now);
      }
    case Join(id, r, now) =>
      if JoinTask(k, self, st, id, r, now).Some? {
        JoinIsGood(k, self, st, id, r, now);
      }
    case Finish(id, signature, p, caller) =>
      if Accepted(k, id, StatusOf(st.taskMap, id).hash, signature, p) {
        FinishIsGood(k, self, st, id, signature, p, caller);
      }
    case Tokens(_) =>
      TokensAreGood(k, self, st, e);
  }

  lemma TokensAreGood(k: keccak, self: Address, st: State, e: Event)
    requires Good(k, self, st) && Allowed(self, st, e) && e.Tokens?
    ensures Good(k, self, Next(k, self, st, e))
  {
    forall coin: Coin
      ensures BalanceOf(e.balances, coin, self) >= Owed(st.records, coin)
    {
      assert BalanceOf(st.balances, coin, self) >= Owed(st.records, coin);
    }
  }

  /**
    * Over any run of interleaved tasks, and for any hash, the contract can cover every open task,
    * or a collision, a hit on a task or a zero of the hash has been computed from the run.
    */
  lemma {:induction false} AlwaysSolvent(k: keccak, self: Address, b: Balances, es: seq<Event>)
    requires AllAllowed(k, self, b, es)
    ensures match RunClash(k, self, b, es)
            case Some(c) => IsClash(k, c)
            case None => Good(k, self, Run(k, self, b, es))
  {
    hide Next, EventClash, Good, IsClash;
    if es != [] {
      var n := |es| - 1;
      assert forall i | 0 <= i < n :: es[..n][..i] == es[..i];
      AlwaysSolvent(k, self, b, es[..n]);
      if RunClash(k, self, b, es[..n]).None? {
        NextIsGood(k, self, Run(k, self, b, es[..n]), es[n]);
      }
    } else {
      NothingOwed(k, self, b);
    }
  }

  lemma NothingOwed(k: keccak, self: Address, b: Balances)
    ensures Good(k, self, State(map[], b, map[]))
  {
  }

  /** So no payout that is accepted ever lacks funds: it is paid in full, or there is such a clash. */
  lemma AcceptedIsPaid(k: keccak, self: Address, b: Balances, es: seq<Event>, i: nat)
    requires AllAllowed(k, self, b, es) && i < |es| && es[i].Finish?
    requires var st, e := Run(k, self, b, es[..i]), es[i];
             Accepted(k, e.id, StatusOf(st.taskMap, e.id).hash, e.signature, e.payout)
    ensures match RunClash(k, self, b, es[..i + 1])
            case Some(c) => IsClash(k, c)
            case None => FinishTask(self, Run(k, self, b, es[..i]), es[i].id, es[i].payout, es[i].caller).Some?
  {
    assert forall j | 0 <= j < i :: es[..i][..j] == es[..j];
    AlwaysSolvent(k, self, b, es[..i]);
    var st, e := Run(k, self, b, es[..i]), es[i];
    ClashSoFar(k, self, b, es, i);
    AcceptedClash(k, st, e);
    hide *;
    if RunClash(k, self, b, es[..i]).None? {
      FinishIsGood(k, self, st, e.id, e.signature, e.payout, e.caller);
    }
  }

  lemma ClashSoFar(k: keccak, self: Address, b: Balances, es: seq<Event>, i: nat)
    requires i < |es|
    ensures RunClash(k, self, b, es[..i + 1]) ==
      match RunClash(k, self, b, es[..i])
      case Some(c) => Some(c)
      case None => EventClash(k, Run(k, self, b, es[..i]), es[i])
  {
    assert es[..i + 1][..i] == es[..i];
    hide EventClash, Run;
  }

  lemma AcceptedClash(k: keccak, st: State, e: Event)
    requires e.Finish? && Accepted(k, e.id, StatusOf(st.taskMap, e.id).hash, e.signature, e.payout)
    ensures EventClash(k, st, e) == FinishClash(k, st, e.id, e.signature.value.records)
  {
    hide Pays, Chain, FinishClash;
  }

  // ---- Deadlines ----

  /** An accepted call joined `r` to the task before its due time. */
  predicate JoinedInTime(k: keccak, self: Address, b: Balances, es: seq<Event>, id: nat, r: Record) {
    exists i | 0 <= i < |es| ::
      && es[i].Join? && es[i].id == id && es[i].record == r
      && es[i].now < DueTime(id)
      && JoinTask(k, self, Run(k, self, b, es[..i]), id, r, es[i].now).Some?
  }

  lemma JoinedStays(k: keccak, self: Address, b: Balances, es: seq<Event>, id: nat, r: Record)
    requires es != [] && JoinedInTime(k, self, b, es[..|es| - 1], id, r)
    ensures JoinedInTime(k, self, b, es, id, r)
  {
    var before := es[..|es| - 1];
    var i :| 0 <= i < |before| && before[i].Join? && before[i].id == id && before[i].record == r
      && before[i].now < DueTime(id) && JoinTask(k, self, Run(k, self, b, before[..i]), id, r, before[i].now).Some?;
    assert es[..i] == before[..i] && es[i] == before[i];
  }

  /** In every run each record of an open task came from an accepted call before the task's due time. */
  lemma {:induction false} RecordsJoinedInTime(k: keccak, self: Address, b: Balances, es: seq<Event>, id: nat, j: nat)
    requires j < |RecordsOf(Run(k, self, b, es).records, id)|
    ensures JoinedInTime(k, self, b, es, id, RecordsOf(Run(k, self, b, es).records, id)[j])
  {
    if es != [] {
      var n := |es| - 1;
      var st, e := Run(k, self, b, es[..n]), es[n];
      var rs, rs' := RecordsOf(st.records, id), RecordsOf(Run(k, self, b, es).records, id);
      RecordsOfNext(k, self, st, e, id);
      hide Next, JoinTask, CreateTask, FinishTask, Accepted;
      if j < |rs| && rs'[j] == rs[j] {
        RecordsJoinedInTime(k, self, b, es[..n], id, j);
        JoinedStays(k, self, b, es, id, rs[j]);
      } else {
        assert e.Join? && e.id == id && e.record == rs'[j];
        JoinIsAcceptedExactly(k, self, st, id, e.record, e.now);
      }
    }
  }

  /** One event leaves a task's records, clears them, or appends the record of an accepted join. */
  lemma RecordsOfNext(k: keccak, self: Address, st: State, e: Event, id: nat)
    ensures var rs, rs' := RecordsOf(st.records, id), RecordsOf(Next(k, self, st, e).records, id);
            || rs' == rs
            || rs' == []
            || (&& e.Join? && e.id == id && JoinTask(k, self, st, id, e.record, e.now).Some?
                && (rs' == [e.record] || rs' == rs + [e.record]))
  {
    hide Accepted, PayOut, Transfer, Base;
    match e
    case Create(task, now) => CreateIsAcceptedExactly(st, task, now);
    case Join(task, r, now) => JoinIsAcceptedExactly(k, self, st, task, r, now);
    case Finish(_, _, _, _) =>
    case Tokens(_) =>
  }

  // ---- Who gets what ----

  function Count(to: seq<Address>, who: Address): nat {
    if to == [] then 0 else Count(to[..|to| - 1], who) + (if to[|to| - 1] == who then 1 else 0)
  }

  lemma {:induction false} TransferAllCredits(b: Balances, coin: Coin, from: Address, to: seq<Address>, amount: nat,
      who: Address)
    requires who != from && TransferAll(b, coin, from, to, amount).Some?
    ensures BalanceOf(TransferAll(b, coin, from, to, amount).value, coin, who)
         == BalanceOf(b, coin, who) + amount * Count(to, who)
  {
    if to != [] {
      var n := |to| - 1;
      TransferAllCredits(b, coin, from, to[..n], amount, who);
      TransferEffect(TransferAll(b, coin, from, to[..n], amount).value, coin, from, to[n], amount, coin, who);
      assert amount * (Count(to[..n], who) + 1) == amount * Count(to[..n], who) + amount;
    }
  }

  /** A finished task credits every receiver with the amount per listing, the caller with the fee, and nobody else. */
  lemma FinishPaysEveryone(self: Address, st: State, id: nat, p: Payout, caller: Address, who: Address)
    requires who != self && FinishTask(self, st, id, p, caller).Some?
    ensures var st' := FinishTask(self, st, id, p, caller).value;
            && BalanceOf(st'.balances, CoinOf(id), who) == BalanceOf(st.balances, CoinOf(id), who)
                 + p.amount * Count(p.receivers, who) + (if who == caller then p.fee else 0)
            && st'.taskMap == st.taskMap - {id} && st'.records == st.records - {id}
  {
    TransferEffect(st.balances, CoinOf(id), self, caller, p.fee, CoinOf(id), who);
    var afterFee := Transfer(st.balances, CoinOf(id), self, caller, p.fee).value;
    TransferAllCredits(afterFee, CoinOf(id), self, p.receivers, p.amount, who);
  }

  // ---- The contract ----

  class Contract {
    const self: Address
    const hash: keccak
    var taskMap: map<nat, TaskStatus>
    var balances: Balances
    ghost var records: map<nat, seq<Record>>

    constructor (self: Address, hash: keccak, balances: Balances)
      ensures this.self == self && this.hash == hash && AsState() == State(map[], balances, map[])
    {
      this.self := self;
      this.hash := hash;
      this.balances := balances;
      taskMap := map[];
      records := map[];
    }

    ghost function AsState(): State
      reads this
    {
      State(taskMap, balances, records)
    }

    method CreateTaskCall(taskID: nat, now: nat) returns (ok: bool)
      modifies this
      ensures ok <==> CreateTask(old(AsState()), taskID, now).Some?
      ensures AsState() == Next(hash, self, old(AsState()), Create(taskID, now))
    {
      var dueTime := DueTime(taskID);
      if dueTime >= now + MAX_WAITING_TIME {
        return false;
      }
      if StatusOf(taskMap, taskID).hash != 0 {
        return false;
      }
      if taskID % 256 != 0 {
        return false;
      }
      taskMap := taskMap[taskID := TaskStatus(0, taskID)];
      records := records[taskID := []];
      ok := true;
    }

    /** A revert undoes what the call did before it. */
    method JoinTaskCall(taskID: nat, r: Record, now: nat) returns (ok: bool)
      modifies this
      ensures ok <==> JoinTask(hash, self, old(AsState()), taskID, r, now).Some?
      ensures AsState() == Next(hash, self, old(AsState()), Join(taskID, r, now))
    {
      var savedMap, savedBalances := taskMap, balances;
      ghost var savedRecords := records;
      ok := TryJoin(taskID, r, now);
      if !ok {
        taskMap, balances, records := savedMap, savedBalances, savedRecords;
      }
    }

    method TryJoin(taskID: nat, r: Record, now: nat) returns (ok: bool)
      modifies this
      ensures ok <==> JoinTask(hash, self, old(AsState()), taskID, r, now).Some?
      ensures ok ==> JoinTask(hash, self, old(AsState()), taskID, r, now) == Some(AsState())
    {
      var status := StatusOf(taskMap, taskID);
      if status.hash == 0 {
        var created := CreateTaskCall(taskID, now);
        if !created {
          return false;
        }
        status := TaskStatus(0, taskID);
      }
      var dueTime := DueTime(taskID);
      if now >= dueTime {
        return false;
      }
      var amountBase := ExpandAmount(AmountByte(taskID));
      if r.amount < amountBase {
        return false;
      }
      if r.amount >= amountBase * (100 + MAX_REWARD_RATIO) / 100 {
        return false;
      }
      var moved := Transfer(balances, CoinOf(taskID), r.sender, self, r.amount);
      if moved.None? {
        return false;
      }
      balances := moved.value;
      if status.count >= MAX_INPUTS {
        return false;
      }
      taskMap := taskMap[taskID := TaskStatus(status.count + 1, hash(status.hash, r))];
      records := records[taskID := RecordsOf(records, taskID) + [r]];
      ok := true;
    }

    /** `signatureOk` is the outcome of the signature check, which nobody can forge. */
    method FinishTaskCall(taskID: nat, ghost signature: Option<LambdaRun>, p: Payout, caller: Address,
        signatureOk: bool)
      returns (ok: bool)
      requires signatureOk <==> Accepted(hash, taskID, StatusOf(taskMap, taskID).hash, signature, p)
      modifies this
      ensures AsState() == Next(hash, self, old(AsState()), Finish(taskID, signature, p, caller))
      ensures ok <==> signatureOk && FinishTask(self, old(AsState()), taskID, p, caller).Some?
    {
      hide Accepted;
      if !signatureOk {
        return false;
      }
      var coinAddr := CoinOf(taskID);
      var ledger := Transfer(balances, coinAddr, self, caller, p.fee);
      if ledger.None? {
        return false;
      }
      var current := ledger.value;
      for i := 0 to |p.receivers|
        invariant TransferAll(ledger.value, coinAddr, self, p.receivers[..i], p.amount) == Some(current)
      {
        assert p.receivers[..i + 1][..i] == p.receivers[..i];
        var next := Transfer(current, coinAddr, self, p.receivers[i], p.amount);
        if next.None? {
          PrefixFails(ledger.value, coinAddr, self, p.receivers, i + 1, p.amount);
          return false;
        }
        current := next.value;
      }
      assert p.receivers[..|p.receivers|] == p.receivers;
      taskMap := taskMap - {taskID};
      records := records - {taskID};
      balances := current;
      ok := true;
    }
  }

  lemma {:induction false} PrefixFails(b: Balances, coin: Coin, from: Address, to: seq<Address>, n: nat, amount: nat)
    requires n <= |to| && TransferAll(b, coin, from, to[..n], amount).None?
    ensures TransferAll(b, coin, from, to, amount).None?
    decreases |to|
  {
    if n < |to| {
      assert to[..|to| - 1][..n] == to[..n];
      PrefixFails(b, coin, from, to[..|to| - 1], n, amount);
    } else {
      assert to[..n] == to;
    }
  }
}
