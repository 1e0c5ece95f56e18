/** The farming game: handlers over global maps, and what every run of inputs keeps. */
module FarmGame {
  import opened Prelude
  import opened Bytes

  type User = bytes
  type Seed = bytes

  const BIRD_EATEN_HEIGHT := 10
  const FAST_SEED_PRICE := 50
  const SLOW_SEED_PRICE := 20
  const FAST_GROWN_HEIGHT := 500
  const SLOW_GROWN_HEIGHT := 200
  const DAY := 3600 * 24

  /** The hash calls of the script, and the 32-bit numbers it reads from a seed at offsets 0 and 4. */
  datatype World = World(mixUser: (Seed, User) -> Seed, mixTime: (Seed, int) -> Seed, u32: (Seed, nat) -> nat)

  datatype Plant = Plant(height: int, growSpeed: int, lastIrrigateTime: int)

  datatype Choice = Fast | Slow | Random

  datatype Input =
    | DepositCoins(user: User, amount: int)
    | BuySeed(user: User, which: Choice, timestamp: int)
    | Irrigate(user: User, plantIndex: int, timestamp: int)
    | FinishBlock(timestamp: int)
    | Unknown

  datatype Output =
    | Success
    | Bought(which: Choice)
    | Failure(error: string)
    | Nothing
    | BirdEats(userIndex: nat, plantIndex: nat, plant: Plant)
    | Threw

  datatype State = State(
    balances: map<User, int>, users: seq<User>, plants: map<User, seq<Plant>>, lastTimestamp: int, seed: Seed)

  function Initial(seed: Seed): State {
    State(map[], [], map[], 0, seed)
  }

  // ---- The handlers on values ----

  function Deposit(st: State, user: User, amount: int): (State, Output) {
    if user in st.balances then
      (st.(balances := st.balances[user := amount + st.balances[user]]), Success)
    else
      (st.(users := st.users + [user], balances := st.balances[user := amount]), Success)
  }

  function Price(which: Choice): int {
    match which
    case Fast => FAST_SEED_PRICE
    case Slow => SLOW_SEED_PRICE
    case Random => (FAST_SEED_PRICE + SLOW_SEED_PRICE) / 2
  }

  /** The seed that a purchase asked for as `which` gives. */
  function Drawn(w: World, seed: Seed, which: Choice): Choice {
    if which.Random? then (if w.u32(seed, 0) % 1000 < 400 then Slow else Fast) else which
  }

  function Name(which: Choice): string {
    match which
    case Fast => "fast"
    case Slow => "slow"
    case Random => "random"
  }

  function PlantsOf(st: State, user: User): seq<Plant> {
    if user in st.plants then st.plants[user] else []
  }

  function Buy(w: World, st: State, user: User, which: Choice, timestamp: int): (State, Output) {
    if user !in st.balances then (st, Failure("no such user"))
    else
      var drawn := Drawn(w, st.seed, which);
      var st1 := if which.Random? then st.(seed := w.mixUser(st.seed, user)) else st;
      if st.balances[user] < Price(which) then (st1, Failure("balance not enough for " + Name(drawn)))
      else
        var plant := Plant(0, if drawn.Slow? then SLOW_GROWN_HEIGHT else FAST_GROWN_HEIGHT, timestamp);
        (st1.(balances := st.balances[user := st.balances[user] - Price(which)],
              plants := st.plants[user := PlantsOf(st, user) + [plant]]), Bought(drawn))
  }

  /** A negative index reads no plant, and using it throws. */
  function Water(st: State, user: User, plantIndex: int, timestamp: int): (State, Output) {
    if user !in st.plants then (st, Failure("no such user"))
    else if plantIndex >= |st.plants[user]| then (st, Failure("no such plant"))
    else if plantIndex < 0 then (st, Threw)
    else
      var plant := st.plants[user][plantIndex];
      if timestamp < plant.lastIrrigateTime + DAY then (st, Failure("already irrigated today"))
      else
        var grown := plant.(lastIrrigateTime := timestamp, height := plant.height + plant.growSpeed);
        (st.(plants := st.plants[user := st.plants[user][plantIndex := grown]]), Success)
  }

  function Finish(w: World, st: State, timestamp: int): (State, Output) {
    var st1 := st.(seed := w.mixTime(st.seed, timestamp));
    if timestamp < st.lastTimestamp + 3600 || |st.users| == 0 then (st1, Nothing)
    else
      var st2 := st1.(lastTimestamp := timestamp);
      var userIndex := w.u32(st1.seed, 0) % |st.users|;
      var user := st.users[userIndex];
      if user !in st.plants || |st.plants[user]| == 0 then (st2, Nothing)
      else
        var plantIndex := w.u32(st1.seed, 4) % |st.plants[user]|;
        var plant := st.plants[user][plantIndex];
        if plant.height < BIRD_EATEN_HEIGHT then (st2, Nothing)
        else
          var eaten := plant.(height := plant.height - BIRD_EATEN_HEIGHT);
          (st2.(plants := st.plants[user := st.plants[user][plantIndex := eaten]]),
           BirdEats(userIndex, plantIndex, eaten))
  }

  function Handle(w: World, st: State, input: Input): (State, Output) {
    match input
    case DepositCoins(user, amount) => Deposit(st, user, amount)
    case BuySeed(user, which, timestamp) => Buy(w, st, user, which, timestamp)
    case Irrigate(user, plantIndex, timestamp) => Water(st, user, plantIndex, timestamp)
    case FinishBlock(timestamp) => Finish(w, st, timestamp)
    case Unknown => (st, Nothing)
  }

  function Run(w: World, seed: Seed, inputs: seq<Input>): State {
    if inputs == [] then Initial(seed)
    else Handle(w, Run(w, seed, inputs[..|inputs| - 1]), inputs[|inputs| - 1]).0
  }

  /** The answer to the last input. */
  function Answer(w: World, seed: Seed, inputs: seq<Input>): Output
    requires inputs != []
  {
    Handle(w, Run(w, seed, inputs[..|inputs| - 1]), inputs[|inputs| - 1]).1
  }

  // ---- What each answer means ----

  /** The price in coins of a seed asked for as `which`. */
  function Coins(which: Choice): nat {
    match which
    case Fast => 50
    case Slow => 20
    case Random => 35
  }

  /** A seed is sold exactly to a known user who has the coins; a random one is slow for 400 out of 1000 draws. */
  lemma BuyIsAnsweredExactly(w: World, st: State, user: User, which: Choice, timestamp: int)
    ensures var (st', out) := Buy(w, st, user, which, timestamp);
            && (out.Bought? <==> user in st.balances && st.balances[user] >= Coins(which))
            && (user !in st.balances ==> out == Failure("no such user"))
            && (user in st.balances && !out.Bought? ==>
                  out == Failure("balance not enough for fast") || out == Failure("balance not enough for slow"))
            && (out.Bought? && which == Fast ==> out.which == Fast)
            && (out.Bought? && which == Slow ==> out.which == Slow)
            && (out.Bought? && which == Random ==>
                  out.which == if w.u32(st.seed, 0) % 1000 <= 399 then Slow else Fast)
            && st'.users == st.users && st'.lastTimestamp == st.lastTimestamp
            && (!out.Bought? ==> st'.balances == st.balances && st'.plants == st.plants)
            && (out.Bought? ==>
                 && st'.balances == st.balances[user := st.balances[user] - Coins(which)]
                 && st'.plants == st.plants[user :=
                      PlantsOf(st, user) + [Plant(0, if out.which == Slow then 200 else 500, timestamp)]])
            && st'.seed == if user in st.balances && which == Random then w.mixUser(st.seed, user) else st.seed
  {
  }

  /** Watering succeeds exactly a day after the last time; it raises exactly that plant by its speed. */
  lemma WaterIsAnsweredExactly(st: State, user: User, i: int, timestamp: int)
    ensures var (st', out) := Water(st, user, i, timestamp);
            && (out.Success? <==>
                 && user in st.plants && 0 <= i < |st.plants[user]|
                 && timestamp - st.plants[user][i].lastIrrigateTime >= 86400)
            && (!out.Success? ==> st' == st)
            && (user !in st.plants ==> out == Failure("no such user"))
            && (user in st.plants && i >= |st.plants[user]| ==> out == Failure("no such plant"))
            && (user in st.plants && i < 0 ==> out == Threw)
            && (user in st.plants && 0 <= i < |st.plants[user]| && !out.Success? ==>
                  out == Failure("already irrigated today"))
            && (out.Success? ==>
                 var p := st.plants[user][i];
                 var q := Plant(p.height + p.growSpeed, p.growSpeed, timestamp);
                 st' == st.(plants := st.plants[user := st.plants[user][i := q]]))
  {
  }

  /** The bird comes at most once an hour, to the plant that the new seed points at, if that has 10 to eat. */
  lemma BirdIsAnsweredExactly(w: World, st: State, timestamp: int)
    ensures var (st', out) := Finish(w, st, timestamp);
            var due := timestamp - st.lastTimestamp >= 3600 && st.users != [];
            && st'.seed == w.mixTime(st.seed, timestamp)
            && st'.lastTimestamp == (if due then timestamp else st.lastTimestamp)
            && st'.users == st.users && st'.balances == st.balances
            && (out.BirdEats? || (out == Nothing && st'.plants == st.plants))
            && (out.BirdEats? <==> due && Prey(w, st', st.plants))
            && (out.BirdEats? ==>
                 && out.userIndex == w.u32(st'.seed, 0) % |st.users|
                 && var user := st.users[out.userIndex];
                 && out.plantIndex == w.u32(st'.seed, 4) % |st.plants[user]|
                 && var p := st.plants[user][out.plantIndex];
                 && out.plant == Plant(p.height - 10, p.growSpeed, p.lastIrrigateTime)
                 && st'.plants == st.plants[user := st.plants[user][out.plantIndex := out.plant]])
  {
  }

  /** The seed points at a plant of height 10 or more. */
  predicate Prey(w: World, st: State, plants: map<User, seq<Plant>>) {
    && st.users != []
    && var user := st.users[w.u32(st.seed, 0) % |st.users|];
    && user in plants && plants[user] != []
    && plants[user][w.u32(st.seed, 4) % |plants[user]|].height >= 10
  }

  // ---- What a run records, read off inputs and answers alone ----

  /** Coins put in by a user, and seeds bought by how they were asked for. */
  datatype Account = Account(deposited: int, fast: nat, slow: nat, random: nat)

  /** When a plant was bought and as what, and how often it was watered and visited by the bird. */
  datatype Record = Record(plantedAt: int, grows: Choice, waterings: nat, visits: nat, lastWatered: int)

  /** Users in the order of their first deposits. */
  datatype History = History(accounts: map<User, Account>, users: seq<User>, beds: map<User, seq<Record>>, birds: nat)

  function AccountOf(h: History, user: User): Account {
    if user in h.accounts then h.accounts[user] else Account(0, 0, 0, 0)
  }

  function BedOf(h: History, user: User): seq<Record> {
    if user in h.beds then h.beds[user] else []
  }

  function Charge(a: Account, which: Choice): Account {
    match which
    case Fast => a.(fast := a.fast + 1)
    case Slow => a.(slow := a.slow + 1)
    case Random => a.(random := a.random + 1)
  }

  function NoteOn(h: History, user: User, i: int, r: Record -> Record): History {
    if 0 <= i < |BedOf(h, user)| then h.(beds := h.beds[user := BedOf(h, user)[i := r(BedOf(h, user)[i])]]) else h
  }

  function Note(h: History, input: Input, output: Output): History {
    match (input, output)
    case (DepositCoins(user, amount), Success) =>
      var a := AccountOf(h, user);
      h.(accounts := h.accounts[user := a.(deposited := a.deposited + amount)],
         users := if user in h.accounts then h.users else h.users + [user])
    case (BuySeed(user, which, timestamp), Bought(grows)) =>
      h.(accounts := h.accounts[user := Charge(AccountOf(h, user), which)],
         beds := h.beds[user := BedOf(h, user) + [Record(timestamp, grows, 0, 0, timestamp)]])
    case (Irrigate(user, i, timestamp), Success) =>
      NoteOn(h, user, i, (r: Record) => r.(waterings := r.waterings + 1, lastWatered := timestamp))
    case (FinishBlock(_), BirdEats(userIndex, plantIndex, _)) =>
      var noted :=
        if userIndex < |h.users|
        then NoteOn(h, h.users[userIndex], plantIndex, (r: Record) => r.(visits := r.visits + 1))
        else h;
      noted.(birds := h.birds + 1)
    case _ => h
  }

  function HistoryOf(w: World, seed: Seed, inputs: seq<Input>): History {
    if inputs == [] then History(map[], [], map[], 0)
    else Note(HistoryOf(w, seed, inputs[..|inputs| - 1]), inputs[|inputs| - 1], Answer(w, seed, inputs))
  }

  // ---- The state is what was recorded ----

  function Spent(a: Account): nat {
    50 * a.fast + 20 * a.slow + 35 * a.random
  }

  predicate Books(balances: map<User, int>, accounts: map<User, Account>) {
    && balances.Keys == accounts.Keys
    && forall u | u in balances :: balances[u] == accounts[u].deposited - Spent(accounts[u])
  }

  /**
    * A plant stands as high as its waterings made it and the bird left it, and was watered at most once a day.
    * A slow plant grows by 200, any other by 500.
    */
  predicate Grown(p: Plant, r: Record) {
    && p.growSpeed == (if r.grows == Slow then 200 else 500)
    && p.height == p.growSpeed * r.waterings - 10 * r.visits
    && p.height >= 0
    && p.lastIrrigateTime == r.lastWatered
    && r.lastWatered - r.plantedAt >= 86400 * r.waterings
  }

  predicate Bed(ps: seq<Plant>, rs: seq<Record>) {
    |ps| == |rs| && forall i | 0 <= i < |ps| :: Grown(ps[i], rs[i])
  }

  predicate Garden(plants: map<User, seq<Plant>>, beds: map<User, seq<Record>>) {
    plants.Keys == beds.Keys && forall u | u in plants :: Bed(plants[u], beds[u])
  }

  /** The list holds every key once. */
  predicate Enumerates(users: seq<User>, balances: map<User, int>) {
    && (forall i, j | 0 <= i < j < |users| :: users[i] != users[j])
    && (forall u | u in balances :: u in users)
    && (forall i | 0 <= i < |users| :: users[i] in balances)
  }

  predicate Good(st: State, h: History) {
    && st.users == h.users && Enumerates(st.users, st.balances)
    && Books(st.balances, h.accounts)
    && Garden(st.plants, h.beds)
    && 3600 * h.birds <= st.lastTimestamp
  }

  lemma EnumeratesUpdate(users: seq<User>, balances: map<User, int>, u: User, v: int)
    requires Enumerates(users, balances)
    ensures Enumerates(if u in balances then users else users + [u], balances[u := v])
  {
  }

  lemma BooksUpdate(balances: map<User, int>, accounts: map<User, Account>, u: User, v: int, a: Account)
    requires Books(balances, accounts) && v == a.deposited - Spent(a)
    ensures Books(balances[u := v], accounts[u := a])
  {
  }

  lemma GardenUpdate(plants: map<User, seq<Plant>>, beds: map<User, seq<Record>>,
      u: User, ps: seq<Plant>, rs: seq<Record>)
    requires Garden(plants, beds) && Bed(ps, rs)
    ensures Garden(plants[u := ps], beds[u := rs])
  {
  }

  lemma DepositIsGood(st: State, h: History, user: User, amount: int)
    requires Good(st, h)
    ensures var (st', out) := Deposit(st, user, amount);
            Good(st', Note(h, DepositCoins(user, amount), out))
  {
    hide Enumerates, Garden;
    var a := AccountOf(h, user);
    var v := amount + if user in st.balances then st.balances[user] else 0;
    EnumeratesUpdate(st.users, st.balances, user, v);
    BooksUpdate(st.balances, h.accounts, user, v, a.(deposited := a.deposited + amount));
  }

  lemma BuyIsGood(w: World, st: State, h: History, user: User, which: Choice, timestamp: int)
    requires Good(st, h)
    ensures var (st', out) := Buy(w, st, user, which, timestamp);
            Good(st', Note(h, BuySeed(user, which, timestamp), out))
  {
    BuyIsAnsweredExactly(w, st, user, which, timestamp);
    var (st', out) := Buy(w, st, user, which, timestamp);
    hide Buy, Enumerates, Garden, Bed;
    if out.Bought? {
      var v := st.balances[user] - Coins(which);
      EnumeratesUpdate(st.users, st.balances, user, v);
      BooksUpdate(st.balances, h.accounts, user, v, Charge(AccountOf(h, user), which));
      var p := Plant(0, if out.which == Slow then 200 else 500, timestamp);
      NewPlant(st, h, user, p, Record(timestamp, out.which, 0, 0, timestamp));
    }
  }

  lemma NewPlant(st: State, h: History, user: User, p: Plant, r: Record)
    requires Garden(st.plants, h.beds) && Grown(p, r)
    ensures Garden(st.plants[user := PlantsOf(st, user) + [p]], h.beds[user := BedOf(h, user) + [r]])
  {
    assert Bed(PlantsOf(st, user), BedOf(h, user));
    GardenUpdate(st.plants, h.beds, user, PlantsOf(st, user) + [p], BedOf(h, user) + [r]);
  }

  lemma ChangedPlant(st: State, h: History, user: User, i: nat, p: Plant, r: Record)
    requires Garden(st.plants, h.beds) && user in st.plants && i < |st.plants[user]| && Grown(p, r)
    ensures user in h.beds && i < |h.beds[user]|
    ensures Garden(st.plants[user := st.plants[user][i := p]], h.beds[user := h.beds[user][i := r]])
  {
    assert Bed(st.plants[user], h.beds[user]);
    GardenUpdate(st.plants, h.beds, user, st.plants[user][i := p], h.beds[user][i := r]);
  }

  lemma RecordOf(st: State, h: History, user: User, i: nat) returns (r: Record)
    requires Garden(st.plants, h.beds) && user in st.plants && i < |st.plants[user]|
    ensures user in h.beds && i < |h.beds[user]| && r == h.beds[user][i] && Grown(st.plants[user][i], r)
  {
    assert Bed(st.plants[user], h.beds[user]);
    r := h.beds[user][i];
  }

  lemma GrowOnce(p: Plant, r: Record, timestamp: int)
    requires Grown(p, r) && timestamp - p.lastIrrigateTime >= 86400
    ensures Grown(Plant(p.height + p.growSpeed, p.growSpeed, timestamp),
      r.(waterings := r.waterings + 1, lastWatered := timestamp))
  {
    assert p.growSpeed * (r.waterings + 1) == p.growSpeed * r.waterings + p.growSpeed;
  }

  lemma WaterIsGood(st: State, h: History, user: User, i: int, timestamp: int)
    requires Good(st, h)
    ensures var (st', out) := Water(st, user, i, timestamp);
            Good(st', Note(h, Irrigate(user, i, timestamp), out))
  {
    WaterIsAnsweredExactly(st, user, i, timestamp);
    var (st', out) := Water(st, user, i, timestamp);
    hide Water, Enumerates, Books, Garden, Grown;
    if out.Success? {
      var p := st.plants[user][i];
      var r := RecordOf(st, h, user, i);
      GrowOnce(p, r, timestamp);
      ChangedPlant(st, h, user, i, Plant(p.height + p.growSpeed, p.growSpeed, timestamp),
        r.(waterings := r.waterings + 1, lastWatered := timestamp));
    }
  }

  lemma EatOnce(p: Plant, r: Record)
    requires Grown(p, r) && p.height >= 10
    ensures Grown(Plant(p.height - 10, p.growSpeed, p.lastIrrigateTime), r.(visits := r.visits + 1))
  {
  }

  lemma FinishIsGood(w: World, st: State, h: History, timestamp: int)
    requires Good(st, h)
    ensures var (st', out) := Finish(w, st, timestamp);
            Good(st', Note(h, FinishBlock(timestamp), out))
  {
    BirdIsAnsweredExactly(w, st, timestamp);
    var (st', out) := Finish(w, st, timestamp);
    hide Finish, Enumerates, Books, Garden, Grown;
    if out.BirdEats? {
      var user := st.users[out.userIndex];
      var p := st.plants[user][out.plantIndex];
      var r := RecordOf(st, h, user, out.plantIndex);
      EatOnce(p, r);
      ChangedPlant(st, h, user, out.plantIndex, out.plant, r.(visits := r.visits + 1));
    }
  }

  /**
    * In every run the state is what inputs and answers record: every user's balance, every plant's speed, height and
    * last watering, the list of users; and the bird keeps its pace.
    */
  lemma {:induction false} RunIsGood(w: World, seed: Seed, inputs: seq<Input>)
    ensures Good(Run(w, seed, inputs), HistoryOf(w, seed, inputs))
  {
    if inputs != [] {
      hide Good, Buy, Finish, Water, Deposit, Note;
      var n := |inputs| - 1;
      var st, h := Run(w, seed, inputs[..n]), HistoryOf(w, seed, inputs[..n]);
      RunIsGood(w, seed, inputs[..n]);
      match inputs[n]
      case DepositCoins(user, amount) => DepositIsGood(st, h, user, amount);
      case BuySeed(user, which, timestamp) => BuyIsGood(w, st, h, user, which, timestamp);
      case Irrigate(user, plantIndex, timestamp) => WaterIsGood(st, h, user, plantIndex, timestamp);
      case FinishBlock(timestamp) => FinishIsGood(w, st, h, timestamp);
      case Unknown => NothingNoted(h);
    }
  }

  lemma NothingNoted(h: History)
    ensures Note(h, Unknown, Nothing) == h
  {
  }

  // ---- What follows from it ----

  function Sum(users: seq<User>, balances: map<User, int>): int
    requires forall u | u in users :: u in balances
  {
    if users == [] then 0 else Sum(users[..|users| - 1], balances) + balances[users[|users| - 1]]
  }

  /** What all users put in, and what they paid. */
  function Turnover(users: seq<User>, accounts: map<User, Account>): (int, int)
    requires forall u | u in users :: u in accounts
  {
    if users == [] then (0, 0)
    else
      var (deposited, paid) := Turnover(users[..|users| - 1], accounts);
      var a := accounts[users[|users| - 1]];
      (deposited + a.deposited, paid + Spent(a))
  }

  lemma {:induction false} SumIsTurnover(users: seq<User>, balances: map<User, int>, accounts: map<User, Account>)
    requires Books(balances, accounts) && forall u | u in users :: u in balances
    ensures Sum(users, balances) + Turnover(users, accounts).1 == Turnover(users, accounts).0
  {
    if users != [] {
      SumIsTurnover(users[..|users| - 1], balances, accounts);
    }
  }

  /** In every run the balances of the listed users and the prices paid add up to the deposits. */
  lemma BalancesPlusPricesAreDeposits(w: World, seed: Seed, inputs: seq<Input>)
    ensures var st, h := Run(w, seed, inputs), HistoryOf(w, seed, inputs);
            && (forall u | u in st.users :: u in st.balances && u in h.accounts)
            && Enumerates(st.users, st.balances)
            && Sum(st.users, st.balances) + Turnover(st.users, h.accounts).1 == Turnover(st.users, h.accounts).0
  {
    RunIsGood(w, seed, inputs);
    var st, h := Run(w, seed, inputs), HistoryOf(w, seed, inputs);
    SumIsTurnover(st.users, st.balances, h.accounts);
  }

  /** In every run a plant has grown at most once a day since it was planted. */
  lemma GrowthIsBounded(w: World, seed: Seed, inputs: seq<Input>, user: User, i: nat)
    requires var st := Run(w, seed, inputs); user in st.plants && i < |st.plants[user]|
    ensures var p, h := Run(w, seed, inputs).plants[user][i], HistoryOf(w, seed, inputs);
            && user in h.beds && i < |h.beds[user]|
            && 0 <= p.height <= p.growSpeed * ((p.lastIrrigateTime - h.beds[user][i].plantedAt) / 86400)
  {
    hide Run, HistoryOf, Garden, Grown, Books, Enumerates;
    RunIsGood(w, seed, inputs);
    var r := RecordOf(Run(w, seed, inputs), HistoryOf(w, seed, inputs), user, i);
    DaysBound(Run(w, seed, inputs).plants[user][i], r);
  }

  lemma DaysBound(p: Plant, r: Record)
    requires Grown(p, r)
    ensures 0 <= p.height <= p.growSpeed * ((p.lastIrrigateTime - r.plantedAt) / 86400)
  {
    var days := (p.lastIrrigateTime - r.plantedAt) / 86400;
    assert r.waterings <= days;
    assert p.growSpeed * days == p.growSpeed * r.waterings + p.growSpeed * (days - r.waterings);
  }

  predicate NonNegative(balances: map<User, int>) {
    forall u | u in balances :: balances[u] >= 0
  }

  predicate DepositsNonNegative(inputs: seq<Input>) {
    forall i | 0 <= i < |inputs| :: inputs[i].DepositCoins? ==> inputs[i].amount >= 0
  }

  /** No purchase, watering or block overdraws a balance; only a negative deposit could. */
  lemma {:induction false} BalancesStayNonNegative(w: World, seed: Seed, inputs: seq<Input>)
    requires DepositsNonNegative(inputs)
    ensures NonNegative(Run(w, seed, inputs).balances)
  {
    if inputs != [] {
      BalancesStayNonNegative(w, seed, inputs[..|inputs| - 1]);
    }
  }

  /** Exactly the deposits that reach below zero break it. */
  lemma StepKeepsNonNegative(w: World, st: State, input: Input)
    requires NonNegative(st.balances)
    ensures NonNegative(Handle(w, st, input).0.balances) <==>
      !(input.DepositCoins? && (if input.user in st.balances then st.balances[input.user] else 0) + input.amount < 0)
  {
    if input.DepositCoins? {
      assert input.user in Deposit(st, input.user, input.amount).0.balances;
    }
  }

  /** A refused or failing input changes at most the random seed, and that only if it asked for a random one. */
  lemma FailureChangesOnlyTheSeed(w: World, st: State, input: Input)
    requires Handle(w, st, input).1.Failure? || Handle(w, st, input).1.Threw?
    ensures var st' := Handle(w, st, input).0;
            && st' == st.(seed := st'.seed)
            && (st'.seed != st.seed ==> input.BuySeed? && input.which.Random?)
  {
  }

  // ---- The script ----

  class Game {
    const world: World
    var RandomSeed: Seed
    var User2Balance: map<User, int>
    var UserList: seq<User>
    var User2Plants: map<User, seq<Plant>>
    var LastTimestamp: int

    /** `setRandomSeed` runs before any input. */
    constructor (world: World, seed: Seed)
      ensures this.world == world && AsState() == Initial(seed)
    {
      this.world := world;
      RandomSeed := seed;
      User2Balance := map[];
      UserList := [];
      User2Plants := map[];
      LastTimestamp := 0;
    }

    function AsState(): State
      reads this
    {
      State(User2Balance, UserList, User2Plants, LastTimestamp, RandomSeed)
    }

    method HandleInput(input: Input) returns (out: Output)
      modifies this
      ensures (AsState(), out) == Handle(world, old(AsState()), input)
    {
      match input {
        case DepositCoins(user, amount) => out := DepositHandler(user, amount);
        case BuySeed(user, which, timestamp) => out := BuySeedHandler(user, which, timestamp);
        case Irrigate(user, plantIndex, timestamp) => out := IrrigateHandler(user, plantIndex, timestamp);
        case FinishBlock(timestamp) => out := FinishBlockHandler(timestamp);
        case Unknown => out := Nothing;
      }
    }

    method DepositHandler(user: User, amount: int) returns (out: Output)
      modifies this
      ensures (AsState(), out) == Deposit(old(AsState()), user, amount)
    {
      if user in User2Balance {
        var before := User2Balance[user];
        User2Balance := User2Balance[user := amount + before];
      } else {
        UserList := UserList + [user];
        User2Balance := User2Balance[user := amount];
      }
      out := Success;
    }

    method BuySeedHandler(user: User, which0: Choice, timestamp: int) returns (out: Output)
      modifies this
      ensures (AsState(), out) == Buy(world, old(AsState()), user, which0, timestamp)
    {
      if user !in User2Balance {
        return Failure("no such user");
      }
      var which := which0;
      var price := (FAST_SEED_PRICE + SLOW_SEED_PRICE) / 2;
      if which == Fast {
        price := FAST_SEED_PRICE;
      } else if which == Slow {
        price := SLOW_SEED_PRICE;
      } else {
        var randNum := world.u32(RandomSeed, 0);
        if randNum % 1000 < 400 {
          which := Slow;
        } else {
          which := Fast;
        }
        RandomSeed := world.mixUser(RandomSeed, user);
      }
      var growSpeed := if which == Slow then SLOW_GROWN_HEIGHT else FAST_GROWN_HEIGHT;
      var oldBalance := User2Balance[user];
      if oldBalance < price {
        return Failure("balance not enough for " + Name(which));
      }
      User2Balance := User2Balance[user := oldBalance - price];
      var plants := if user in User2Plants then User2Plants[user] else [];
      plants := plants + [Plant(0, growSpeed, timestamp)];
      User2Plants := User2Plants[user := plants];
      out := Bought(which);
    }

    method IrrigateHandler(user: User, plantIndex: int, timestamp: int) returns (out: Output)
      modifies this
      ensures (AsState(), out) == Water(old(AsState()), user, plantIndex, timestamp)
    {
      if user !in User2Plants {
        return Failure("no such user");
      }
      var plants := User2Plants[user];
      if plantIndex >= |plants| {
        return Failure("no such plant");
      }
      if plantIndex < 0 {
        return Threw;
      }
      var plant := plants[plantIndex];
      if timestamp < plant.lastIrrigateTime + 3600 * 24 {
        return Failure("already irrigated today");
      }
      plant := plant.(lastIrrigateTime := timestamp);
      plant := plant.(height := plant.height + plant.growSpeed);
      User2Plants := User2Plants[user := plants[plantIndex := plant]];
      out := Success;
    }

    method FinishBlockHandler(timestamp: int) returns (out: Output)
      modifies this
      ensures (AsState(), out) == Finish(world, old(AsState()), timestamp)
    {
      RandomSeed := world.mixTime(RandomSeed, timestamp);
      if timestamp < LastTimestamp + 3600 || |UserList| == 0 {
        return Nothing;
      }
      LastTimestamp := timestamp;
      var userIndex := world.u32(RandomSeed, 0) % |UserList|;
      var user := UserList[userIndex];
      if user !in User2Plants {
        return Nothing;
      }
      var plants := User2Plants[user];
      if |plants| == 0 {
        return Nothing;
      }
      var plantIndex := world.u32(RandomSeed, 4) % |plants|;
      var plant := plants[plantIndex];
      if plant.height < BIRD_EATEN_HEIGHT {
        return Nothing;
      }
      plant := plant.(height := plant.height - BIRD_EATEN_HEIGHT);
      User2Plants := User2Plants[user := plants[plantIndex := plant]];
      out := BirdEats(userIndex, plantIndex, plant);
    }
  }
}
