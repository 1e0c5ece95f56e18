# Verified models of the EGVM scripts, types and services

This project models the parts of EGVM whose correctness matters most and proves what they promise.
It covers the MCDEX call auction, the ordered maps and their byte format, hierarchical key derivation, Merkle proofs,
the farming game, the sandbox allocator, signed 256-bit arithmetic and the coin shuffle with its escrow contract.

`dafny verify dfyconfig.toml` checks all of it.

## How the models are built

Code that updates objects or variables is written as classes, methods and loops.
Each such method is proved to compute a function on values, and the results are lemmas about those functions.
An exception, a Go panic or a Solidity revert is a value (`Throw`, or `None` for a revert), never a precondition.

| files | part of the repository |
|---|---|
| `AuctionBook`, `AuctionPricing`, `AuctionChoice`, `AuctionPrice`, `AuctionStall`, `AuctionRun`, `AuctionPriority`, `Auction` | the call auction of `mcdex.js` |
| `MsgPack`, `OrderedTree`, `MapCodec`, `OrderedMaps` | the ordered maps and their serializer |
| `KeyGrantor`, `KeyPaths` | `DeriveKey` |
| `Merkle` | Merkle proof verification |
| `FarmGame` | the script of the farming game |
| `SandboxPool` | the sandbox manager |
| `Words` | `Uint256` and `Sint256` |
| `CoinShuffle`, `CoinEscrow` | the lambda's payout and the contract |
| `Prelude` | powers of two, results, byte strings, sorting |

### Notes on faithfulness

- **Sorting.** `Sorting.Sort` promises a permutation in which no later element compares as strictly before an earlier one.
  Callers see only that, so nothing depends on the order of ties, which the script's inconsistent comparators leave open.
- **Skipped orders.** `ExecuteOrder` shifts the list under its running index: once its first counterparty is filled and gone,
  it passes over the next one. The model keeps this. The volume, conservation and termination results hold all the same,
  but orders are not served in their order, neither by price nor by time. On bids `[10 x 8]` and asks `[3 x 1, 5 x 5, 7 x 5]`
  the auction fills the ask at 7 and leaves 3 of the better and older one at 5, whatever the reference prices
  (`AuctionPriority.BetterAskIsPassedOver`). One call serves in order exactly if the order meets no more than the first
  counterparty, or nothing eligible waits behind the next live one (`AuctionPriority.FillsInOrderExactly`).
  All calls of a round do exactly if the book is `Orderly` at the price; then the round takes its volume off the front of
  both lists. Two simple cases are few orders (`FewOrdersAreOrderly`) and orders of one size (`OneSizeServesTheFront`).
- **A tie listed twice.** The list of least imbalanced points takes its later entries from another list than its first,
  so an entry can repeat. The model keeps this too; `AuctionChoice.Ties` allows it.
- **Filled orders.** Lists may hold filled orders anywhere, as the lists that an auction leaves behind do.
  If a filled order is at a head, the heads can cross although nothing can trade, and then the price chosen first may lie
  outside the heads: nothing is executed, the same round is repeated, and the loop never ends
  (`AuctionStall.FilledHeadsCanStall`). It ends exactly if the heads do not cross or the first price lies between them
  (`AuctionStall.LoopEndsExactly`). A caller can check this beforehand (`AuctionStall.AlwaysSettlesExactly`):
  no reference prices can stall the loop if and only if the lists do not overlap, or live orders of the two sides do,
  or every order price of least live demand plus live supply lies between the heads.
  That is all `Match` requires of the amounts (`AuctionStall.Settles`). Positive amounts are enough, and so is what an auction
  leaves with live heads, with any number of live orders added (`AuctionStall.LeftoversSettle`).
- **Zero middle price.** With several ties in odd number the script then reads a fractional index and throws
  (`AuctionPrice.SelectThrowsOnOddTies`).
- **Large totals.** The imbalance is computed in two's complement. Below 2^255 it is exact and nothing throws.
  In general choosing a price throws exactly if a side totals 2^256 or more, or the signed subtraction or absolute value
  fails at some order price, or several ties in odd number meet a middle price of zero (`AuctionPrice.GetExecutionPrice`,
  `AuctionPrice.PriceExists`). The maximum volume result holds whenever it does not throw.
- **Retries in `DeriveKey`.** The comment at keygrantor/keygrantor.go:74-78 promises that failing indices are retried.
  The code assigns `key` even when `NewChildKey` fails. If that call then hands back nil, as is usual in Go, the next try dereferences nil.
  `keepsKey` covers both behaviours of the library, which is not part of this model. With nil the call throws exactly if
  a first index fails at some depth; otherwise the documented retries happen. The comment also lists bits 8 to 32,
  which are 25 positions, for 24 recorded bits; the fields are bits 8-10, 11-13, ..., 29-31.
- **Size estimates.** A load replaces the estimate by the bytes it read. The keys and values stored never exceed the estimate
  in any history of updates and successful loads, so `SerializeMaps` never asks for a negative capacity
  (`MapCodec.PayloadWithinEstimate`). After a load the dump itself can be longer than the estimate
  (`MapCodec.LoadedEstimateCanFallShort`), but by no more than ten bytes per entry. A load that fails leaves the old estimate
  beside the entries read so far; both readers then throw and drop the map.
- **Bytes.** Integers are written in the shortest signed MessagePack format and read in any integer format.
- **Task identifiers.** The lambda reads the amount byte at offset 25 of a 32-byte identifier that ends in a zero byte
  (examples/coinshuffle/CoinShuffle.lambda.js:8-13), the contract takes bits 40-47 of a 248-bit one (CoinShuffle.sol:28, 51).
  The two layouts differ by a byte. Under the lambda's own layout its hash chain therefore starts from the identifier
  shifted by a byte, and the text it signs has a byte more than the one the contract checks (CoinShuffle.lambda.js:34,
  CoinShuffle.sol:66). As written, then, a signature of the lambda passes the contract's check only if the hashes of
  two such texts happen to coincide. That is an observation on the two files; no lemma states it. The results about the escrow are about the contract together with a lambda that uses the contract's layout, which is what the model has for both.
- **Hash of the coin shuffle.** The contract cuts its hash to 248 bits, so collisions exist. The solvency results hold for
  every hash function: a run either stays solvent, or a collision, an input that hashes to a task, or one that hashes to
  zero is computed from the run (`CoinEscrow.RunClash`).
- **One map class.** The three ordered maps differ in their values only, so one class with a `kind` stands for them.

## Model

| member | source | states |
|---|---|---|
| AuctionBook.FillEffect | examples/mcdex/egvmscripts/mcdex.js:534-558 | Whatever `ExecuteOrder` skips: the order and its eligible counterparties lose exactly the amount of the deals, every deal is fair and at the price, other live orders are untouched, the rest stays sorted, and once it has dealt no filled order is left at the head |
| AuctionBook.FillProgress | examples/mcdex/egvmscripts/mcdex.js:534-558 | If both are eligible, `ExecuteOrder` fills its order or removes a counterparty, also when one of them was filled before |
| AuctionBook.ExecuteSteps | examples/mcdex/egvmscripts/mcdex.js:513-531 | On any sorted lists `ExecuteOrderList` ends with a side exhausted, both sides having lost the amount of the new deals; if it could start at all it removes an order and leaves live heads |
| AuctionBook.ExecuteTradesTheMinimum | examples/mcdex/egvmscripts/mcdex.js:513-558 | On any sorted lists executing a price trades exactly the lesser of the eligible bids and the eligible asks and leaves every live ineligible order as it was |
| AuctionPricing.CreatePricePointList | examples/mcdex/egvmscripts/mcdex.js:595-626 | One point per order price, with the same demand and supply at every price as the orders; throws if and only if at some price one side adds up to 2^256 or more |
| AuctionPricing.CurveOfPermutation | examples/mcdex/egvmscripts/mcdex.js:724-729 | Sorting the points does not change the curve |
| AuctionChoice.PrefixIsDemand | examples/mcdex/egvmscripts/mcdex.js:731-735 | Prefix sums over falling prices are the bids at or above each price |
| AuctionChoice.SuffixIsSupply | examples/mcdex/egvmscripts/mcdex.js:737-741 | Suffix sums are the asks at or below each price |
| AuctionChoice.AccumulateForPricePointList | examples/mcdex/egvmscripts/mcdex.js:723-752 | Every point gets the tradable volume at its price and the checked 256-bit imbalance; throws if and only if a total does not fit a word or the signed subtraction or absolute value fails at some price |
| AuctionChoice.CountTops | examples/mcdex/egvmscripts/mcdex.js:634-664 | The tie lists are exactly as long as there are points of most volume and, among them, least imbalance |
| AuctionChoice.TopsComeFirst | examples/mcdex/egvmscripts/mcdex.js:656-664 | Entries taken from the other list are ties as well |
| AuctionChoice.TopPointsAreTopPrices | examples/mcdex/egvmscripts/mcdex.js:634-664 | However the points are sorted, there are as many ties as order prices that no other order price beats by volume and then imbalance |
| AuctionChoice.CalculateExecutionPrice | examples/mcdex/egvmscripts/mcdex.js:630-720 | The price is the one decided by market pressure on a list of ties in an open order: with no more sellers than buyers at any of them it moves to the high price, with more sellers at some and more buyers at none to the low price, with both to the middle price, and stops at the first or last tie if that is in the way |
| AuctionChoice.SelectsWhatIsDecided | examples/mcdex/egvmscripts/mcdex.js:669-720 | The rule returns a price if and only if it is the one decided in that sense; without a middle price that is the tie with as many before it as from it on |
| AuctionPrice.SelectedBetweenTies | examples/mcdex/egvmscripts/mcdex.js:669-720 | The chosen price lies between the prices of two ties |
| AuctionPrice.AllowedIsDecided | examples/mcdex/egvmscripts/mcdex.js:562-720 | The prices the rules allow for a book are exactly those decided on some ties of it |
| AuctionPrice.PressureMovesThePrice | examples/mcdex/egvmscripts/mcdex.js:684-710 | If bids cover asks at every unbeaten price of a book the price moves to the high price between two of them; if they fall short at every one, to the low price |
| AuctionPrice.MixedPressureMovesToMiddle | examples/mcdex/egvmscripts/mcdex.js:711-719 | With two unbeaten prices of each pressure it moves to the middle price |
| AuctionPrice.TowardsIsNearest | examples/mcdex/egvmscripts/mcdex.js:691-719 | On given ties the rule picks the price nearest to the reference in their span, whatever the reference, if and only if the first tie is not below the last |
| AuctionPrice.NearestExactlyWithoutTies | examples/mcdex/egvmscripts/mcdex.js:647-719 | As the order of ties is open, the choice for a book is sure to be nearest to its reference if and only if no more than one order price is unbeaten |
| AuctionPrice.SelectThrowsOnOddTies | examples/mcdex/egvmscripts/mcdex.js:674-682 | The choice throws if and only if the middle price is zero and there is an odd number of several ties |
| AuctionPrice.GetExecutionPrice | examples/mcdex/egvmscripts/mcdex.js:562-567 | Returns a price the rules allow for the book, and throws if and only if the curve cannot be measured or an odd number of several ties meets a zero middle price |
| AuctionPrice.PriceExists | examples/mcdex/egvmscripts/mcdex.js:562-720 | There is a price the rules allow for a book exactly under that condition |
| AuctionPrice.BestAtSomePoint | examples/mcdex/egvmscripts/mcdex.js:562-567 | Any natural number trades at most what some order price trades |
| AuctionPrice.ChosenPriceHasMaximumVolume | examples/mcdex/egvmscripts/mcdex.js:562-720 | No natural number as a price could trade more on the book than the chosen price, also when that is a reference price between two ties |
| AuctionPrice.ChosenPriceHasLeastImbalance | examples/mcdex/egvmscripts/mcdex.js:647-664 | No order price of the same volume leaves a smaller absolute imbalance |
| AuctionPrice.ChosenPriceIsBetweenBest | examples/mcdex/egvmscripts/mcdex.js:505-507 | On sorted lists with any amounts: if any price trades something, the chosen price does and lies between best ask and best bid |
| AuctionStall.LoopEndsExactly | examples/mcdex/egvmscripts/mcdex.js:505-508 | On sorted lists with any amounts the loop of `Match` ends if and only if it does not start, choosing throws, or its first price lies between the heads |
| AuctionStall.SettledExactlyIfEnding | examples/mcdex/egvmscripts/mcdex.js:505-508 | For given reference prices the loop ends, for every way of choosing prices that throws exactly where the code does, exactly on the books that `Settles` describes |
| AuctionStall.SettlesIfTopsAreInside | examples/mcdex/egvmscripts/mcdex.js:505-720 | No reference prices can stall an overlapping book if and only if every order price that no other beats lies between best ask and best bid |
| AuctionStall.AlwaysSettlesExactly | examples/mcdex/egvmscripts/mcdex.js:505-720 | Below 2^255 no reference prices can stall a book if and only if its sides do not overlap, or live orders of them do, or all order prices of least live demand plus supply lie between best ask and best bid |
| AuctionStall.LiveOverlapSettles | examples/mcdex/egvmscripts/mcdex.js:505-508 | If live orders overlap no reference prices can stall the book |
| AuctionStall.LeftoversSettle | examples/mcdex/egvmscripts/mcdex.js:501-509 | A sorted book with live heads, with any number of live orders added, settles; so does every book of live orders |
| AuctionStall.FilledHeadsCanStall | examples/mcdex/egvmscripts/mcdex.js:505-508 | A crossing book on which any reference prices can stall the loop |
| AuctionRun.RoundTradesTheMaximum | examples/mcdex/egvmscripts/mcdex.js:505-508 | Every round of a run trades, at one price, the most any price could trade on its book and leaves live ineligible orders alone |
| AuctionRun.RoundTradesSomething | examples/mcdex/egvmscripts/mcdex.js:505-508 | That is more than nothing in every round after the first, and in the first too if the heads are live |
| AuctionRun.RunConserves | examples/mcdex/egvmscripts/mcdex.js:501-509 | Over a run both sides lose the total of the deals, no order more than it has, every deal within both limits, lists only shortened at the head |
| AuctionRun.RunIsBounded | examples/mcdex/egvmscripts/mcdex.js:505-508 | A run whose first price lies between the heads has no more rounds than orders it removes |
| AuctionRun.UncrossedHeadsUncrossAll | examples/mcdex/egvmscripts/mcdex.js:505-509 | When the heads do not cross, no remaining ask is at or below a remaining bid |
| AuctionRun.SmallTotalsOfBook | examples/mcdex/egvmscripts/mcdex.js:749-750 | The condition for exact imbalances is that both sides total less than 2^255 |
| AuctionPriority.FillsInOrderExactly | examples/mcdex/egvmscripts/mcdex.js:534-558 | On any sorted list, with filled orders or without, `ExecuteOrder` takes from the front, first come, first served, if and only if the order meets no more than the head or nothing eligible waits behind the next live order; then it trades with the head only |
| AuctionPriority.WaitingOfLive | examples/mcdex/egvmscripts/mcdex.js:534-558 | Among live orders that second case means that the third is missing or not eligible |
| AuctionPriority.RoundServesInOrderExactly | examples/mcdex/egvmscripts/mcdex.js:513-558 | All calls of `ExecuteOrder` in a round serve in order if and only if that condition holds at every turn of head against head |
| AuctionPriority.OrderlyRoundServesTheFront | examples/mcdex/egvmscripts/mcdex.js:513-558 | Then the round takes exactly its volume off the front of both lists |
| AuctionPriority.OrderlyRunServesTheFront | examples/mcdex/egvmscripts/mcdex.js:501-558 | If every round of a run is like that, the run takes exactly the amount of its deals off the front of both lists |
| AuctionPriority.FewOrdersAreOrderly | examples/mcdex/egvmscripts/mcdex.js:513-558 | So it is if on neither side anything eligible waits behind the next live order |
| AuctionPriority.OneSizeServesTheFront | examples/mcdex/egvmscripts/mcdex.js:501-558 | With orders of one size every run is first come, first served, whatever the reference prices |
| AuctionPriority.BetterAskIsPassedOver | examples/mcdex/egvmscripts/mcdex.js:501-558 | A book on which, whatever the reference prices, the auction fills the dearest ask and leaves a better and older one |
| AuctionPriority.SkipBookIsTraded | examples/mcdex/egvmscripts/mcdex.js:501-558 | The auction does run on that book for any reference prices with a middle price |
| Auction.Order.Deal | examples/mcdex/egvmscripts/mcdex.js:471-476 | Takes the amount from both orders and prints both as they were; fails if and only if one has less than the amount, and if that is the second one the first has been reduced |
| Auction.OrderList.ClearZeroOrderList | examples/mcdex/egvmscripts/mcdex.js:570-574 | Removes filled orders from the front and no others |
| Auction.ExecuteOrder | examples/mcdex/egvmscripts/mcdex.js:534-558 | The in-place loop does what `FillFrom` says, the list being a suffix of the original whose removed orders are filled |
| Auction.ExecuteOrderList | examples/mcdex/egvmscripts/mcdex.js:513-531 | On any sorted lists the in-place loop does what `ExecuteAt` says |
| Auction.ComparatorIsStrictOrder | examples/mcdex/egvmscripts/mcdex.js:481-495 | On one side of the book the comparator is a strict order, for any hash of the owner |
| Auction.SortOrders | examples/mcdex/egvmscripts/mcdex.js:481-503 | Sorting keeps the orders and puts the best price first, at one price the lowest height, and at one height as well the owner with the smaller hash |
| Auction.SortedIsSeniorFirst | examples/mcdex/egvmscripts/mcdex.js:488-494 | Any list without an inversion under the comparator is ordered by height and then by hash at equal prices |
| Auction.Match | examples/mcdex/egvmscripts/mcdex.js:501-509 | On every book that settles: terminates; starts from exactly the given orders sorted by price, height and hash; is a run on them; what is left are the last of those orders, in the states the run gives them, and all others are filled; bids and asks are filled by the same total; every deal is fair; if it did not throw no remaining ask is at or below a remaining bid; if it threw the heads cross and no price can be chosen, which takes a zero middle price or a total of 2^255 |
| U256.CheckedAgreesWithWrapping | script/types/u256.go:45-56 | Checked addition and subtraction throw exactly where the wrapping ones wrap, and undo each other otherwise |
| S256.ValueIsBijective | script/types/s256.go:10-39 | Words and integers from -2^255 to below 2^255 correspond one to one |
| S256.AddIsExact | script/types/s256.go:57-69 | Addition throws exactly on negative overflow and is exact except for non-negative sums of 2^255 or more |
| S256.SubIsExact | script/types/s256.go:83-92 | Subtraction is exact or throws except for zero minus the minimum |
| S256.MulIsExact | script/types/s256.go:94-107 | Multiplication throws exactly for a minimal operand or a magnitude of 2^256 and is otherwise exact if and only if the product is in range |
| S256.DivIsExact | script/types/s256.go:109-122 | Division throws exactly for a zero divisor or a minimal operand and truncates towards zero otherwise |
| S256.TruncatedQuotientIsUnique | script/types/s256.go:109-122 | Only one integer is the truncated quotient |
| S256.NegAndAbsAreExact | script/types/s256.go:41-55 | Negation and absolute value are exact or throw, exactly at the minimum; negating twice is the identity |
| S256.ComparisonsAreExact | script/types/s256.go:134-173 | The comparisons are those of the integers |
| S256.FromNumberIsExact | script/types/s256.go:28-37 | The constructor accepts exactly the safe integers and the least 64-bit number, and is exact on them |
| S256.SafeIntegerRoundTrip | script/types/s256.go:188-203 | A number put into a word comes back as a safe integer if and only if it is not negative |
| MsgPack.IntRoundTrip | script/types/orderedintmap.go:47-85 | Every 64-bit integer is read back, whatever follows |
| MsgPack.IntTakesShortestFormat | script/types/orderedintmap.go:70-85 | An integer is written in the shortest signed format that holds it, with the lead byte of that format and the bytes of its two's complement, high byte first |
| MsgPack.SignedFormatsAreRead | script/types/orderedintmap.go:47-64 | Integers are read in every signed format |
| MsgPack.UnsignedFormatsAreRead | script/types/orderedintmap.go:47-64 | Integers are read in every unsigned format, except those of 2^63 and more, which are refused |
| MsgPack.StringRoundTrip | script/types/orderedstrmap.go:54-81 | Every string below 2^32 bytes is read back, whatever follows |
| MsgPack.StringFormat | script/types/orderedstrmap.go:79-83 | Where the length of a string is written, byte by byte |
| MsgPack.BytesRoundTrip | script/types/orderedbufmap.go:69-97 | Every byte buffer below 2^32 bytes is read back, whatever follows |
| MsgPack.BytesFormat | script/types/orderedbufmap.go:90-97 | Where the length of a buffer is written, byte by byte |
| Bytes.LessAtFirstDifference | script/types/orderedstrmap.go:41-45 | Of two keys the one with the smaller byte at the first difference comes first |
| OrderedTree.SortedListIsUnique | script/types/orderedstrmap.go:41-45 | Only one sorted list has given contents |
| OrderedTree.HistoryInvariant | script/types/orderedstrmap.go:87-119 | After any history the keys ascend strictly and are not empty, the contents are those of an abstract map, and the estimate is at least the sum of 10 plus key and value lengths |
| OrderedTree.SameEffectSameTree | script/types/orderedstrmap.go:87-119 | Two histories end in the same tree if and only if they have the same effect on an abstract map |
| OrderedTree.StepKeepsPayload | script/types/orderedstrmap.go:87-119 | From any state in which keys and values are within the estimate, every update keeps them so |
| OrderedTree.SlackOfStep | script/types/orderedstrmap.go:87-119 | The estimate follows the weight of the entries exactly, except that a deletion leaves 10 and the length of the value behind |
| MapCodec.LoadOfDump | script/types/orderedstrmap.go:47-85 | Loading a dump gives the same entries and leaves exactly the bytes that followed |
| MapCodec.RoundTripExactlyWithoutEmptyKey | script/types/orderedstrmap.go:79-83 | A dump loads back to the same entries if and only if no key is empty |
| MapCodec.DumpIsPrefixFree | script/types/orderedintmap.go:70-85 | Dumps followed by arbitrary bytes are equal only for equal entries and equal following bytes |
| MapCodec.DumpIsCanonical | script/types/orderedstrmap.go:70-119 | Histories with equal effects dump to equal bytes, others to bytes that differ even when followed by anything |
| MapCodec.DumpInOrder | script/types/orderedstrmap.go:77-84 | Entries are dumped one after the other in the order of the tree |
| MapCodec.IntMapOnTheWire | script/types/mapcodec.go:33-48 | The bytes of an integer map with two entries |
| MapCodec.StrAndBufMapOnTheWire | script/types/mapcodec.go:33-48 | The bytes of a string map and of a buffer map with one entry |
| MapCodec.LoadCollectsEntries | script/types/orderedstrmap.go:47-68 | A load takes entries in any order, the last one of several with one key counts, and it fails exactly if an entry cannot be read |
| MapCodec.NoEntriesLoaded | script/types/orderedstrmap.go:47-68 | A count of zero or less reads nothing |
| MapCodec.EstimateCoversDump | script/types/orderedbufmap.go:84-143 | After any history the dumped entries take at most the estimated size: for string and buffer maps always, for integer maps while stored keys have at most 31 bytes |
| MapCodec.LongKeyExceedsEstimate | script/types/orderedintmap.go:70-118 | Storing one number under any longer key makes an integer map exceed its estimate |
| MapCodec.IntEstimateHoldsForShortKeysOnly | script/types/orderedintmap.go:70-118 | For integer maps the estimate covers every history with keys up to a length if and only if that length is at most 31 |
| MapCodec.LoadEstablishesPayload | script/types/orderedstrmap.go:47-68 | A load that succeeds sets an estimate above the sum of the lengths it stores |
| MapCodec.PayloadWithinEstimate | script/types/mapcodec.go:17-31 | In every history of updates and loads the lengths of keys and values are within the estimate, which is never negative |
| MapCodec.EstimateNearlyCoversDump | script/types/mapcodec.go:17-31 | In such a history the dumped entries exceed the estimate by at most ten bytes per entry |
| MapCodec.LoadedEstimateCanFallShort | script/types/orderedstrmap.go:66-115 | After a load and one update the dumped entries can exceed the estimate |
| MapCodec.SerializedMapsAreReadBack | script/types/mapcodec.go:17-110 | Reading a serialized list of mixed maps with its tags gives the same maps in order and leaves what followed |
| MapCodec.OtherTagIsRefused | script/types/mapcodec.go:79-85 | A serialized map is refused under any tag but its own |
| MapCodec.SerializedIsPrefixFree | script/types/mapcodec.go:33-50 | Serialized lists of the same kinds with equal bytes are equal |
| OrderedMaps.OrderedMap.Set | script/types/orderedstrmap.go:107-119 | Throws exactly on the empty key and then changes nothing; otherwise stores the value and adjusts the estimate |
| OrderedMaps.OrderedMap.Delete | script/types/orderedstrmap.go:92-97 | Removes the entry and takes only the key length off the estimate |
| OrderedMaps.OrderedMap.LoadFrom | script/types/orderedstrmap.go:47-68 | The loop reads what `Load` says and sets the estimate to the bytes consumed; after an error the entries read so far remain |
| OrderedMaps.OrderedMap.DumpTo | script/types/orderedstrmap.go:70-85 | The loop appends exactly the dump |
| OrderedMaps.SerializeMaps | script/types/mapcodec.go:17-50 | Panics if and only if the reserved capacity is negative, which it never is for maps made by updates and successful loads; otherwise writes every map with its tag, in order |
| OrderedMaps.DeserializeMap | script/types/mapcodec.go:52-107 | Returns the first map and the remaining bytes, or throws |
| OrderedMaps.OrderedMapReader.Read | script/types/mapcodec.go:134-178 | Agrees with `DeserializeMap` on the remaining bytes for every input, and keeps them if it throws |
| Bytes.FirstByteIsHighest | keygrantor/keygrantor.go:81 | The first byte of the hash is the most significant one of its number |
| KeyGrantor.DeriveLevel | keygrantor/keygrantor.go:87-100 | One depth: the first succeeding index after wrap-around increments, retries counted in `lastAdd`, or an exception |
| KeyGrantor.DeriveKey | keygrantor/keygrantor.go:79-104 | The nested loops compute the nine-depth descent; they throw exactly if a failed derivation hands back nil and some first index fails |
| KeyPaths.LastAddPacksRetries | keygrantor/keygrantor.go:82-101 | With at most 7 retries at each depth, `lastAdd` is 256 times their octal number and never wraps |
| KeyPaths.LastIndexHoldsRetries | keygrantor/keygrantor.go:90-98 | The last index does not wrap and its 3-bit fields are the retry counts |
| KeyPaths.PathDeterminesNumber | keygrantor/keygrantor.go:79-104 | The nine indices decode to the 256-bit hash |
| KeyPaths.PathDeterminesHash | keygrantor/keygrantor.go:79-104 | Different hashes never share a path, whatever the roots and the failing indices, while the retries are recorded |
| KeyPaths.PathLeadsToKey | keygrantor/keygrantor.go:79-104 | The derived key is the descendant of the root along the returned indices |
| KeyPaths.PassedIndicesFail | keygrantor/keygrantor.go:87-100 | Every index that was passed over is one at which the derivation fails |
| KeyPaths.UnrecordedRetriesCollide | keygrantor/keygrantor.go:90-101 | The bounds are tight at every depth: with 8 retries at any of the depths 0-7, or one at depth 8, two different 256-bit numbers share a path and a derived key |
| KeyPaths.PublicDerivationAgrees | keygrantor/keygrantor.go:79-104 | While every tried index is non-hardened, the public root leads to the public derived key along the same path |
| KeyPaths.WithoutRetriesAllHolds | keygrantor/keygrantor.go:79-104 | A derivation that does not retry satisfies both results with no further condition |
| Merkle.VerifyMerkleProof | script/extension/merkle.go:15-35 | Throws exactly on a leaf that is not 32 bytes or a proof that is not a multiple of 32, and otherwise accepts exactly if folding the pieces, lowest first, gives the root |
| Merkle.SmallerPartFirst | script/extension/merkle.go:37-48 | Of two parts the one with the smaller byte at the first difference is written first, whichever comes as node |
| Merkle.LowestNodeFirst | script/extension/merkle.go:25-32 | The first 32 bytes of a proof are combined with the leaf, the others with what comes out of that |
| Merkle.TwoLeavesAreAccepted | script/extension/merkle.go:15-48 | Each of two leaves is accepted with the other as proof against the hash of the smaller followed by the greater |
| Merkle.CombineIsInjective | script/extension/merkle.go:37-48 | A combination of two 32-byte hashes determines them up to order |
| Merkle.SiblingsFoldToRoot | script/extension/merkle.go:25-32 | In a tree of any shape every subtree folds to the root along its siblings |
| Merkle.EveryLeafIsAccepted | script/extension/merkle.go:15-35 | Every leaf's sibling path is accepted against the root |
| Merkle.AcceptedHasReason | script/extension/merkle.go:25-34 | Any accepted proof against any tree follows a path to a subtree with that hash, or yields a collision, or a preimage of a leaf |
| Merkle.AcceptedStartsFromALeaf | script/extension/merkle.go:15-35 | Against a perfect tree an accepted proof of full length starts from a leaf and lists its siblings, or yields two colliding inputs |
| Merkle.AcceptedProofsDiffer | script/extension/merkle.go:15-35 | Two different claims accepted at full length against a perfect tree are about two leaves of it at different paths, or a collision is computed from one of them |
| FarmGame.RunIsGood | script/cmd/script.js:31-112 | In every run each balance is what the user deposited less 50 per fast, 20 per slow and 35 per random seed bought; each plant stands at its speed times its waterings less 10 per visit of the bird, with speed 200 if it was answered slow and 500 otherwise, was watered last when recorded and at most once a day; the users are listed once in the order of their first deposits; 3600 times the bird's visits is at most the last timestamp |
| FarmGame.BalancesPlusPricesAreDeposits | script/cmd/script.js:31-71 | In every run the user list enumerates the balances once, and balances and prices paid add up to the deposits |
| FarmGame.GrowthIsBounded | script/cmd/script.js:73-88 | In every run a plant has grown at most once per day between planting and last watering, and is not negative |
| FarmGame.BuyIsAnsweredExactly | script/cmd/script.js:42-71 | When a seed is sold and as what, what it costs, the plant it gives, and that a random one changes the seed |
| FarmGame.WaterIsAnsweredExactly | script/cmd/script.js:73-88 | Watering succeeds exactly a day after the last time; it raises exactly that plant by its speed, stamps its time and leaves everything else |
| FarmGame.BirdIsAnsweredExactly | script/cmd/script.js:90-112 | When the bird comes, to which plant, and what it and the block change |
| FarmGame.BalancesStayNonNegative | script/cmd/script.js:31-71 | With non-negative deposits no balance is ever negative |
| FarmGame.StepKeepsNonNegative | script/cmd/script.js:31-71 | A step makes a balance negative if and only if it is a deposit that reaches below zero |
| FarmGame.FailureChangesOnlyTheSeed | script/cmd/script.js:42-88 | A refused or throwing input changes nothing but the seed, and that only if a random seed was asked for |
| FarmGame.Game.HandleInput | script/cmd/script.js:16-29 | The handlers on the global maps do what the functions on values say |
| SandboxPool.RunIsGood | egvm-invoker/executor/manager.go:34-61 | Under every interleaving no two calls in flight hold one sandbox, and exactly the held and the failed ones are marked, even after refusals marked nil |
| SandboxPool.MarksAreWhatHappened | egvm-invoker/executor/manager.go:34-61 | Under every interleaving a sandbox is marked exactly while a job has it or after a job failed on it, and nil is in the map exactly after a refusal |
| SandboxPool.SandboxesAddUp | egvm-invoker/executor/manager.go:34-61 | Idle, in-flight and failed sandboxes add up to the initial number |
| SandboxPool.RefusedExactlyWhenNoneIsIdle | egvm-invoker/executor/manager.go:34-38 | A job is refused if and only if every sandbox is in flight or failed, and otherwise gets an idle one |
| SandboxPool.FailedIsNeverHandedOut | egvm-invoker/executor/manager.go:39-45 | After a call fails on a sandbox no later call gets it |
| SandboxPool.SandboxManager.FindIdleSandbox | egvm-invoker/executor/manager.go:48-61 | The walk over the map is one atomic step, in any order |
| SandboxPool.SandboxManager.Finish | egvm-invoker/executor/manager.go:39-45 | The release is one atomic step; after an error the sandbox stays marked |
| CoinShuffle.FieldsAreReadBack | examples/coinshuffle/CoinShuffle.sol:28-71 | Coin, due time and amount byte are read back from a composed task identifier |
| CoinShuffle.BaseOfByte | examples/coinshuffle/CoinShuffle.sol:30-32 | The byte 32c + d stands for (c + 1) * 10^d |
| CoinShuffle.CreateIsAcceptedExactly | examples/coinshuffle/CoinShuffle.sol:34-41 | A task is created exactly if it is not open, its last byte is zero and its due time is less than two days ahead |
| CoinShuffle.JoinIsAcceptedExactly | examples/coinshuffle/CoinShuffle.sol:43-62 | A join is accepted exactly before the due time, with an amount from the base to less than 12% above that the sender has, for a task open to fewer than 32 records or one that can be created; it changes that task and the two balances only |
| CoinShuffle.SumUp | examples/coinshuffle/CoinShuffle.lambda.js:18-28 | The loop adds up the amounts and collects the decrypted receivers |
| CoinShuffle.Divide | examples/coinshuffle/CoinShuffle.lambda.js:29-32 | Fee and shares are covered by the total, what is left is less than one unit per receiver, and a share is at least the base amount |
| CoinShuffle.ComputePayout | examples/coinshuffle/CoinShuffle.lambda.js:13-33 | The payout hands out the collected amounts as promised; within the contract's limits it throws exactly if nothing could be decrypted |
| CoinShuffle.LimitsBoundTheSum | examples/coinshuffle/CoinShuffle.sol:51-56 | Within the contract's limits the amounts cover the base amounts and cannot overflow |
| CoinShuffle.EqualChainsClash | examples/coinshuffle/CoinShuffle.sol:57-60 | From two lists of records with one chain value a collision, or an input that hashes to the task, is computed |
| CoinEscrow.AcceptedIsCovered | examples/coinshuffle/CoinShuffle.sol:64-77 | A payout with a valid signature was computed for exactly the records that joined that task and was collected by it, or a clash of the hash is computed |
| CoinEscrow.FinishIsGood | examples/coinshuffle/CoinShuffle.sol:64-77 | In a solvent state an accepted payout never lacks funds and leaves the contract solvent, or a clash of the hash is computed |
| CoinEscrow.AlwaysSolvent | examples/coinshuffle/CoinShuffle.sol:34-77 | For any hash and over any run of interleaved tasks the contract's balance in every coin covers all open tasks in it, or a clash of the hash is computed from the run |
| CoinEscrow.AcceptedIsPaid | examples/coinshuffle/CoinShuffle.sol:64-77 | In such a run every payout that is accepted is paid in full, or a clash of the hash is computed |
| CoinEscrow.RecordsJoinedInTime | examples/coinshuffle/CoinShuffle.sol:43-62 | In every run each record of an open task came from an accepted call before the due time of the task |
| CoinEscrow.FinishPaysEveryone | examples/coinshuffle/CoinShuffle.sol:70-76 | Finishing credits each receiver with the amount, the caller with the fee, and nobody else, and removes exactly that task |
| CoinEscrow.Contract.TryJoin | examples/coinshuffle/CoinShuffle.sol:43-62 | The steps of `joinTask` in their order, reverting where the contract reverts |
| CoinEscrow.Contract.FinishTaskCall | examples/coinshuffle/CoinShuffle.sol:64-77 | The transfers of `finishTask`, all of them or none |

## Left out

- Auction.Match: requires a book that settles, since on others the source can loop for ever (`AuctionStall.SettledExactlyIfEnding`).
- AuctionBook.ExecuteTradesTheMinimum: speaks of live orders; an order filled earlier may be dropped at a price it is not eligible for.
- The order of price points that tie in everything: the source does not provide one.
- KeyGrantor.DeriveKey: requires that every key has some valid index; otherwise the source's retry loop need not end.
- KeyPaths.PathDeterminesHash: more than 7 retries at a depth and any at the last are outside it; the result fails there (`KeyPaths.UnrecordedRetriesCollide`).
- OrderedMaps.OrderedMap.DumpTo: lengths of 2^32 and more are outside it; their headers would be truncated.
- MapCodec.EstimateCoversDump: histories with a load are outside it; it fails there (`MapCodec.LoadedEstimateCanFallShort`).
- OrderedMaps.OrderedMap.Set: values are copied, while the source's buffer map keeps a reference to the caller's buffer.
- CoinEscrow.Contract.FinishTaskCall: the signature check is taken to accept exactly what the lambda signs.
- FarmGame.RunIsGood: amounts and times are integers; rounding of JavaScript numbers is not modelled.
- FarmGame.Game: plants are values inside the map, not shared objects.
- SandboxPool.SandboxManager: the sandboxes passed in are not nil, and running a job is whatever happens between the two atomic steps.
- The B-tree, the 256-bit limbs, elliptic curves, hashes, encryption, attestation and the bindings to the JavaScript engine: abstract or absent.
- Shifts, bit operations, hexadecimal and buffer conversions of the number types, and iterators of the maps: they would add only easy members.
- The oracle of `mcdex.js`, network access, the indexers and `MCDEXManager.sol`: plumbing around libraries.
- Decoding and sorting of encrypted records in the lambda beyond the order of receivers.
