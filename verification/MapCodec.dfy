/** Dumping, loading and reading back the ordered maps. */
module MapCodec {
  import opened Prelude
  import opened Bytes
  import opened MsgPack
  import opened OrderedTree

  // ---- Dumping ----

  predicate FitsEntry(kind: Kind, e: Entry) {
    && |e.key| < TWO_32 && HasKind(kind, e.value)
    && match e.value
       case IntV(n) => IsInt64(n)
       case StrV(s) => |s| < TWO_32
       case BufV(b) => |b| < TWO_32
  }

  /** Lengths and integers are within the formats. */
  predicate Fits(kind: Kind, es: seq<Entry>) {
    |es| < TWO_63 && EntriesFit(kind, es)
  }

  predicate EntriesFit(kind: Kind, es: seq<Entry>) {
    forall i | 0 <= i < |es| :: FitsEntry(kind, es[i])
  }

  function AppendValue(kind: Kind, e: Entry): bytes
    requires FitsEntry(kind, e)
  {
    match e.value
    case IntV(n) => AppendInt(n)
    case StrV(s) => AppendString(s)
    case BufV(b) => AppendBytes(b)
  }

  function DumpEntry(kind: Kind, e: Entry): bytes
    requires FitsEntry(kind, e)
  {
    AppendString(e.key) + AppendValue(kind, e)
  }

  /** The loop of `dumpTo`: it ends at an empty key. */
  function DumpEntries(kind: Kind, es: seq<Entry>): bytes
    requires EntriesFit(kind, es)
  {
    if es == [] || es[0].key == [] then [] else DumpEntry(kind, es[0]) + DumpEntries(kind, es[1..])
  }

  function Dump(kind: Kind, es: seq<Entry>): bytes
    requires Fits(kind, es)
  {
    AppendInt(|es|) + DumpEntries(kind, es)
  }

  // ---- Loading ----

  function ReadValue(kind: Kind, b: bytes): Option<Read<Value>> {
    match kind
    case IntMap => (match ReadInt(b) case None => None case Some(r) => Some(Read(IntV(r.value), r.rest)))
    case StrMap => (match ReadString(b) case None => None case Some(r) => Some(Read(StrV(r.value), r.rest)))
    case BufMap => (match ReadBytes(b) case None => None case Some(r) => Some(Read(BufV(r.value), r.rest)))
  }

  function ReadEntry(kind: Kind, b: bytes): Option<Read<Entry>> {
    match ReadString(b)
    case None => None
    case Some(k) =>
      match ReadValue(kind, k.rest)
      case None => None
      case Some(v) => Some(Read(Entry(k.value, v.value), v.rest))
  }

  /** The tree so far, and the bytes left unless reading failed. */
  datatype Loaded = Loaded(tree: seq<Entry>, rest: Option<bytes>)

  /** The loop of `loadFrom`. A count of zero or less reads nothing. */
  function LoadEntries(kind: Kind, b: bytes, count: int, tree: seq<Entry>): Loaded
    decreases if count < 0 then 0 else count
  {
    if count <= 0 then Loaded(tree, Some(b))
    else match ReadEntry(kind, b)
      case None => Loaded(tree, None)
      case Some(r) => LoadEntries(kind, r.rest, count - 1, Put(tree, r.value.key, r.value.value))
  }

  function Load(kind: Kind, b: bytes): Loaded {
    match ReadInt(b)
    case None => Loaded([], None)
    case Some(r) => LoadEntries(kind, r.rest, r.value, [])
  }

  lemma EntryRoundTrip(kind: Kind, e: Entry, rest: bytes)
    requires FitsEntry(kind, e)
    ensures ReadEntry(kind, DumpEntry(kind, e) + rest) == Some(Read(e, rest))
  {
    var v := AppendValue(kind, e);
    assert DumpEntry(kind, e) + rest == AppendString(e.key) + (v + rest);
    StringRoundTrip(e.key, v + rest);
    match e.value
    case IntV(n) => IntRoundTrip(n, rest);
    case StrV(s) => StringRoundTrip(s, rest);
    case BufV(b) => BytesRoundTrip(b, rest);
  }

  predicate NoEmptyKey(es: seq<Entry>) {
    forall i | 0 <= i < |es| :: es[i].key != []
  }

  lemma SortedMove(done: seq<Entry>, es: seq<Entry>)
    requires es != [] && Sorted(done + es)
    ensures (done + [es[0]]) + es[1..] == done + es
    ensures Sorted(done + [es[0]])
  {
    assert (done + es)[..|done| + 1] == done + [es[0]];
  }

  lemma {:induction false} LoadDumpedEntries(kind: Kind, done: seq<Entry>, es: seq<Entry>, rest: bytes)
    requires EntriesFit(kind, es)
    requires NoEmptyKey(es) && Sorted(done + es)
    ensures LoadEntries(kind, DumpEntries(kind, es) + rest, |es|, done) == Loaded(done + es, Some(rest))
    decreases |es|
  {
    hide *;
    if es == [] {
      LoadNothing(kind, es, rest, done);
    } else {
      var tail := DumpFirst(kind, es, rest);
      SortedMove(done, es);
      PutLast(done, es[0]);
      LoadOne(kind, DumpEntries(kind, es) + rest, |es|, done, es[0], tail);
      LoadDumpedEntries(kind, done + [es[0]], es[1..], rest);
    }
  }

  lemma LoadNothing(kind: Kind, es: seq<Entry>, rest: bytes, done: seq<Entry>)
    requires es == []
    ensures EntriesFit(kind, es)
    ensures LoadEntries(kind, DumpEntries(kind, es) + rest, |es|, done) == Loaded(done + es, Some(rest))
  {
    assert done + es == done && DumpEntries(kind, es) + rest == rest;
  }

  lemma DumpFirst(kind: Kind, es: seq<Entry>, rest: bytes) returns (tail: bytes)
    requires EntriesFit(kind, es) && NoEmptyKey(es) && es != []
    ensures EntriesFit(kind, es[1..]) && NoEmptyKey(es[1..])
    ensures tail == DumpEntries(kind, es[1..]) + rest
    ensures ReadEntry(kind, DumpEntries(kind, es) + rest) == Some(Read(es[0], tail))
  {
    hide DumpEntry, ReadEntry, FitsEntry;
    tail := DumpEntries(kind, es[1..]) + rest;
    assert DumpEntries(kind, es) + rest == DumpEntry(kind, es[0]) + tail;
    EntryRoundTrip(kind, es[0], tail);
  }

  lemma LoadOne(kind: Kind, b: bytes, count: int, tree: seq<Entry>, e: Entry, rest: bytes)
    requires count > 0 && ReadEntry(kind, b) == Some(Read(e, rest))
    ensures LoadEntries(kind, b, count, tree) == LoadEntries(kind, rest, count - 1, Put(tree, e.key, e.value))
  {
  }

  /** Dumping and loading gives the tree and the following bytes back, whatever they are, if no key is empty ... */
  lemma LoadOfDump(kind: Kind, es: seq<Entry>, rest: bytes)
    requires Fits(kind, es) && Sorted(es) && NoEmptyKey(es)
    ensures Load(kind, Dump(kind, es) + rest) == Loaded(es, Some(rest))
  {
    var body := DumpEntries(kind, es) + rest;
    assert Dump(kind, es) + rest == AppendInt(|es|) + body;
    IntRoundTrip(|es|, body);
    assert [] + es == es;
    LoadDumpedEntries(kind, [], es, rest);
  }

  /** ... and only then: an empty key ends the dump after the count, and nothing can be loaded from that. */
  lemma RoundTripExactlyWithoutEmptyKey(kind: Kind, es: seq<Entry>)
    requires Fits(kind, es) && Sorted(es)
    ensures NoEmptyKey(es) <==> Load(kind, Dump(kind, es)) == Loaded(es, Some([]))
  {
    if NoEmptyKey(es) {
      LoadOfDump(kind, es, []);
      assert Dump(kind, es) + [] == Dump(kind, es);
    } else {
      var i :| 0 <= i < |es| && es[i].key == [];
      assert forall j | 0 < j < |es| :: Less(es[0].key, es[j].key);
      assert Dump(kind, es) == AppendInt(|es|) + [];
      IntRoundTrip(|es|, []);
    }
  }

  /** Dumps of different trees differ, even when followed by arbitrary bytes. */
  lemma DumpIsPrefixFree(kind: Kind, es1: seq<Entry>, rest1: bytes, es2: seq<Entry>, rest2: bytes)
    requires Fits(kind, es1) && Sorted(es1) && NoEmptyKey(es1)
    requires Fits(kind, es2) && Sorted(es2) && NoEmptyKey(es2)
    requires Dump(kind, es1) + rest1 == Dump(kind, es2) + rest2
    ensures es1 == es2 && rest1 == rest2
  {
    LoadOfDump(kind, es1, rest1);
    LoadOfDump(kind, es2, rest2);
  }

  lemma HistoryHasNoEmptyKey(kind: Kind, ops: seq<Op>)
    requires AllAllowed(kind, ops)
    ensures var tree := Run(FRESH, ops).tree;
            Sorted(tree) && NoEmptyKey(tree) && Contents(tree) == Effects(map[], ops)
  {
    HistoryInvariant(kind, ops);
    var tree := Run(FRESH, ops).tree;
    forall i | 0 <= i < |tree|
      ensures tree[i].key != []
    {
      KeysOfContents(tree, tree[i].key);
    }
  }

  /** The dump is canonical: it depends on the entries a history ends in, on nothing else, and tells them apart. */
  lemma DumpIsCanonical(kind: Kind, ops1: seq<Op>, rest1: bytes, ops2: seq<Op>, rest2: bytes)
    requires AllAllowed(kind, ops1) && AllAllowed(kind, ops2)
    requires Fits(kind, Run(FRESH, ops1).tree) && Fits(kind, Run(FRESH, ops2).tree)
    ensures var d1, d2 := Dump(kind, Run(FRESH, ops1).tree), Dump(kind, Run(FRESH, ops2).tree);
            && (Effects(map[], ops1) == Effects(map[], ops2) ==> d1 == d2)
            && (Effects(map[], ops1) != Effects(map[], ops2) ==> d1 + rest1 != d2 + rest2)
  {
    HistoryHasNoEmptyKey(kind, ops1);
    HistoryHasNoEmptyKey(kind, ops2);
    SameEffectSameTree(kind, ops1, kind, ops2);
    var t1, t2 := Run(FRESH, ops1).tree, Run(FRESH, ops2).tree;
    if Dump(kind, t1) + rest1 == Dump(kind, t2) + rest2 {
      DumpIsPrefixFree(kind, t1, rest1, t2, rest2);
    }
  }

  /** A list that is sorted and holds values of one kind stays so. */
  predicate Consistent(kind: Kind, es: seq<Entry>) {
    Sorted(es) && forall i | 0 <= i < |es| :: HasKind(kind, es[i].value)
  }

  lemma {:induction false} PutKinds(kind: Kind, es: seq<Entry>, k: bytes, v: Value)
    requires Consistent(kind, es) && HasKind(kind, v)
    ensures Consistent(kind, Put(es, k, v))
  {
    PutKeepsOrder(es, k, v);
    if es != [] && !Less(k, es[0].key) && es[0].key != k {
      SortedParts(es);
      PutKinds(kind, es[1..], k, v);
    }
  }

  lemma {:induction false} RemoveKinds(kind: Kind, es: seq<Entry>, k: bytes)
    requires Consistent(kind, es)
    ensures Consistent(kind, Remove(es, k))
  {
    RemoveKeepsOrder(es, k);
    if es != [] && es[0].key != k {
      SortedParts(es);
      RemoveKinds(kind, es[1..], k);
    }
  }

  lemma {:induction false} GetKind(kind: Kind, es: seq<Entry>, k: bytes)
    requires Consistent(kind, es)
    ensures Get(es, k).Some? ==> HasKind(kind, Get(es, k).value)
  {
    if es != [] && es[0].key != k {
      SortedParts(es);
      GetKind(kind, es[1..], k);
    }
  }

  // ---- The bytes of a dump ----

  /** Entries are dumped one after the other, in the order of the tree. */
  lemma {:induction false} DumpInOrder(kind: Kind, a: seq<Entry>, b: seq<Entry>)
    requires EntriesFit(kind, a) && EntriesFit(kind, b) && NoEmptyKey(a)
    ensures EntriesFit(kind, a + b)
    ensures DumpEntries(kind, a + b) == DumpEntries(kind, a) + DumpEntries(kind, b)
  {
    hide DumpEntry, FitsEntry;
    if a == [] {
      assert a + b == b;
    } else {
      assert (a + b)[1..] == a[1..] + b;
      DumpInOrder(kind, a[1..], b);
    }
  }

  /** An integer map with 200 under "a" and -1 under "b". */
  lemma IntMapOnTheWire()
    ensures var es := [Entry([0x61], IntV(200)), Entry([0x62], IntV(-1))];
            && AllFit([MapValue(IntMap, es)])
            && Serialized([MapValue(IntMap, es)]) == [0, 2, 0xA1, 0x61, 0xD1, 0x00, 0xC8, 0xA1, 0x62, 0xFF]
  {
    TwoHundred();
    StringFormat([0x61]);
    StringFormat([0x62]);
    var first, second := Entry([0x61], IntV(200)), Entry([0x62], IntV(-1));
    SerializedOne(IntMap, [first, second]);
    DumpOne(IntMap, first);
    DumpOne(IntMap, second);
    assert [first, second] == [first] + [second];
    DumpInOrder(IntMap, [first], [second]);
    hide AppendString, AppendInt, DumpEntries, Serialized;
  }

  /** A string map and a buffer map with "v" under "k". */
  lemma StrAndBufMapOnTheWire()
    ensures AllFit([MapValue(StrMap, [Entry([0x6B], StrV([0x76]))])])
    ensures AllFit([MapValue(BufMap, [Entry([0x6B], BufV([0x76]))])])
    ensures Serialized([MapValue(StrMap, [Entry([0x6B], StrV([0x76]))])]) == [1, 1, 0xA1, 0x6B, 0xA1, 0x76]
    ensures Serialized([MapValue(BufMap, [Entry([0x6B], BufV([0x76]))])]) == [2, 1, 0xA1, 0x6B, 0xC4, 0x01, 0x76]
  {
    TwoHundred();
    StringFormat([0x6B]);
    StringFormat([0x76]);
    BytesFormat([0x76]);
    SerializedOne(StrMap, [Entry([0x6B], StrV([0x76]))]);
    SerializedOne(BufMap, [Entry([0x6B], BufV([0x76]))]);
    DumpOne(StrMap, Entry([0x6B], StrV([0x76])));
    DumpOne(BufMap, Entry([0x6B], BufV([0x76])));
    hide AppendString, AppendBytes, AppendInt, DumpEntries, Serialized;
  }

  lemma DumpOne(kind: Kind, e: Entry)
    requires FitsEntry(kind, e) && e.key != []
    ensures EntriesFit(kind, [e]) && DumpEntries(kind, [e]) == AppendString(e.key) + AppendValue(kind, e)
  {
    hide AppendString, AppendValue;
  }

  lemma TwoHundred()
    ensures AppendInt(200) == [0xD1, 0x00, 0xC8] && AppendInt(-1) == [0xFF]
    ensures AppendInt(1) == [1] && AppendInt(2) == [2]
  {
    LengthBytes(200);
  }

  lemma SerializedOne(kind: Kind, es: seq<Entry>)
    requires Fits(kind, es)
    ensures AllFit([MapValue(kind, es)])
    ensures Serialized([MapValue(kind, es)]) == [Tag(kind)] + AppendInt(|es|) + DumpEntries(kind, es)
  {
    hide DumpEntries;
  }

  // ---- What a load makes of its bytes ----

  /** The entries that follow a count, in the order of the bytes. */
  function ReadEntries(kind: Kind, b: bytes, count: int): Option<Read<seq<Entry>>>
    decreases if count < 0 then 0 else count
  {
    if count <= 0 then Some(Read([], b))
    else match ReadEntry(kind, b)
      case None => None
      case Some(r) =>
        match ReadEntries(kind, r.rest, count - 1)
        case None => None
        case Some(more) => Some(Read([r.value] + more.value, more.rest))
  }

  /** One entry after the other put into a map. */
  function Collected(m: map<bytes, Value>, es: seq<Entry>): map<bytes, Value>
    decreases |es|
  {
    if es == [] then m else Collected(m[es[0].key := es[0].value], es[1..])
  }

  /** Entries come in any order, the last of several with one key counts; it fails exactly if one cannot be read. */
  lemma {:induction false} LoadCollectsEntries(kind: Kind, b: bytes, count: int, tree: seq<Entry>)
    requires Sorted(tree)
    ensures var l, entries := LoadEntries(kind, b, count, tree), ReadEntries(kind, b, count);
            && (l.rest.Some? <==> entries.Some?)
            && (entries.Some? ==>
                 && l.rest.value == entries.value.rest
                 && Contents(l.tree) == Collected(Contents(tree), entries.value.value))
    decreases if count < 0 then 0 else count
  {
    hide ReadEntry, Put, Contents, Sorted;
    if count > 0 && ReadEntry(kind, b).Some? {
      var r := ReadEntry(kind, b).value;
      PutKeepsOrder(tree, r.value.key, r.value.value);
      LoadCollectsEntries(kind, r.rest, count - 1, Put(tree, r.value.key, r.value.value));
      CollectedCons(Contents(tree), r.value, ReadEntries(kind, r.rest, count - 1));
    }
  }

  lemma CollectedCons(m: map<bytes, Value>, e: Entry, more: Option<Read<seq<Entry>>>)
    ensures more.Some? ==> Collected(m, [e] + more.value.value) == Collected(m[e.key := e.value], more.value.value)
  {
    if more.Some? {
      assert ([e] + more.value.value)[1..] == more.value.value;
    }
  }

  /** A count of zero or less reads nothing. */
  lemma NoEntriesLoaded(kind: Kind, count: int, rest: bytes)
    requires IsInt64(count) && count <= 0
    ensures Load(kind, AppendInt(count) + rest) == Loaded([], Some(rest))
  {
    IntRoundTrip(count, rest);
  }

  // ---- The size estimate ----

  predicate ShortKeys(es: seq<Entry>) {
    forall i | 0 <= i < |es| :: |es[i].key| <= 31
  }

  lemma EntryFitsItsWeight(kind: Kind, e: Entry)
    requires FitsEntry(kind, e) && (kind == IntMap ==> |e.key| <= 31)
    ensures |DumpEntry(kind, e)| <= 10 + |e.key| + Size(e.value)
  {
    hide ToBytes;
  }

  lemma {:induction false} EntriesFitTheirWeight(kind: Kind, es: seq<Entry>)
    requires EntriesFit(kind, es) && (kind == IntMap ==> ShortKeys(es))
    ensures |DumpEntries(kind, es)| <= Weight(es)
  {
    if es != [] {
      EntryFitsItsWeight(kind, es[0]);
      hide DumpEntry, FitsEntry;
      EntriesFitTheirWeight(kind, es[1..]);
    }
  }

  /**
    * After any history the dumped entries take no more bytes than estimated:
    * always for string and buffer maps, and for integer maps while no stored key has more than 31 bytes.
    */
  lemma EstimateCoversDump(kind: Kind, ops: seq<Op>)
    requires AllAllowed(kind, ops)
    requires kind == IntMap ==> ShortKeys(Run(FRESH, ops).tree)
    requires Fits(kind, Run(FRESH, ops).tree)
    ensures var st := Run(FRESH, ops);
            |DumpEntries(kind, st.tree)| <= Weight(st.tree) <= st.estimatedSize
  {
    HistoryInvariant(kind, ops);
    EntriesFitTheirWeight(kind, Run(FRESH, ops).tree);
  }

  /** Any longer key breaks the estimate of an integer map in one step. */
  lemma LongKeyExceedsEstimate(k: bytes)
    requires 31 < |k| < TWO_32
    ensures var ops := [SetOp(k, IntV(TWO_63 - 1))];
            var st := Run(FRESH, ops);
            && AllAllowed(IntMap, ops) && Fits(IntMap, st.tree)
            && |DumpEntries(IntMap, st.tree)| > st.estimatedSize
  {
    var op := SetOp(k, IntV(TWO_63 - 1));
    assert [op][..0] == [];
    assert Run(FRESH, [op]) == State([Entry(k, op.value)], 10 + |k|);
    assert |DumpEntry(IntMap, Entry(k, op.value))| == |AppendString(k)| + 9;
  }

  predicate KeysUpTo(ops: seq<Op>, n: nat) {
    forall i | 0 <= i < |ops| :: ops[i].SetOp? ==> |ops[i].key| <= n
  }

  lemma {:induction false} StoredKeysUpTo(ops: seq<Op>, n: nat)
    requires KeysUpTo(ops, n)
    ensures forall k | k in Effects(map[], ops) :: |k| <= n
  {
    if ops != [] {
      StoredKeysUpTo(ops[..|ops| - 1], n);
    }
  }

  ghost predicate EstimateHolds(kind: Kind, ops: seq<Op>) {
    var st := Run(FRESH, ops);
    AllAllowed(kind, ops) && Fits(kind, st.tree) ==> |DumpEntries(kind, st.tree)| <= st.estimatedSize
  }

  /** So for integer maps 31 is the longest key length for which the estimate can be relied on. */
  lemma IntEstimateHoldsForShortKeysOnly(n: nat)
    ensures n <= 31 <==> forall ops | KeysUpTo(ops, n) :: EstimateHolds(IntMap, ops)
  {
    if n <= 31 {
      forall ops | KeysUpTo(ops, n) && AllAllowed(IntMap, ops) && Fits(IntMap, Run(FRESH, ops).tree)
        ensures EstimateHolds(IntMap, ops)
      {
        StoredKeysUpTo(ops, n);
        StoredKeysAreShort(ops);
        EstimateCoversDump(IntMap, ops);
      }
    } else {
      var k: bytes := seq(32, _ => 0);
      LongKeyExceedsEstimate(k);
      assert KeysUpTo([SetOp(k, IntV(TWO_63 - 1))], n);
      assert !EstimateHolds(IntMap, [SetOp(k, IntV(TWO_63 - 1))]);
    }
  }

  lemma StoredKeysAreShort(ops: seq<Op>)
    requires AllAllowed(IntMap, ops) && forall k | k in Effects(map[], ops) :: |k| <= 31
    ensures ShortKeys(Run(FRESH, ops).tree)
  {
    HistoryInvariant(IntMap, ops);
    var tree := Run(FRESH, ops).tree;
    forall i | 0 <= i < |tree|
      ensures |tree[i].key| <= 31
    {
      KeysOfContents(tree, tree[i].key);
    }
  }

  // ---- Histories with loads ----

  /** What a map goes through: updates, and loads that succeed. After a load that fails both readers drop the map. */
  datatype Use = Update(op: Op) | LoadBytes(b: bytes)

  predicate Usable(kind: Kind, u: Use) {
    match u
    case Update(op) => Allowed(kind, op)
    case LoadBytes(b) => Load(kind, b).rest.Some?
  }

  predicate AllUsable(kind: Kind, us: seq<Use>) {
    forall i | 0 <= i < |us| :: Usable(kind, us[i])
  }

  function Apply(kind: Kind, st: State, u: Use): State
    requires Usable(kind, u)
  {
    match u
    case Update(op) => Step(st, op)
    case LoadBytes(b) => State(Load(kind, b).tree, |b| - |Load(kind, b).rest.value|)
  }

  function ApplyAll(kind: Kind, us: seq<Use>): State
    requires AllUsable(kind, us)
  {
    if us == [] then FRESH else Apply(kind, ApplyAll(kind, us[..|us| - 1]), us[|us| - 1])
  }

  lemma ReadTakesBytes(b: bytes)
    ensures ReadInt(b).Some? ==> |ReadInt(b).value.rest| < |b|
    ensures ReadString(b).Some? ==> |ReadString(b).value.value| + |ReadString(b).value.rest| < |b|
    ensures ReadBytes(b).Some? ==> |ReadBytes(b).value.value| + |ReadBytes(b).value.rest| < |b|
  {
    hide FromBytes;
  }

  lemma ReadEntryTakesBytes(kind: Kind, b: bytes)
    ensures match ReadEntry(kind, b)
            case None => true
            case Some(r) => |r.value.key| + Size(r.value.value) + |r.rest| < |b| && HasKind(kind, r.value.value)
  {
    hide ReadInt, ReadString, ReadBytes;
    ReadTakesBytes(b);
    if ReadString(b).Some? {
      ReadTakesBytes(ReadString(b).value.rest);
    }
  }

  lemma {:induction false} LoadedEntriesAreShort(kind: Kind, b: bytes, count: int, tree: seq<Entry>)
    requires Consistent(kind, tree)
    ensures var l := LoadEntries(kind, b, count, tree);
            && Consistent(kind, l.tree)
            && (l.rest.Some? ==> Payload(l.tree) + |l.rest.value| <= Payload(tree) + |b|)
    decreases if count < 0 then 0 else count
  {
    hide ReadEntry, Put, Payload, Consistent, Get, HasKind;
    if count > 0 && ReadEntry(kind, b).Some? {
      var r := ReadEntry(kind, b).value;
      ReadEntryTakesBytes(kind, b);
      PutKinds(kind, tree, r.value.key, r.value.value);
      PutAtMost(kind, tree, r.value.key, r.value.value);
      LoadedEntriesAreShort(kind, r.rest, count - 1, Put(tree, r.value.key, r.value.value));
    }
  }

  lemma PutAtMost(kind: Kind, tree: seq<Entry>, k: bytes, v: Value)
    requires Consistent(kind, tree)
    ensures Payload(Put(tree, k, v)) <= Payload(tree) + |k| + Size(v)
  {
    PutPayload(tree, k, v);
  }

  /** A load that succeeds reads more bytes than the payload of the tree it makes. */
  lemma LoadEstablishesPayload(kind: Kind, b: bytes)
    ensures Consistent(kind, Load(kind, b).tree)
    ensures Load(kind, b).rest.Some? ==> Payload(Load(kind, b).tree) < |b| - |Load(kind, b).rest.value|
  {
    hide ReadInt, LoadEntries;
    ReadTakesBytes(b);
    if ReadInt(b).Some? {
      LoadedEntriesAreShort(kind, ReadInt(b).value.rest, ReadInt(b).value.value, []);
    }
  }

  lemma StepKeepsKinds(kind: Kind, st: State, op: Op)
    requires Consistent(kind, st.tree) && Allowed(kind, op)
    ensures Consistent(kind, Step(st, op).tree)
  {
    match op
    case SetOp(k, v) => PutKinds(kind, st.tree, k, v);
    case DeleteOp(k) => RemoveKinds(kind, st.tree, k);
    case ClearOp =>
  }

  /**
    * In every history of updates and loads the keys ascend strictly and the payload is within the estimate,
    * which is therefore never negative.
    */
  lemma {:induction false} PayloadWithinEstimate(kind: Kind, us: seq<Use>)
    requires AllUsable(kind, us)
    ensures var st := ApplyAll(kind, us);
            Consistent(kind, st.tree) && Payload(st.tree) <= st.estimatedSize
  {
    hide Load, Step, Consistent, Payload;
    if us == [] {
      NoPayload();
      NothingInconsistent(kind);
    } else {
      var before, u := us[..|us| - 1], us[|us| - 1];
      PayloadWithinEstimate(kind, before);
      var st := ApplyAll(kind, before);
      assert Usable(kind, u);
      match u
      case Update(op) =>
        StepKeepsKinds(kind, st, op);
        ConsistentIsSorted(kind, st.tree);
        StepKeepsPayload(st, op);
      case LoadBytes(b) =>
        LoadEstablishesPayload(kind, b);
    }
  }

  lemma NothingInconsistent(kind: Kind)
    ensures Consistent(kind, [])
  {
  }

  lemma ConsistentIsSorted(kind: Kind, tree: seq<Entry>)
    requires Consistent(kind, tree)
    ensures Sorted(tree)
  {
  }

  /** With loads, ten bytes per entry on top of the estimate cover the dump. */
  lemma EstimateNearlyCoversDump(kind: Kind, us: seq<Use>)
    requires AllUsable(kind, us) && Fits(kind, ApplyAll(kind, us).tree)
    requires kind == IntMap ==> ShortKeys(ApplyAll(kind, us).tree)
    ensures var st := ApplyAll(kind, us);
            |DumpEntries(kind, st.tree)| <= st.estimatedSize + 10 * |st.tree|
  {
    PayloadWithinEstimate(kind, us);
    var st := ApplyAll(kind, us);
    EntriesFitTheirWeight(kind, st.tree);
    WeightIsPayload(st.tree);
  }

  /** The estimate alone does not: an entry that is loaded brings no reserve for a longer length prefix. */
  lemma LoadedEstimateCanFallShort()
    ensures var k: bytes, v: bytes, w: bytes := [7], seq(31, _ => 0), seq(256, _ => 0);
            && Fits(StrMap, [Entry(k, StrV(v))])
            && var us := [LoadBytes(Dump(StrMap, [Entry(k, StrV(v))])), Update(SetOp(k, StrV(w)))];
            && AllUsable(StrMap, us) && Fits(StrMap, ApplyAll(StrMap, us).tree)
            && |DumpEntries(StrMap, ApplyAll(StrMap, us).tree)| > ApplyAll(StrMap, us).estimatedSize
  {
    var k: bytes, v: bytes, w: bytes := [7], seq(31, _ => 0), seq(256, _ => 0);
    var es, es' := [Entry(k, StrV(v))], [Entry(k, StrV(w))];
    var b := Dump(StrMap, es);
    LoadOfDump(StrMap, es, []);
    assert b + [] == b;
    var us := [LoadBytes(b), Update(SetOp(k, StrV(w)))];
    assert us[..1] == [LoadBytes(b)] && us[..1][..0] == [];
    DumpOfOne(k, v);
    DumpOfOne(k, w);
    hide Dump, DumpEntries, Load;
    assert Usable(StrMap, us[0]) && Usable(StrMap, us[1]);
    assert ApplyAll(StrMap, us[..1]) == State(es, |b|);
    assert Put(es, k, StrV(w)) == es' && Get(es, k) == Some(StrV(v));
    assert ApplyAll(StrMap, us) == State(es', |b| + 256 - 31);
  }

  lemma DumpOfOne(k: bytes, v: bytes)
    requires 0 < |k| < TWO_32 && |v| < TWO_32
    ensures Fits(StrMap, [Entry(k, StrV(v))])
    ensures |Dump(StrMap, [Entry(k, StrV(v))])| == 1 + |AppendString(k)| + |AppendString(v)|
    ensures |DumpEntries(StrMap, [Entry(k, StrV(v))])| == |AppendString(k)| + |AppendString(v)|
  {
    hide AppendString;
    assert AppendInt(1) == [1];
    assert DumpEntries(StrMap, [Entry(k, StrV(v))]) == DumpEntry(StrMap, Entry(k, StrV(v))) + DumpEntries(StrMap, []);
  }

  // ---- Several maps in one buffer ----

  datatype MapValue = MapValue(kind: Kind, tree: seq<Entry>)

  function Tag(kind: Kind): byte {
    match kind
    case IntMap => 0
    case StrMap => 1
    case BufMap => 2
  }

  predicate Storable(m: MapValue) {
    Fits(m.kind, m.tree) && Sorted(m.tree) && NoEmptyKey(m.tree)
  }

  predicate AllFit(ms: seq<MapValue>) {
    forall i | 0 <= i < |ms| :: Fits(ms[i].kind, ms[i].tree)
  }

  predicate AllStorable(ms: seq<MapValue>) {
    forall i | 0 <= i < |ms| :: Storable(ms[i])
  }

  function Serialized(ms: seq<MapValue>): bytes
    requires AllFit(ms)
  {
    if ms == [] then [] else [Tag(ms[0].kind)] + Dump(ms[0].kind, ms[0].tree) + Serialized(ms[1..])
  }

  /** `DeserializeMap`: the map and the bytes after it, or an exception. */
  function Deserialize(b: bytes, expectedTag: int): Result<(MapValue, bytes)> {
    if b == [] || expectedTag < 0 || expectedTag > 2 then Throw
    else match ReadByte(b)
      case None => Throw
      case Some(r) =>
        if r.value > 2 || r.value != expectedTag then Throw
        else
          var kind := if r.value == 0 then IntMap else if r.value == 1 then StrMap else BufMap;
          var l := Load(kind, r.rest);
          match l.rest
          case None => Throw
          case Some(rest) => Ok((MapValue(kind, l.tree), rest))
  }

  /** Reading with one tag after another. */
  function ReadAll(b: bytes, tags: seq<int>): Result<(seq<MapValue>, bytes)>
    decreases |tags|
  {
    if tags == [] then Ok(([], b))
    else match Deserialize(b, tags[0])
      case Throw => Throw
      case Ok((m, rest)) =>
        match ReadAll(rest, tags[1..])
        case Throw => Throw
        case Ok((ms, last)) => Ok(([m] + ms, last))
  }

  function Tags(ms: seq<MapValue>): seq<int> {
    seq(|ms|, i requires 0 <= i < |ms| => Tag(ms[i].kind) as int)
  }

  lemma FirstMapIsReadBack(m: MapValue, rest: bytes)
    requires Storable(m)
    ensures Deserialize([Tag(m.kind)] + Dump(m.kind, m.tree) + rest, Tag(m.kind)) == Ok((m, rest))
  {
    LoadOfDump(m.kind, m.tree, rest);
    assert [Tag(m.kind)] + Dump(m.kind, m.tree) + rest == [Tag(m.kind)] + (Dump(m.kind, m.tree) + rest);
    ReadTagged(m, Dump(m.kind, m.tree) + rest, rest);
  }

  lemma ReadTagged(m: MapValue, body: bytes, rest: bytes)
    requires Load(m.kind, body) == Loaded(m.tree, Some(rest))
    ensures Deserialize([Tag(m.kind)] + body, Tag(m.kind)) == Ok((m, rest))
  {
    hide Load, ReadByte;
    ReadTag(Tag(m.kind), body);
  }

  lemma ReadTag(tag: byte, tail: bytes)
    requires tag <= 2
    ensures ReadByte([tag] + tail) == Some(Read(tag, tail))
  {
  }

  /** A map is refused under any tag but its own. */
  lemma OtherTagIsRefused(m: MapValue, rest: bytes, expectedTag: int)
    requires Storable(m) && expectedTag != Tag(m.kind) as int
    ensures Deserialize([Tag(m.kind)] + Dump(m.kind, m.tree) + rest, expectedTag).Throw?
  {
    var body := Dump(m.kind, m.tree) + rest;
    assert [Tag(m.kind)] + Dump(m.kind, m.tree) + rest == [Tag(m.kind)] + body;
    ReadTag(Tag(m.kind), body);
  }

  /** Any list of maps is read back in order, and only the bytes that followed it are left. */
  lemma {:induction false} SerializedMapsAreReadBack(ms: seq<MapValue>, rest: bytes)
    requires AllStorable(ms)
    ensures ReadAll(Serialized(ms) + rest, Tags(ms)) == Ok((ms, rest))
  {
    if ms == [] {
      assert Serialized(ms) + rest == rest;
    } else {
      hide *;
      var tail := SerializedStep(ms, rest);
      FirstMapIsReadBack(ms[0], tail);
      SerializedMapsAreReadBack(ms[1..], rest);
      ReadAllStep(Serialized(ms) + rest, Tags(ms), ms[0], tail, ms[1..], rest);
      assert ms == [ms[0]] + ms[1..];
    }
  }

  lemma SerializedStep(ms: seq<MapValue>, rest: bytes) returns (tail: bytes)
    requires AllStorable(ms) && ms != []
    ensures Storable(ms[0]) && AllStorable(ms[1..]) && AllFit(ms) && AllFit(ms[1..])
    ensures Fits(ms[0].kind, ms[0].tree)
    ensures tail == Serialized(ms[1..]) + rest
    ensures Serialized(ms) + rest == [Tag(ms[0].kind)] + Dump(ms[0].kind, ms[0].tree) + tail
    ensures |Tags(ms)| > 0 && Tags(ms)[0] == Tag(ms[0].kind) as int && Tags(ms)[1..] == Tags(ms[1..])
  {
    hide Dump, Fits, Sorted, NoEmptyKey;
    tail := Serialized(ms[1..]) + rest;
  }

  lemma ReadAllStep(b: bytes, tags: seq<int>, m: MapValue, tail: bytes, ms: seq<MapValue>, rest: bytes)
    requires tags != [] && Deserialize(b, tags[0]) == Ok((m, tail))
    requires ReadAll(tail, tags[1..]) == Ok((ms, rest))
    ensures ReadAll(b, tags) == Ok(([m] + ms, rest))
  {
  }

  /** Lists of maps of the same kinds with equal bytes are equal. */
  lemma SerializedIsPrefixFree(ms1: seq<MapValue>, rest1: bytes, ms2: seq<MapValue>, rest2: bytes)
    requires AllStorable(ms1) && AllStorable(ms2) && Tags(ms1) == Tags(ms2)
    requires Serialized(ms1) + rest1 == Serialized(ms2) + rest2
    ensures ms1 == ms2 && rest1 == rest2
  {
    SerializedMapsAreReadBack(ms1, rest1);
    SerializedMapsAreReadBack(ms2, rest2);
  }
}
