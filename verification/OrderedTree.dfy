/** The ordered tree behind the maps, as a list sorted by key, and histories of updates to it. */
module OrderedTree {
  import opened Prelude
  import opened Bytes

  /** The three map types differ in their values only. */
  datatype Kind = IntMap | StrMap | BufMap

  datatype Value = IntV(n: int) | StrV(s: bytes) | BufV(b: bytes)

  datatype Entry = Entry(key: bytes, value: Value)

  predicate HasKind(kind: Kind, v: Value) {
    match kind
    case IntMap => v.IntV?
    case StrMap => v.StrV?
    case BufMap => v.BufV?
  }

  /** Strictly ascending keys. */
  predicate Sorted(es: seq<Entry>) {
    forall i, j | 0 <= i < j < |es| :: Less(es[i].key, es[j].key)
  }

  function Put(es: seq<Entry>, k: bytes, v: Value): seq<Entry> {
    if es == [] || Less(k, es[0].key) then [Entry(k, v)] + es
    else if es[0].key == k then [Entry(k, v)] + es[1..]
    else [es[0]] + Put(es[1..], k, v)
  }

  function Remove(es: seq<Entry>, k: bytes): seq<Entry> {
    if es == [] then []
    else if es[0].key == k then es[1..]
    else [es[0]] + Remove(es[1..], k)
  }

  function Get(es: seq<Entry>, k: bytes): Option<Value> {
    if es == [] then None
    else if es[0].key == k then Some(es[0].value)
    else Get(es[1..], k)
  }

  /** What the list stores, as a map. */
  function Contents(es: seq<Entry>): map<bytes, Value> {
    if es == [] then map[] else Contents(es[1..])[es[0].key := es[0].value]
  }

  predicate Above(k: bytes, es: seq<Entry>) {
    forall i | 0 <= i < |es| :: Less(k, es[i].key)
  }

  lemma SortedCons(e: Entry, es: seq<Entry>)
    requires Sorted(es) && Above(e.key, es)
    ensures Sorted([e] + es)
  {
  }

  lemma SortedParts(es: seq<Entry>)
    requires Sorted(es) && es != []
    ensures Sorted(es[1..]) && Above(es[0].key, es[1..])
  {
  }

  lemma {:induction false} KeysOfContents(es: seq<Entry>, k: bytes)
    ensures k in Contents(es) <==> exists i :: 0 <= i < |es| && es[i].key == k
    ensures Get(es, k) == if k in Contents(es) then Some(Contents(es)[k]) else None
  {
    if es != [] {
      KeysOfContents(es[1..], k);
      assert forall i | 1 <= i < |es| :: es[i] == es[1..][i - 1];
      if i :| 1 <= i < |es| && es[i].key == k {
        assert es[1..][i - 1].key == k;
      }
    }
  }

  lemma NotBelow(k: bytes, es: seq<Entry>)
    requires Above(k, es)
    ensures k !in Contents(es)
  {
    KeysOfContents(es, k);
    LessIrreflexive(k);
  }

  lemma {:induction false} PutAbove(es: seq<Entry>, k: bytes, v: Value, low: bytes)
    requires Above(low, es) && Less(low, k)
    ensures Above(low, Put(es, k, v))
  {
    if es != [] && !Less(k, es[0].key) && es[0].key != k {
      PutAbove(es[1..], k, v, low);
    }
  }

  lemma ContentsOfCons(e: Entry, es: seq<Entry>)
    ensures Contents([e] + es) == Contents(es)[e.key := e.value]
  {
    assert ([e] + es)[1..] == es;
  }

  lemma {:induction false} PutKeepsOrder(es: seq<Entry>, k: bytes, v: Value)
    requires Sorted(es)
    ensures Sorted(Put(es, k, v))
    ensures Contents(Put(es, k, v)) == Contents(es)[k := v]
  {
    hide Less, Contents;
    if es == [] {
      ContentsOfCons(Entry(k, v), es);
    } else if Less(k, es[0].key) {
      AboveFirst(k, es);
      SortedCons(Entry(k, v), es);
      ContentsOfCons(Entry(k, v), es);
    } else {
      assert es == [es[0]] + es[1..];
      ContentsOfCons(es[0], es[1..]);
      SortedParts(es);
      if es[0].key == k {
        SortedCons(Entry(k, v), es[1..]);
        ContentsOfCons(Entry(k, v), es[1..]);
      } else {
        LessTotal(k, es[0].key);
        PutKeepsOrder(es[1..], k, v);
        PutAbove(es[1..], k, v, es[0].key);
        SortedCons(es[0], Put(es[1..], k, v));
        ContentsOfCons(es[0], Put(es[1..], k, v));
      }
    }
  }

  lemma {:induction false} RemoveAbove(es: seq<Entry>, k: bytes, low: bytes)
    requires Above(low, es)
    ensures Above(low, Remove(es, k))
  {
    if es != [] && es[0].key != k {
      RemoveAbove(es[1..], k, low);
    }
  }

  lemma {:induction false} RemoveKeepsOrder(es: seq<Entry>, k: bytes)
    requires Sorted(es)
    ensures Sorted(Remove(es, k))
    ensures Contents(Remove(es, k)) == Contents(es) - {k}
  {
    if es == [] {
    } else if es[0].key == k {
      NotBelow(k, es[1..]);
    } else {
      SortedParts(es);
      RemoveKeepsOrder(es[1..], k);
      RemoveAbove(es[1..], k, es[0].key);
      SortedCons(es[0], Remove(es[1..], k));
      assert Remove(es, k)[1..] == Remove(es[1..], k);
    }
  }

  /** A key above all others goes to the end. */
  lemma {:induction false} PutLast(es: seq<Entry>, e: Entry)
    requires Sorted(es + [e])
    ensures Put(es, e.key, e.value) == es + [e]
  {
    if es != [] {
      var all := es + [e];
      assert Less(all[0].key, all[|es|].key);
      LessAsymmetric(es[0].key, e.key);
      LessIrreflexive(e.key);
      assert all[1..] == es[1..] + [e];
      PutLast(es[1..], e);
    }
  }

  lemma SomethingStored(es: seq<Entry>)
    ensures es != [] ==> Contents(es) != map[]
  {
    if es != [] {
      assert es[0].key in Contents(es);
    }
  }

  /** Only one sorted list has given contents. */
  lemma {:induction false} SortedListIsUnique(a: seq<Entry>, b: seq<Entry>)
    requires Sorted(a) && Sorted(b) && Contents(a) == Contents(b)
    ensures a == b
  {
    if a == [] {
      SomethingStored(b);
    } else {
      assert a[0].key in Contents(a);
      KeysOfContents(b, a[0].key);
      KeysOfContents(a, b[0].key);
      assert b[0].key in Contents(b);
      var i :| 0 <= i < |b| && b[i].key == a[0].key;
      var j :| 0 <= j < |a| && a[j].key == b[0].key;
      if i > 0 && j > 0 {
        LessAsymmetric(b[0].key, b[i].key);
      }
      SameHeadSameRest(a, b);
      SortedListIsUnique(a[1..], b[1..]);
      assert a == [a[0]] + a[1..] && b == [b[0]] + b[1..];
    }
  }

  lemma SameHeadSameRest(a: seq<Entry>, b: seq<Entry>)
    requires a != [] && b != [] && Sorted(a) && Sorted(b) && a[0].key == b[0].key && Contents(a) == Contents(b)
    ensures a[0] == b[0] && Contents(a[1..]) == Contents(b[1..])
  {
    NotBelow(a[0].key, a[1..]);
    NotBelow(b[0].key, b[1..]);
    assert Contents(a)[a[0].key] == a[0].value && Contents(b)[b[0].key] == b[0].value;
    assert Contents(a[1..]) == Contents(a) - {a[0].key};
    assert Contents(b[1..]) == Contents(b) - {b[0].key};
  }

  // ---- Histories ----

  datatype Op = SetOp(key: bytes, value: Value) | DeleteOp(key: bytes) | ClearOp

  /** `Set` throws on the empty key. */
  predicate Allowed(kind: Kind, op: Op) {
    op.SetOp? ==> op.key != [] && HasKind(kind, op.value)
  }

  predicate AllAllowed(kind: Kind, ops: seq<Op>) {
    forall i | 0 <= i < |ops| :: Allowed(kind, ops[i])
  }

  /** A map object: its tree and its running size estimate. */
  datatype State = State(tree: seq<Entry>, estimatedSize: int)

  const FRESH := State([], 0)

  function Size(v: Value): nat {
    match v
    case IntV(_) => 0
    case StrV(s) => |s|
    case BufV(b) => |b|
  }

  function Step(st: State, op: Op): State {
    match op
    case SetOp(k, v) =>
      (match Get(st.tree, k)
       case Some(prev) => State(Put(st.tree, k, v), st.estimatedSize + Size(v) - Size(prev))
       case None => State(Put(st.tree, k, v), st.estimatedSize + 10 + |k| + Size(v)))
    case DeleteOp(k) =>
      State(Remove(st.tree, k), if Get(st.tree, k).Some? then st.estimatedSize - |k| else st.estimatedSize)
    case ClearOp => FRESH
  }

  function Run(st: State, ops: seq<Op>): State {
    if ops == [] then st else Step(Run(st, ops[..|ops| - 1]), ops[|ops| - 1])
  }

  /** The same history on an abstract map. */
  function Effect(m: map<bytes, Value>, op: Op): map<bytes, Value> {
    match op
    case SetOp(k, v) => m[k := v]
    case DeleteOp(k) => m - {k}
    case ClearOp => map[]
  }

  function Effects(m: map<bytes, Value>, ops: seq<Op>): map<bytes, Value> {
    if ops == [] then m else Effect(Effects(m, ops[..|ops| - 1]), ops[|ops| - 1])
  }

  /** Sum of 10 + key length + value length over the live entries. */
  function Weight(es: seq<Entry>): nat {
    if es == [] then 0 else 10 + |es[0].key| + Size(es[0].value) + Weight(es[1..])
  }

  lemma {:induction false} PutWeight(es: seq<Entry>, k: bytes, v: Value)
    requires Sorted(es)
    ensures Weight(Put(es, k, v)) == match Get(es, k)
      case Some(prev) => Weight(es) + Size(v) - Size(prev)
      case None => Weight(es) + 10 + |k| + Size(v)
  {
    if es != [] {
      if Less(k, es[0].key) {
        AboveFirst(k, es);
        NotBelow(k, es);
        KeysOfContents(es, k);
        assert Put(es, k, v)[1..] == es;
      } else if es[0].key == k {
        assert Put(es, k, v)[1..] == es[1..];
      } else {
        PutWeight(es[1..], k, v);
        assert Put(es, k, v)[1..] == Put(es[1..], k, v);
      }
    }
  }

  lemma AboveFirst(k: bytes, es: seq<Entry>)
    requires Sorted(es) && es != [] && Less(k, es[0].key)
    ensures Above(k, es)
  {
    forall i | 0 < i < |es|
      ensures Less(k, es[i].key)
    {
      LessTransitive(k, es[0].key, es[i].key);
    }
  }

  lemma {:induction false} RemoveWeight(es: seq<Entry>, k: bytes)
    ensures Weight(Remove(es, k)) == match Get(es, k)
      case Some(prev) => Weight(es) - 10 - |k| - Size(prev)
      case None => Weight(es)
  {
    if es != [] && es[0].key != k {
      RemoveWeight(es[1..], k);
      assert Remove(es, k)[1..] == Remove(es[1..], k);
    }
  }

  /** Sum of key length + value length over the live entries. */
  function Payload(es: seq<Entry>): nat {
    if es == [] then 0 else |es[0].key| + Size(es[0].value) + Payload(es[1..])
  }

  lemma {:induction false} WeightIsPayload(es: seq<Entry>)
    ensures Weight(es) == 10 * |es| + Payload(es)
  {
    if es != [] {
      WeightIsPayload(es[1..]);
    }
  }

  lemma {:induction false} PutSize(es: seq<Entry>, k: bytes, v: Value)
    requires Sorted(es)
    ensures |Put(es, k, v)| == |es| + if Get(es, k).Some? then 0 else 1
  {
    if es != [] {
      if Less(k, es[0].key) {
        AboveFirst(k, es);
        NotBelow(k, es);
        KeysOfContents(es, k);
      } else if es[0].key != k {
        PutSize(es[1..], k, v);
      }
    }
  }

  lemma {:induction false} RemoveSize(es: seq<Entry>, k: bytes)
    ensures |Remove(es, k)| == |es| - if Get(es, k).Some? then 1 else 0
  {
    if es != [] && es[0].key != k {
      RemoveSize(es[1..], k);
    }
  }

  lemma PutPayload(es: seq<Entry>, k: bytes, v: Value)
    requires Sorted(es)
    ensures Payload(Put(es, k, v)) == match Get(es, k)
      case Some(prev) => Payload(es) + Size(v) - Size(prev)
      case None => Payload(es) + |k| + Size(v)
  {
    hide *;
    PutWeight(es, k, v);
    PutSize(es, k, v);
    WeightIsPayload(es);
    WeightIsPayload(Put(es, k, v));
  }

  /** Whatever the tree and the estimate, an update keeps the payload within the estimate. */
  lemma StepKeepsPayload(st: State, op: Op)
    requires Sorted(st.tree) && Payload(st.tree) <= st.estimatedSize
    ensures Sorted(Step(st, op).tree) && Payload(Step(st, op).tree) <= Step(st, op).estimatedSize
  {
    hide Put, Remove, Get, Payload, Weight, Sorted;
    match op
    case SetOp(k, v) =>
      PutKeepsOrder(st.tree, k, v);
      PutPayload(st.tree, k, v);
    case DeleteOp(k) =>
      RemoveKeepsOrder(st.tree, k);
      RemoveWeight(st.tree, k);
      RemoveSize(st.tree, k);
      WeightIsPayload(st.tree);
      WeightIsPayload(Remove(st.tree, k));
    case ClearOp =>
      NoPayload();
  }

  lemma NoPayload()
    ensures Sorted([]) && Payload([]) == 0
  {
  }

  /** The estimate less what the entries weigh. */
  function Slack(st: State): int {
    st.estimatedSize - Weight(st.tree)
  }

  function LeftBy(es: seq<Entry>, k: bytes): nat {
    match Get(es, k)
    case None => 0
    case Some(v) => 10 + Size(v)
  }

  /**
    * The estimate follows the weight exactly, but for deletions:
    * each leaves behind the 10 bytes of its entry and the length of the value.
    */
  lemma SlackOfStep(st: State, op: Op)
    requires Sorted(st.tree)
    ensures op.SetOp? ==> Slack(Step(st, op)) == Slack(st)
    ensures op.DeleteOp? ==> Slack(Step(st, op)) == Slack(st) + LeftBy(st.tree, op.key)
    ensures op.ClearOp? ==> Slack(Step(st, op)) == 0
  {
    hide Put, Remove, Get, Sorted;
    match op
    case SetOp(k, v) => PutWeight(st.tree, k, v);
    case DeleteOp(k) => RemoveWeight(st.tree, k);
    case ClearOp =>
  }

  /** What every history keeps, and what its entries are: the estimate is never below the weight. */
  lemma {:induction false} HistoryInvariant(kind: Kind, ops: seq<Op>)
    requires AllAllowed(kind, ops)
    ensures var st := Run(FRESH, ops);
            && Sorted(st.tree) && Contents(st.tree) == Effects(map[], ops)
            && Weight(st.tree) <= st.estimatedSize
            && [] !in Contents(st.tree)
            && (forall k | k in Contents(st.tree) :: HasKind(kind, Contents(st.tree)[k]))
  {
    if ops != [] {
      var n := |ops| - 1;
      var st, op := Run(FRESH, ops[..n]), ops[n];
      HistoryInvariant(kind, ops[..n]);
      assert Allowed(kind, op);
      match op
      case SetOp(k, v) =>
        PutKeepsOrder(st.tree, k, v);
        PutWeight(st.tree, k, v);
      case DeleteOp(k) =>
        RemoveKeepsOrder(st.tree, k);
        RemoveWeight(st.tree, k);
      case ClearOp =>
    }
  }

  /** Histories with the same effect end in the same tree. */
  lemma SameEffectSameTree(kind1: Kind, ops1: seq<Op>, kind2: Kind, ops2: seq<Op>)
    requires AllAllowed(kind1, ops1) && AllAllowed(kind2, ops2)
    ensures Effects(map[], ops1) == Effects(map[], ops2) <==> Run(FRESH, ops1).tree == Run(FRESH, ops2).tree
  {
    HistoryInvariant(kind1, ops1);
    HistoryInvariant(kind2, ops2);
    if Effects(map[], ops1) == Effects(map[], ops2) {
      SortedListIsUnique(Run(FRESH, ops1).tree, Run(FRESH, ops2).tree);
    }
  }
}
