/** The map objects, the serializer and the two readers as the code runs them. */
module OrderedMaps {
  import opened Prelude
  import opened Bytes
  import opened MsgPack
  import opened OrderedTree
  import opened MapCodec

  /** `OrderedIntMap`, `OrderedStrMap` and `OrderedBufMap`, which differ in `kind`. */
  class OrderedMap {
    const kind: Kind
    var estimatedSize: int
    var tree: seq<Entry>

    /** The tree is in order, and the estimate covers its keys and values and so is not negative. */
    ghost predicate Valid()
      reads this
    {
      Consistent(kind, tree) && Payload(tree) <= estimatedSize
    }

    constructor (kind: Kind)
      ensures Valid()
      ensures this.kind == kind && AsState() == FRESH
    {
      this.kind := kind;
      estimatedSize := 0;
      tree := [];
    }

    function AsState(): State
      reads this
    {
      State(tree, estimatedSize)
    }

    function AsValue(): MapValue
      reads this
    {
      MapValue(kind, tree)
    }

    method Clear()
      modifies this
      ensures Valid()
      ensures AsState() == Step(old(AsState()), ClearOp)
    {
      tree := [];
      estimatedSize := 0;
    }

    method Delete(k: bytes)
      requires Valid()
      modifies this
      ensures Valid()
      ensures AsState() == Step(old(AsState()), DeleteOp(k))
    {
      StepKeepsPayload(AsState(), DeleteOp(k));
      RemoveKinds(kind, tree, k);
      var existed := Get(tree, k).Some?;
      tree := Remove(tree, k);
      if existed {
        estimatedSize := estimatedSize - |k|;
      }
    }

    /** Throws on the empty key and then changes nothing. */
    method Set(k: bytes, v: Value) returns (thrown: bool)
      requires Valid() && HasKind(kind, v)
      modifies this
      ensures Valid()
      ensures thrown <==> !Allowed(kind, SetOp(k, v))
      ensures AsState() == if thrown then old(AsState()) else Step(old(AsState()), SetOp(k, v))
    {
      if |k| == 0 {
        return true;
      }
      StepKeepsPayload(AsState(), SetOp(k, v));
      PutKinds(kind, tree, k, v);
      GetKind(kind, tree, k);
      var existing := Get(tree, k);
      match existing {
        case Some(oldV) =>
          if kind != IntMap {
            estimatedSize := estimatedSize + Size(v) - Size(oldV);
          }
        case None =>
          estimatedSize := estimatedSize + 10 + |k| + (if kind != IntMap then Size(v) else 0);
      }
      tree := Put(tree, k, v);
      thrown := false;
    }

    /** The loop of `LoadFrom`. */
    method LoadLoop(b: bytes, count: int) returns (left: Option<bytes>)
      requires Consistent(kind, tree)
      modifies `tree
      ensures Consistent(kind, tree)
      ensures Loaded(tree, left) == LoadEntries(kind, b, count, old(tree))
    {
      hide ReadString, ReadValue, Put, LoadEntries, Consistent, HasKind;
      var rest := b;
      var i := 0;
      while i < count
        invariant Consistent(kind, tree)
        invariant LoadEntries(kind, rest, count - i, tree) == LoadEntries(kind, b, count, old(tree))
      {
        LoadUnfolds(kind, rest, count - i, tree);
        var k := ReadString(rest);
        if k.None? {
          return None;
        }
        var v := ReadValue(kind, k.value.rest);
        if v.None? {
          return None;
        }
        ReadValueHasKind(kind, k.value.rest);
        PutKinds(kind, tree, k.value.value, v.value.value);
        tree := Put(tree, k.value.value, v.value.value);
        rest := v.value.rest;
        i := i + 1;
      }
      LoadUnfolds(kind, rest, count - i, tree);
      return Some(rest);
    }

    /**
      * Replaces the tree by what `b` holds, and returns the bytes left over unless reading failed.
      * A failure leaves the old estimate beside the entries read so far.
      */
    method LoadFrom(b: bytes) returns (left: Option<bytes>)
      modifies this
      ensures Consistent(kind, tree) && (left.Some? ==> Valid())
      ensures Loaded(tree, left) == Load(kind, b)
      ensures estimatedSize == if left.Some? then |b| - |left.value| else old(estimatedSize)
    {
      hide *;
      LoadStarts(kind, b);
      LoadEstablishesPayload(kind, b);
      NothingInconsistent(kind);
      tree := [];
      var count := ReadInt(b);
      if count.None? {
        return None;
      }
      left := LoadLoop(count.value.rest, count.value.value);
      if left.Some? {
        estimatedSize := |b| - |left.value|;
        BecomesValid();
      }
    }

    lemma BecomesValid()
      requires Consistent(kind, tree) && Payload(tree) <= estimatedSize
      ensures Valid()
    {
    }

    /** The loop of `DumpTo`: it ends at an empty key. */
    method DumpLoop(b: bytes) returns (r: bytes)
      requires EntriesFit(kind, tree)
      ensures r == b + DumpEntries(kind, tree)
    {
      hide DumpEntries, AppendString, AppendValue;
      r := b;
      assert tree[0..] == tree;
      var i := 0;
      while i < |tree| && tree[i].key != []
        invariant i <= |tree|
        invariant EntriesFit(kind, tree[i..]) && r + DumpEntries(kind, tree[i..]) == b + DumpEntries(kind, tree)
      {
        DumpStep(kind, tree, i);
        Append3(r, AppendString(tree[i].key), AppendValue(kind, tree[i]), DumpEntries(kind, tree[i + 1..]));
        r := r + AppendString(tree[i].key) + AppendValue(kind, tree[i]);
        i := i + 1;
      }
      DumpStep(kind, tree, i);
    }

    /** Appends the entries in key order, up to an empty key. */
    method DumpTo(b: bytes) returns (r: bytes)
      requires Fits(kind, tree)
      ensures r == b + Dump(kind, tree)
    {
      DumpStart(kind, tree, b);
      hide *;
      r := b + AppendInt(|tree|);
      if |tree| == 0 {
        DumpStep(kind, tree, 0);
        assert tree[0..] == tree;
        return;
      }
      r := DumpLoop(r);
    }
  }

  lemma ReadValueHasKind(kind: Kind, b: bytes)
    ensures ReadValue(kind, b).Some? ==> HasKind(kind, ReadValue(kind, b).value.value)
  {
    hide ReadInt, ReadString, ReadBytes;
  }

  lemma LoadStarts(kind: Kind, b: bytes)
    ensures Load(kind, b) == match ReadInt(b)
      case None => Loaded([], None)
      case Some(count) => LoadEntries(kind, count.rest, count.value, [])
  {
  }

  lemma LoadUnfolds(kind: Kind, b: bytes, count: int, tree: seq<Entry>)
    ensures LoadEntries(kind, b, count, tree) ==
      if count <= 0 then Loaded(tree, Some(b))
      else match ReadString(b)
        case None => Loaded(tree, None)
        case Some(k) =>
          match ReadValue(kind, k.rest)
          case None => Loaded(tree, None)
          case Some(v) => LoadEntries(kind, v.rest, count - 1, Put(tree, k.value, v.value))
  {
    hide ReadString, ReadValue, Put;
  }

  lemma Append3(r: bytes, a: bytes, b: bytes, c: bytes)
    ensures r + (a + b + c) == r + a + b + c
  {
  }

  lemma DumpStart(kind: Kind, tree: seq<Entry>, b: bytes)
    requires Fits(kind, tree)
    ensures EntriesFit(kind, tree) && IsInt64(|tree|)
    ensures b + Dump(kind, tree) == b + AppendInt(|tree|) + DumpEntries(kind, tree)
  {
  }

  lemma DumpStep(kind: Kind, tree: seq<Entry>, i: nat)
    requires EntriesFit(kind, tree) && i <= |tree|
    ensures EntriesFit(kind, tree[i..])
    ensures i < |tree| ==> FitsEntry(kind, tree[i]) && |tree[i].key| < TWO_32 && EntriesFit(kind, tree[i + 1..])
    ensures DumpEntries(kind, tree[i..]) ==
      if i == |tree| || tree[i].key == [] then []
      else AppendString(tree[i].key) + AppendValue(kind, tree[i]) + DumpEntries(kind, tree[i + 1..])
  {
  }

  /** `DeserializeMap`. */
  method DeserializeMap(b: bytes, expectedTag: int) returns (r: Result<(OrderedMap, bytes)>)
    ensures r.Throw? <==> Deserialize(b, expectedTag).Throw?
    ensures r.Ok? ==> fresh(r.value.0) && r.value.0.Valid()
    ensures r.Ok? ==> Deserialize(b, expectedTag) == Ok((r.value.0.AsValue(), r.value.1))
  {
    if |b| == 0 {
      return Throw;
    }
    if expectedTag < 0 || expectedTag > Tag(BufMap) {
      return Throw;
    }
    var tag := ReadByte(b);
    if tag.None? || tag.value.value > Tag(BufMap) {
      return Throw;
    }
    if tag.value.value != expectedTag {
      return Throw;
    }
    hide ReadByte, Load;
    var m;
    if tag.value.value == Tag(IntMap) {
      m := new OrderedMap(IntMap);
    } else if tag.value.value == Tag(StrMap) {
      m := new OrderedMap(StrMap);
    } else {
      m := new OrderedMap(BufMap);
    }
    var rest := m.LoadFrom(tag.value.rest);
    if rest.None? {
      return Throw;
    }
    return Ok((m, rest.value));
  }

  class OrderedMapReader {
    var bz: bytes

    /** The script-level constructor refuses an empty buffer before it gets here. */
    constructor (b: bytes)
      ensures bz == b
    {
      bz := b;
    }

    /** Agrees with `DeserializeMap` on the remaining bytes, and keeps them if it throws. */
    method Read(expectedTag: int) returns (r: Result<OrderedMap>)
      modifies this
      ensures match Deserialize(old(bz), expectedTag)
              case Throw => r.Throw? && bz == old(bz)
              case Ok((m, rest)) => r.Ok? && fresh(r.value) && r.value.Valid() && r.value.AsValue() == m && bz == rest
    {
      if expectedTag < 0 || expectedTag > Tag(BufMap) {
        return Throw;
      }
      var tag := ReadByte(bz);
      if tag.None? || tag.value.value > Tag(BufMap) {
        return Throw;
      }
      if tag.value.value != expectedTag {
        return Throw;
      }
      assert bz != [];
      hide ReadByte, Load;
      var m;
      if tag.value.value == Tag(IntMap) {
        m := new OrderedMap(IntMap);
      } else if tag.value.value == Tag(StrMap) {
        m := new OrderedMap(StrMap);
      } else {
        m := new OrderedMap(BufMap);
      }
      var rest := m.LoadFrom(tag.value.rest);
      if rest.None? {
        return Throw;
      }
      bz := rest.value;
      return Ok(m);
    }

    method Reset()
      modifies this
      ensures bz == []
    {
      bz := [];
    }
  }

  /** The capacity that `SerializeMaps` reserves. */
  function Capacity(maps: seq<OrderedMap>): int
    reads maps
  {
    if maps == [] then 0 else Capacity(maps[..|maps| - 1]) + 2 + maps[|maps| - 1].estimatedSize
  }

  /** Maps that went through updates and successful loads only are never refused. */
  lemma {:induction false} CapacityIsEnough(maps: seq<OrderedMap>)
    requires forall i | 0 <= i < |maps| :: maps[i].Valid()
    ensures Capacity(maps) >= 2 * |maps|
  {
    if maps != [] {
      CapacityIsEnough(maps[..|maps| - 1]);
    }
  }

  function ValuesOf(maps: seq<OrderedMap>): (ms: seq<MapValue>)
    reads maps
    ensures |ms| == |maps| && forall i | 0 <= i < |maps| :: ms[i] == maps[i].AsValue()
  {
    seq(|maps|, i requires 0 <= i < |maps| reads maps => maps[i].AsValue())
  }

  /** `SerializeMaps`. Reserving a negative capacity panics. */
  method SerializeMaps(maps: seq<OrderedMap>) returns (r: Result<bytes>)
    requires AllFit(ValuesOf(maps))
    ensures r.Throw? <==> Capacity(maps) < 0
    ensures r.Ok? ==> r.value == Serialized(ValuesOf(maps))
    ensures (forall i | 0 <= i < |maps| :: maps[i].Valid()) ==> r.Ok?
  {
    var totalSize := 0;
    for i := 0 to |maps|
      invariant totalSize == Capacity(maps[..i])
    {
      assert maps[..i + 1][..i] == maps[..i];
      totalSize := totalSize + 2 + maps[i].estimatedSize;
    }
    assert maps[..|maps|] == maps;
    if forall i | 0 <= i < |maps| :: maps[i].Valid() {
      CapacityIsEnough(maps);
    }
    if totalSize < 0 {
      return Throw;
    }
    var b := WriteMaps(maps);
    r := Ok(b);
  }

  /** Its second loop. */
  method WriteMaps(maps: seq<OrderedMap>) returns (b: bytes)
    requires AllFit(ValuesOf(maps))
    ensures b == Serialized(ValuesOf(maps))
  {
    b := [];
    ghost var ms := ValuesOf(maps);
    ghost var goal := Serialized(ms);
    assert ms[0..] == ms;
    hide Dump, DumpEntries, Fits;
    hide Serialized, AllFit, Tag;
    assert AllFit(ms[0..]) && [] + Serialized(ms[0..]) == goal;
    for i := 0 to |maps|
      invariant AllFit(ms) && AllFit(ms[i..]) && b + Serialized(ms[i..]) == goal
    {
      SerializedAt(ms, i);
      assert ms[i] == maps[i].AsValue();
      Append3(b, [Tag(maps[i].kind)], Dump(maps[i].kind, maps[i].tree), Serialized(ms[i + 1..]));
      b := b + [Tag(maps[i].kind)];
      b := maps[i].DumpTo(b);
    }
    NothingSerialized(ms[|maps|..]);
  }

  lemma NothingSerialized(ms: seq<MapValue>)
    requires ms == []
    ensures AllFit(ms) && Serialized(ms) == []
  {
  }

  lemma SerializedAt(ms: seq<MapValue>, i: nat)
    requires AllFit(ms) && i < |ms|
    ensures AllFit(ms[i..]) && AllFit(ms[i + 1..]) && Fits(ms[i].kind, ms[i].tree)
    ensures Serialized(ms[i..]) == [Tag(ms[i].kind)] + Dump(ms[i].kind, ms[i].tree) + Serialized(ms[i + 1..])
  {
  }
}
