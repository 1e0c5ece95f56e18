/** `DeriveKey`: a nine-level path over any child derivation in the shape of BIP-32. */
module KeyGrantor {
  import opened Prelude
  import opened Bytes

  type u32 = x: int | 0 <= x < TWO_32

  /** Child derivation by index; fails on the rare indices that give an invalid key. */
  type derivation<!K> = (K, u32) -> Option<K>

  ghost predicate HasChild<K>(child: derivation<K>, key: K) {
    exists index: u32 :: child(key, index).Some?
  }

  /** Every key has at least one valid index, without which the retry loop of the code would not end. */
  ghost predicate NeverStuck<K(!new)>(child: derivation<K>) {
    forall key: K :: HasChild(child, key)
  }

  function Plus(m: u32, r: nat): u32 {
    (m + r) % TWO_32
  }

  lemma PlusPlus(m: u32, a: nat, b: nat)
    ensures Plus(Plus(m, a), b) == Plus(m, a + b)
    ensures Plus(m, 0) == m
  {
  }

  function Times(a: nat, b: nat): nat {
    a * b
  }

  lemma TimesNext(a: nat, b: nat)
    ensures Times(0, b) == 0 && Times(a, 0) == 0
    ensures Times(a + 1, b) == Times(a, b) + b
  {
  }

  /** The outcome of the `r`th retry at first index `m`. */
  function Try<K>(child: derivation<K>, key: K, m: u32, r: nat): Option<K> {
    child(key, Plus(m, r))
  }

  ghost predicate WillSucceed<K>(child: derivation<K>, key: K, m: u32, r: nat) {
    exists t: nat :: r <= t < TWO_32 && Try(child, key, m, t).Some?
  }

  /** How many retries, counting from `r`, until an index succeeds. */
  ghost function Retries<K>(child: derivation<K>, key: K, m: u32, r: nat): (t: nat)
    requires WillSucceed(child, key, m, r)
    ensures r <= t < TWO_32 && Try(child, key, m, t).Some?
    ensures forall j | r <= j < t :: Try(child, key, m, j).None?
    decreases TWO_32 - r
  {
    if Try(child, key, m, r).Some? then r else Retries(child, key, m, r + 1)
  }

  lemma Reaches(m: u32, index: u32) returns (t: nat)
    ensures t < TWO_32 && Plus(m, t) == index
  {
    t := if index >= m then index - m else index - m + TWO_32;
  }

  lemma SomeRetrySucceeds<K(!new)>(child: derivation<K>, key: K, m: u32)
    requires NeverStuck(child)
    ensures WillSucceed(child, key, m, 0)
  {
    assert HasChild(child, key);
    var index: u32 :| child(key, index).Some?;
    var t := Reaches(m, index);
    hide Plus;
    assert Try(child, key, m, t).Some?;
  }

  /** The variables of the loop, with the indices used and the retries made so far. */
  datatype State<K> = State(key: K, n: nat, lastAdd: u32, lastAddUnit: u32, path: seq<u32>, retries: seq<nat>)

  /** The outcome of one depth. */
  datatype Level<K> = Level(key: K, lastAdd: u32, index: u32, retries: nat)

  function Start<K>(key: K, n: nat): State<K> {
    State(key, n, 0, 256, [], [])
  }

  /** The first index tried at depth `i`. */
  function FirstIndex<K>(s: State<K>, i: nat): u32 {
    if i == 8 then Plus(s.n % TWO_31, s.lastAdd) else s.n % TWO_31
  }

  /** One depth. */
  ghost function Descend<K(!new)>(child: derivation<K>, s: State<K>, i: nat): State<K>
    requires NeverStuck(child)
  {
    var m := FirstIndex(s, i);
    SomeRetrySucceeds(child, s.key, m);
    var r := Retries(child, s.key, m, 0);
    State(
      Try(child, s.key, m, r).value, s.n / TWO_31,
      Plus(s.lastAdd, Times(r, s.lastAddUnit)), (s.lastAddUnit * 8) % TWO_32,
      s.path + [Plus(m, r)], s.retries + [r])
  }

  ghost function DescendTo<K(!new)>(child: derivation<K>, key: K, n: nat, depth: nat): (s: State<K>)
    requires NeverStuck(child)
    ensures |s.path| == |s.retries| == depth
  {
    if depth == 0 then Start(key, n) else Descend(child, DescendTo(child, key, n, depth - 1), depth - 1)
  }

  function Pow8(i: nat): nat {
    if i == 0 then 1 else 8 * Pow8(i - 1)
  }

  lemma {:induction false} UnitAt<K(!new)>(child: derivation<K>, key: K, n: nat, i: nat)
    requires NeverStuck(child) && i <= 8
    ensures DescendTo(child, key, n, i).lastAddUnit == if i < 8 then 256 * Pow8(i) else 0
    ensures i < 8 ==> 256 * Pow8(i) < TWO_32
  {
    SmallPowers();
    if i > 0 {
      UnitAt(child, key, n, i - 1);
      assert DescendTo(child, key, n, i).lastAddUnit == (DescendTo(child, key, n, i - 1).lastAddUnit * 8) % TWO_32;
      NextUnit(i);
    }
  }

  lemma NextUnit(i: nat)
    requires 1 <= i <= 8
    ensures (256 * Pow8(i - 1) * 8) % TWO_32 == if i < 8 then 256 * Pow8(i) else 0
    ensures i < 8 ==> 256 * Pow8(i) < TWO_32
  {
    SmallPowers();
    if i == 1 {
    } else if i == 2 {
    } else if i == 3 {
    } else if i == 4 {
    } else if i == 5 {
    } else if i == 6 {
    } else if i == 7 {
    }
  }

  lemma SmallPowers()
    ensures Pow8(0) == 1 && Pow8(1) == 8 && Pow8(2) == 0x40 && Pow8(3) == 0x200 && Pow8(4) == 0x1000
    ensures Pow8(5) == 0x8000 && Pow8(6) == 0x4_0000 && Pow8(7) == 0x20_0000 && Pow8(8) == 0x100_0000
  {
  }

  /**
    * One depth of the code: try, and on failure count the retry in `lastAdd`.
    * The code assigns the key even when the derivation fails. `keepsKey` says whether the library then hands back
    * the key it was called on; if it hands back nil, the next try dereferences nil and throws.
    */
  method DeriveLevel<K(!new)>(child: derivation<K>, keepsKey: bool, parent: K, i: nat,
      remainder: u32, add: u32, lastAddUnit: u32)
    returns (r: Result<Level<K>>)
    requires NeverStuck(child)
    requires i == 8 ==> lastAddUnit == 0
    ensures var first := if i == 8 then Plus(remainder, add) else remainder;
            && WillSucceed(child, parent, first, 0)
            && var t := Retries(child, parent, first, 0);
            && (r.Throw? <==> !keepsKey && t > 0)
            && var added := Plus(add, Times(t, lastAddUnit));
            && (r.Ok? ==> r.value == Level(Try(child, parent, first, t).value, added, Plus(first, t), t))
  {
    PlusPlus(remainder, 0, 0);
    PlusPlus(add, 0, 0);
    ghost var first := if i == 8 then Plus(remainder, add) else remainder;
    TimesNext(0, lastAddUnit);
    SomeRetrySucceeds(child, parent, first);
    hide *;
    ghost var goal := Retries(child, parent, first, 0);
    var key := Some(parent);
    var m, lastAdd, retries := remainder, add, 0;
    while true
      invariant retries <= goal
      invariant m == Plus(remainder, retries)
      invariant lastAdd == Plus(add, Times(retries, lastAddUnit))
      invariant key == if keepsKey || retries == 0 then Some(parent) else None
      decreases goal - retries
    {
      if key.None? {
        return Throw;
      }
      var index := if i == 8 then Plus(m, lastAdd) else m;
      IndexTried(i, remainder, add, lastAddUnit, retries, m, lastAdd);
      var c := child(key.value, index);
      TryAt(child, parent, first, retries);
      if c.Some? {
        return Ok(Level(c.value, lastAdd, index, retries));
      }
      key := if keepsKey then key else None;
      assert retries != goal;
      AfterFailure(remainder, add, lastAddUnit, retries);
      lastAdd := Plus(lastAdd, lastAddUnit);
      m := Plus(m, 1);
      retries := retries + 1;
    }
  }

  lemma TryAt<K>(child: derivation<K>, key: K, m: u32, r: nat)
    ensures Try(child, key, m, r) == child(key, Plus(m, r))
  {
  }

  lemma AfterFailure(remainder: u32, add: u32, unit: u32, r: nat)
    ensures Plus(Plus(add, Times(r, unit)), unit) == Plus(add, Times(r + 1, unit))
    ensures Plus(Plus(remainder, r), 1) == Plus(remainder, r + 1)
  {
    TimesNext(r, unit);
    PlusPlus(add, Times(r, unit), unit);
    PlusPlus(remainder, r, 1);
  }

  lemma IndexTried(i: nat, remainder: u32, add: u32, unit: u32, r: nat, m: u32, lastAdd: u32)
    requires i == 8 ==> unit == 0
    requires m == Plus(remainder, r) && lastAdd == Plus(add, Times(r, unit))
    ensures (if i == 8 then Plus(m, lastAdd) else m) == Plus(if i == 8 then Plus(remainder, add) else remainder, r)
  {
    hide Plus, Times;
    if i == 8 {
      TimesNext(r, unit);
      PlusPlus(add, 0, 0);
      PlusPlus(remainder, r, add);
      PlusPlus(remainder, add, r);
    }
  }

  predicate NoRetries(retries: seq<nat>) {
    forall i | 0 <= i < |retries| :: retries[i] == 0
  }

  datatype Derived<K> = Derived(key: K, path: seq<u32>, retries: seq<nat>)

  /** The source returns only the key; the indices it used and its retry counts are returned beside it. */
  method DeriveKey<K(!new)>(child: derivation<K>, keepsKey: bool, root: K, hash: bytes) returns (r: Result<Derived<K>>)
    requires NeverStuck(child) && |hash| == 32
    ensures var s := DescendTo(child, root, FromBytes(hash), 9);
            && (r.Throw? <==> !keepsKey && !NoRetries(s.retries))
            && (r.Ok? ==> r.value == Derived(s.key, s.path, s.retries))
  {
    hide Plus, Times, Retries, NeverStuck, Try;
    var key := root;
    var path: seq<u32>, retries: seq<nat> := [], [];
    var n: nat := FromBytes(hash);
    ghost var number := n;
    var lastAdd: u32, lastAddUnit: u32 := 0, 256;
    for i := 0 to 9
      invariant n >= 0
      invariant State(key, n, lastAdd, lastAddUnit, path, retries) == DescendTo(child, root, number, i)
      invariant keepsKey || NoRetries(retries)
    {
      UnitAt(child, root, number, if i <= 8 then i else 8);
      var remainder: u32 := n % TWO_31;
      n := n / TWO_31;
      var level := DeriveLevel(child, keepsKey, key, i, remainder, lastAdd, lastAddUnit);
      if level.Throw? {
        assert DescendTo(child, root, number, i + 1).retries[i] > 0;
        RetriesStay(child, root, number, i + 1, 9);
        assert DescendTo(child, root, number, 9).retries[i] > 0;
        return Throw;
      }
      key, lastAdd := level.value.key, level.value.lastAdd;
      path, retries := path + [level.value.index], retries + [level.value.retries];
      lastAddUnit := (lastAddUnit * 8) % TWO_32;
    }
    return Ok(Derived(key, path, retries));
  }

  lemma {:induction false} RetriesStay<K(!new)>(child: derivation<K>, root: K, n: nat, i: nat, j: nat)
    requires NeverStuck(child) && i <= j
    ensures DescendTo(child, root, n, i).retries <= DescendTo(child, root, n, j).retries
    decreases j
  {
    if i < j {
      RetriesStay(child, root, n, i, j - 1);
    }
  }
}
