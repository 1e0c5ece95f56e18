/** What the path of `DeriveKey` tells about the hash, and about the public side of the keys. */
module KeyPaths {
  import opened Prelude
  import opened Bytes
  import opened KeyGrantor

  // ---- Reading a path ----

  /** `x >> 3i` */
  function Shift(x: nat, i: nat): nat {
    if i == 0 then x else Shift(x / 8, i - 1)
  }

  /** The 3 bits of the last index that are to hold the retry count of depth `i`. */
  function Field(last: u32, i: nat): nat {
    Shift(last / 256, i) % 8
  }

  /** The number whose base-2^31 digits from depth `i` on are the indices less their retries. */
  function DecodeFrom(path: seq<u32>, i: nat): int
    requires |path| == 9 && i <= 8
    decreases 8 - i
  {
    if i == 8 then path[8] % 256 else path[i] - Field(path[8], i) + TWO_31 * DecodeFrom(path, i + 1)
  }

  function Decode(path: seq<u32>): int
    requires |path| == 9
  {
    DecodeFrom(path, 0)
  }

  /** Retry counts that fit their fields; a retry at the last depth is not recorded at all. */
  predicate Recorded(retries: seq<nat>) {
    |retries| == 9 && retries[8] == 0 && forall i | 0 <= i < 8 :: retries[i] <= 7
  }

  /** Octal digits, lowest first. */
  function Pack(rs: seq<nat>): nat {
    if rs == [] then 0 else rs[0] + 8 * Pack(rs[1..])
  }

  lemma {:induction false} PackSnoc(rs: seq<nat>, r: nat)
    ensures Pack(rs + [r]) == Pack(rs) + r * Pow8(|rs|)
  {
    if rs != [] {
      assert (rs + [r])[1..] == rs[1..] + [r];
      PackSnoc(rs[1..], r);
      MoveEight(r, Pow8(|rs| - 1));
    }
  }

  lemma MoveEight(r: nat, p: nat)
    ensures 8 * (r * p) == r * (8 * p)
  {
  }

  lemma {:induction false} PackBound(rs: seq<nat>)
    requires forall i | 0 <= i < |rs| :: rs[i] <= 7
    ensures Pack(rs) < Pow8(|rs|)
  {
    if rs != [] {
      PackBound(rs[1..]);
    }
  }

  lemma {:induction false} FieldsOfPack(rs: seq<nat>, i: nat)
    requires i < |rs| && forall j | 0 <= j < |rs| :: rs[j] <= 7
    ensures Shift(Pack(rs), i) % 8 == rs[i]
  {
    assert Pack(rs) == rs[0] + 8 * Pack(rs[1..]);
    if i > 0 {
      assert Pack(rs) / 8 == Pack(rs[1..]);
      FieldsOfPack(rs[1..], i - 1);
    }
  }

  // ---- The variables of the loop under recorded retries ----

  /** What one depth does to the variables. */
  lemma StepFacts<K(!new)>(child: derivation<K>, root: K, n: nat, i: nat) returns (r: nat)
    requires NeverStuck(child)
    ensures var s, t := DescendTo(child, root, n, i), DescendTo(child, root, n, i + 1);
            && t.retries == s.retries + [r] && t.path == s.path + [Plus(FirstIndex(s, i), r)]
            && t.n == s.n / TWO_31 && t.lastAdd == Plus(s.lastAdd, Times(r, s.lastAddUnit))
  {
    r := DescendTo(child, root, n, i + 1).retries[i];
  }

  lemma {:induction false} Prefixes<K(!new)>(child: derivation<K>, root: K, n: nat, i: nat, j: nat)
    requires NeverStuck(child) && i <= j
    ensures DescendTo(child, root, n, i).path == DescendTo(child, root, n, j).path[..i]
    ensures DescendTo(child, root, n, i).retries == DescendTo(child, root, n, j).retries[..i]
    decreases j
  {
    hide *;
    if i < j {
      var r := StepFacts(child, root, n, j - 1);
      Prefixes(child, root, n, i, j - 1);
      var t, u := DescendTo(child, root, n, j - 1), DescendTo(child, root, n, j);
      assert u.path[..i] == t.path[..i] && u.retries[..i] == t.retries[..i];
    }
  }

  /** 2^(256 - 31i) */
  function Bound(i: nat): nat
    requires i <= 8
    decreases 8 - i
  {
    if i == 8 then 256 else TWO_31 * Bound(i + 1)
  }

  lemma BoundAtStart()
    ensures Bound(0) == TWO_256
  {
  }

  lemma {:induction false} RemainingBits<K(!new)>(child: derivation<K>, root: K, n: nat, i: nat)
    requires NeverStuck(child) && n < TWO_256 && i <= 8
    ensures DescendTo(child, root, n, i).n < Bound(i)
  {
    if i == 0 {
      BoundAtStart();
    } else {
      RemainingBits(child, root, n, i - 1);
      assert DescendTo(child, root, n, i).n == DescendTo(child, root, n, i - 1).n / TWO_31;
    }
  }

  /** `lastAdd` packs the retries above the low 8 bits and never wraps. */
  lemma {:induction false} LastAddPacksRetries<K(!new)>(child: derivation<K>, root: K, n: nat, i: nat)
    requires NeverStuck(child) && i <= 8
    requires forall j | 0 <= j < i :: DescendTo(child, root, n, i).retries[j] <= 7
    ensures DescendTo(child, root, n, i).lastAdd == 256 * Pack(DescendTo(child, root, n, i).retries)
    ensures Pack(DescendTo(child, root, n, i).retries) < Pow8(i)
  {
    if i > 0 {
      var r := StepFacts(child, root, n, i - 1);
      UnitAt(child, root, n, i - 1);
      var s, t := DescendTo(child, root, n, i - 1), DescendTo(child, root, n, i);
      assert forall j | 0 <= j < i - 1 :: s.retries[j] == t.retries[j];
      LastAddPacksRetries(child, root, n, i - 1);
      hide DescendTo, Plus, Times, Pack;
      PackSnoc(s.retries, r);
      PackBound(t.retries);
      PowersGrow(i);
      AddField(s.lastAdd, Pack(s.retries), r, Pow8(i - 1), s.lastAddUnit, Pack(t.retries));
    } else {
      SmallPowers();
    }
  }

  lemma AddField(add: u32, packed: nat, r: nat, p: nat, unit: nat, all: nat)
    requires add == 256 * packed && unit == 256 * p && all == packed + r * p && all < 0x100_0000
    ensures Plus(add, Times(r, unit)) == 256 * all
  {
    assert r * (256 * p) == 256 * (r * p);
  }

  lemma PowersGrow(i: nat)
    requires i <= 8
    ensures Pow8(i) <= 0x100_0000
  {
    SmallPowers();
    if i == 0 {
    } else if i == 1 {
    } else if i == 2 {
    } else if i == 3 {
    } else if i == 4 {
    } else if i == 5 {
    } else if i == 6 {
    } else if i == 7 {
    }
  }

  /** The last index holds the last digit and, above it, every retry count. */
  lemma LastIndexHoldsRetries<K(!new)>(child: derivation<K>, root: K, n: nat)
    requires NeverStuck(child) && n < TWO_256
    requires Recorded(DescendTo(child, root, n, 9).retries)
    ensures var s := DescendTo(child, root, n, 9);
            && DescendTo(child, root, n, 8).n < 256
            && s.path[8] == DescendTo(child, root, n, 8).n + 256 * Pack(s.retries[..8])
            && (forall i | 0 <= i < 8 :: Field(s.path[8], i) == s.retries[i])
  {
    var r := StepFacts(child, root, n, 8);
    RemainingBits(child, root, n, 8);
    var s, t := DescendTo(child, root, n, 9), DescendTo(child, root, n, 8);
    hide DescendTo;
    assert s.retries[..8] == t.retries;
    assert forall j | 0 <= j < 8 :: t.retries[j] == s.retries[j];
    LastAddPacksRetries(child, root, n, 8);
    PowersGrow(8);
    LastIndexValue(t.n, t.lastAdd, Pack(t.retries));
    hide *;
    forall i | 0 <= i < 8
      ensures Field(s.path[8], i) == s.retries[i]
    {
      FieldIsRetry(s.path[8], t.retries, i);
    }
  }

  lemma FieldIsRetry(last: u32, rs: seq<nat>, i: nat)
    requires last / 256 == Pack(rs) && i < |rs| && forall j | 0 <= j < |rs| :: rs[j] <= 7
    ensures Field(last, i) == rs[i]
  {
    FieldsOfPack(rs, i);
  }

  lemma LastIndexValue(digit: nat, lastAdd: u32, packed: nat)
    requires digit < 256 && lastAdd == 256 * packed && packed < 0x100_0000
    ensures Plus(Plus(digit % TWO_31, lastAdd), 0) == digit + 256 * packed
    ensures (digit + 256 * packed) / 256 == packed
  {
  }

  lemma PlusSmall(m: u32, r: nat)
    requires m < TWO_31 && r < TWO_31
    ensures Plus(m, r) == m + r
  {
  }

  lemma IndexOfDigit<K(!new)>(child: derivation<K>, root: K, n: nat, i: nat)
    requires NeverStuck(child) && i < 8
    requires Recorded(DescendTo(child, root, n, 9).retries)
    ensures var s := DescendTo(child, root, n, 9);
            s.path[i] == DescendTo(child, root, n, i).n % TWO_31 + s.retries[i]
  {
    var r := StepFacts(child, root, n, i);
    Prefixes(child, root, n, i + 1, 9);
    var digit := DescendTo(child, root, n, i).n % TWO_31;
    assert FirstIndex(DescendTo(child, root, n, i), i) == digit;
    var s, t := DescendTo(child, root, n, 9), DescendTo(child, root, n, i + 1);
    assert s.retries[i] <= 7;
    hide *;
    assert s.path[i] == t.path[i] && s.retries[i] == t.retries[i] == r;
    PlusSmall(digit, r);
  }

  lemma {:induction false} DecodeFromIsRest<K(!new)>(child: derivation<K>, root: K, n: nat, i: nat)
    requires NeverStuck(child) && n < TWO_256 && i <= 8
    requires Recorded(DescendTo(child, root, n, 9).retries)
    ensures DecodeFrom(DescendTo(child, root, n, 9).path, i) == DescendTo(child, root, n, i).n
    decreases 8 - i
  {
    LastIndexHoldsRetries(child, root, n);
    DecodeUnfolds(DescendTo(child, root, n, 9).path, i);
    hide *;
    if i < 8 {
      DecodeFromIsRest(child, root, n, i + 1);
      IndexOfDigit(child, root, n, i);
      var r := StepFacts(child, root, n, i);
    } else {
      PackedLow(DescendTo(child, root, n, 8).n, Pack(DescendTo(child, root, n, 9).retries[..8]));
    }
  }

  lemma DecodeUnfolds(path: seq<u32>, i: nat)
    requires |path| == 9 && i <= 8
    ensures DecodeFrom(path, i) ==
      if i == 8 then path[8] % 256 else path[i] - Field(path[8], i) + TWO_31 * DecodeFrom(path, i + 1)
  {
  }

  lemma PackedLow(digit: nat, packed: nat)
    requires digit < 256
    ensures (digit + 256 * packed) % 256 == digit
  {
  }

  /** The nine indices give back the hash. */
  lemma PathDeterminesNumber<K(!new)>(child: derivation<K>, root: K, n: nat)
    requires NeverStuck(child) && n < TWO_256
    requires Recorded(DescendTo(child, root, n, 9).retries)
    ensures Decode(DescendTo(child, root, n, 9).path) == n
  {
    DecodeFromIsRest(child, root, n, 0);
  }

  lemma FourBytes(i: nat)
    ensures Pow256(i + 4) == TWO_32 * Pow256(i)
  {
    assert Pow256(i + 2) == 0x1_0000 * Pow256(i);
  }

  lemma Hash256(b: bytes)
    requires |b| == 32
    ensures FromBytes(b) < TWO_256
  {
    FromBytesBound(b);
    assert Pow256(0) == 1;
    FourBytes(0);
    FourBytes(4);
    FourBytes(8);
    FourBytes(12);
    FourBytes(16);
    FourBytes(20);
    FourBytes(24);
    FourBytes(28);
    hide *;
  }

  /** Different hashes never share a path, whatever the roots and the failing indices, if the retries are recorded. */
  lemma PathDeterminesHash<K(!new)>(child1: derivation<K>, root1: K, hash1: bytes,
      child2: derivation<K>, root2: K, hash2: bytes)
    requires NeverStuck(child1) && NeverStuck(child2) && |hash1| == |hash2| == 32
    requires Recorded(DescendTo(child1, root1, FromBytes(hash1), 9).retries)
    requires Recorded(DescendTo(child2, root2, FromBytes(hash2), 9).retries)
    requires DescendTo(child1, root1, FromBytes(hash1), 9).path == DescendTo(child2, root2, FromBytes(hash2), 9).path
    ensures hash1 == hash2
  {
    Hash256(hash1);
    Hash256(hash2);
    PathDeterminesNumber(child1, root1, FromBytes(hash1));
    PathDeterminesNumber(child2, root2, FromBytes(hash2));
    FromBytesIsInjective(hash1, hash2);
  }

  // ---- The key at the end of the path ----

  function DeriveAlong<K>(child: derivation<K>, key: K, path: seq<u32>): Option<K> {
    if path == [] then Some(key)
    else match DeriveAlong(child, key, path[..|path| - 1])
      case None => None
      case Some(parent) => child(parent, path[|path| - 1])
  }

  /** The derived key is the descendant of the root along the path. */
  lemma {:induction false} PathLeadsToKey<K(!new)>(child: derivation<K>, root: K, n: nat, depth: nat)
    requires NeverStuck(child)
    ensures var s := DescendTo(child, root, n, depth);
            DeriveAlong(child, root, s.path) == Some(s.key)
  {
    if depth > 0 {
      PathLeadsToKey(child, root, n, depth - 1);
      var s, t := DescendTo(child, root, n, depth - 1), DescendTo(child, root, n, depth);
      assert t.path[..depth - 1] == s.path;
    }
  }

  /** Every index that was passed over is one that fails. */
  lemma PassedIndicesFail<K(!new)>(child: derivation<K>, root: K, n: nat, i: nat, j: nat)
    requires NeverStuck(child) && j < DescendTo(child, root, n, i + 1).retries[i]
    ensures var s := DescendTo(child, root, n, i);
            child(s.key, Plus(FirstIndex(s, i), j)).None?
  {
    var s := DescendTo(child, root, n, i);
    SomeRetrySucceeds(child, s.key, FirstIndex(s, i));
    assert Try(child, s.key, FirstIndex(s, i), j).None?;
  }

  // ---- Public keys ----

  /** Child derivation commutes with taking the public part, and fails alike, below the hardened indices. */
  ghost predicate CommutesWithNeuter<K(!new)>(child: derivation<K>, neuter: K -> K) {
    forall k: K, index: u32 | index < TWO_31 ::
      child(neuter(k), index) == match child(k, index) case None => None case Some(c) => Some(neuter(c))
  }

  /** No index tried at depth `i` is hardened. */
  ghost predicate SoftAt<K(!new)>(child: derivation<K>, root: K, n: nat, i: nat)
    requires NeverStuck(child)
  {
    FirstIndex(DescendTo(child, root, n, i), i) + DescendTo(child, root, n, i + 1).retries[i] < TWO_31
  }

  lemma {:induction false} SameRetries<K(!new)>(child: derivation<K>, neuter: K -> K, key: K, m: u32, r: nat)
    requires CommutesWithNeuter(child, neuter)
    requires WillSucceed(child, key, m, r) && WillSucceed(child, neuter(key), m, r)
    requires m + Retries(child, key, m, r) < TWO_31
    ensures Retries(child, neuter(key), m, r) == Retries(child, key, m, r)
    decreases TWO_32 - r
  {
    assert Plus(m, r) == m + r < TWO_31;
    assert child(neuter(key), Plus(m, r)).Some? <==> child(key, Plus(m, r)).Some?;
    if Try(child, key, m, r).None? {
      SameRetries(child, neuter, key, m, r + 1);
    }
  }

  /** While only non-hardened indices are tried, deriving from the public root gives the public derived key. */
  lemma {:induction false} PublicDerivationAgrees<K(!new)>(child: derivation<K>, neuter: K -> K,
      root: K, n: nat, depth: nat)
    requires NeverStuck(child) && CommutesWithNeuter(child, neuter)
    requires forall i: nat | i < depth :: SoftAt(child, root, n, i)
    ensures var s, p := DescendTo(child, root, n, depth), DescendTo(child, neuter(root), n, depth);
            p == s.(key := neuter(s.key))
  {
    if depth > 0 {
      var i := depth - 1;
      PublicDerivationAgrees(child, neuter, root, n, i);
      assert SoftAt(child, root, n, i);
      PublicStep(child, neuter, DescendTo(child, root, n, i), i);
    }
  }

  lemma PublicStep<K(!new)>(child: derivation<K>, neuter: K -> K, s: State<K>, i: nat)
    requires NeverStuck(child) && CommutesWithNeuter(child, neuter)
    requires |s.retries| == i && FirstIndex(s, i) + Descend(child, s, i).retries[i] < TWO_31
    ensures var t := Descend(child, s, i);
            Descend(child, s.(key := neuter(s.key)), i) == t.(key := neuter(t.key))
  {
    var m, p := FirstIndex(s, i), s.(key := neuter(s.key));
    SomeRetrySucceeds(child, s.key, m);
    SomeRetrySucceeds(child, p.key, m);
    var r := Retries(child, s.key, m, 0);
    SameRetries(child, neuter, s.key, m, 0);
    SoftTry(child, neuter, s.key, m, r);
    hide Try, Plus, Retries, FirstIndex;
  }

  lemma SoftTry<K(!new)>(child: derivation<K>, neuter: K -> K, key: K, m: u32, r: nat)
    requires CommutesWithNeuter(child, neuter) && m + r < TWO_31 && Try(child, key, m, r).Some?
    ensures Try(child, neuter(key), m, r) == Some(neuter(Try(child, key, m, r).value))
  {
  }

  /** A derivation that never has to retry tries only non-hardened indices. */
  lemma {:induction false} NoRetriesAreSoft<K(!new)>(child: derivation<K>, root: K, n: nat, i: nat)
    requires NeverStuck(child) && n < TWO_256 && i <= 8
    requires NoRetries(DescendTo(child, root, n, i + 1).retries)
    ensures SoftAt(child, root, n, i)
  {
    hide DescendTo, NeverStuck, Pack, Bound;
    if i == 8 {
      Prefixes(child, root, n, 8, 9);
      var t := DescendTo(child, root, n, 8);
      assert forall j | 0 <= j < 8 :: t.retries[j] == DescendTo(child, root, n, 9).retries[j];
      LastAddPacksRetries(child, root, n, 8);
      AllZero(t.retries);
      RemainingBits(child, root, n, 8);
      SmallBound();
    }
  }

  lemma SmallBound()
    ensures Bound(8) == 256
  {
  }

  lemma {:induction false} AllZero(rs: seq<nat>)
    requires NoRetries(rs)
    ensures Pack(rs) == 0
  {
    if rs != [] {
      AllZero(rs[1..]);
    }
  }

  /**
    * If a failing derivation hands back nil, then whatever returns has not retried. So, with no further condition,
    * its path gives back the hash and the public root leads to the public key along the same path.
    */
  lemma WithoutRetriesAllHolds<K(!new)>(child: derivation<K>, neuter: K -> K, root: K, hash: bytes)
    requires NeverStuck(child) && CommutesWithNeuter(child, neuter) && |hash| == 32
    requires NoRetries(DescendTo(child, root, FromBytes(hash), 9).retries)
    ensures var s, p := DescendTo(child, root, FromBytes(hash), 9), DescendTo(child, neuter(root), FromBytes(hash), 9);
            && Decode(s.path) == FromBytes(hash)
            && p == s.(key := neuter(s.key))
  {
    var n := FromBytes(hash);
    Hash256(hash);
    PathDeterminesNumber(child, root, n);
    forall i: nat | i < 9
      ensures SoftAt(child, root, n, i)
    {
      Prefixes(child, root, n, i + 1, 9);
      assert forall j | 0 <= j < i + 1 ::
        DescendTo(child, root, n, i + 1).retries[j] == DescendTo(child, root, n, 9).retries[j];
      NoRetriesAreSoft(child, root, n, i);
    }
    PublicDerivationAgrees(child, neuter, root, n, 9);
  }

  // ---- Where the record of retries ends ----

  lemma {:induction false} CountRetries<K>(child: derivation<K>, key: K, m: u32, r: nat, t: nat)
    requires r <= t < TWO_32 && Try(child, key, m, t).Some?
    requires forall j | r <= j < t :: Try(child, key, m, j).None?
    ensures WillSucceed(child, key, m, r) && Retries(child, key, m, r) == t
    decreases t - r
  {
  }

  /** One depth computed: `s` is the state before it, `t` the number of retries it takes. */
  lemma Compute<K(!new)>(child: derivation<K>, root: K, n: nat, i: nat, s: State<K>, t: nat, c: K)
    requires NeverStuck(child) && s == DescendTo(child, root, n, i) && t < TWO_32
    requires Try(child, s.key, FirstIndex(s, i), t) == Some(c)
    requires forall j | 0 <= j < t :: Try(child, s.key, FirstIndex(s, i), j).None?
    ensures DescendTo(child, root, n, i + 1) == State(
      c, s.n / TWO_31, Plus(s.lastAdd, Times(t, s.lastAddUnit)), (s.lastAddUnit * 8) % TWO_32,
      s.path + [Plus(FirstIndex(s, i), t)], s.retries + [t])
  {
    CountRetries(child, s.key, FirstIndex(s, i), 0, t);
  }

  /** The least number of retries at depth `d` that the last index does not record. */
  function Unrecorded(d: nat): nat {
    if d < 8 then 8 else 1
  }

  predicate Fails(d: nat, depth: nat, index: nat) {
    (depth == d && index < Unrecorded(d)) || (d < 7 && depth == d + 1 && index == 0)
  }

  /** A derivation whose keys are depths: that many indices fail at depth `d`, and one below it. */
  function Unlucky(d: nat): derivation<nat> {
    (depth: nat, index: u32) => if Fails(d, depth, index) then None else Some(depth + 1)
  }

  lemma UnluckyNeverStuck(d: nat)
    ensures NeverStuck(Unlucky(d))
  {
    forall depth: nat
      ensures HasChild(Unlucky(d), depth)
    {
      var index: u32 := 8;
      assert Unlucky(d)(depth, index).Some?;
    }
  }

  function Pow31(i: nat): nat {
    if i == 0 then 1 else TWO_31 * Pow31(i - 1)
  }

  /** A number that needs the unrecorded retries at depth `d` ... */
  function Retrying(d: nat): nat {
    if d < 7 then Pow31(d + 1) else 0
  }

  /** ... and one that uses the index they lead to at once. */
  function Direct(d: nat): nat {
    Times(Unrecorded(d), Pow31(d))
  }

  function Zeros(n: nat): seq<u32> {
    seq(n, _ => 0)
  }

  function NoRetry(n: nat): seq<nat> {
    seq(n, _ => 0)
  }

  function Unit(i: nat): nat {
    if i < 8 then 256 * Pow8(i) else 0
  }

  lemma MoveDigit(c: nat, i: nat)
    requires i > 0
    ensures Times(c, Pow31(i)) % TWO_31 == 0 && Times(c, Pow31(i)) / TWO_31 == Times(c, Pow31(i - 1))
  {
    var p := Pow31(i - 1);
    assert c * (TWO_31 * p) == TWO_31 * (c * p);
  }

  lemma FirstIndexOf<K>(s: State<K>, i: nat)
    requires s.lastAdd == 0
    ensures FirstIndex(s, i) == s.n % TWO_31
  {
  }

  lemma OneDepth<K(!new)>(child: derivation<K>, root: K, n: nat, i: nat, s: State<K>, t: nat, c: K)
    returns (u: State<K>)
    requires NeverStuck(child) && s == DescendTo(child, root, n, i) && t < TWO_32
    requires Try(child, s.key, FirstIndex(s, i), t) == Some(c)
    requires forall j | 0 <= j < t :: Try(child, s.key, FirstIndex(s, i), j).None?
    ensures u == DescendTo(child, root, n, i + 1)
    ensures u == State(
      c, s.n / TWO_31, Plus(s.lastAdd, Times(t, s.lastAddUnit)), (s.lastAddUnit * 8) % TWO_32,
      s.path + [Plus(FirstIndex(s, i), t)], s.retries + [t])
  {
    Compute(child, root, n, i, s, t, c);
    u := DescendTo(child, root, n, i + 1);
  }

  lemma {:induction false} LeadingZeros(d: nat, c: nat, i: nat)
    requires i <= d <= 8 && NeverStuck(Unlucky(d))
    ensures Unit(i) < TWO_32
    ensures DescendTo(Unlucky(d), 0, Times(c, Pow31(d)), i)
         == State(i, Times(c, Pow31(d - i)), 0, Unit(i), Zeros(i), NoRetry(i))
  {
    hide DescendTo, Pow31, Pow8, Times, Plus, NeverStuck, Unlucky, Try, FirstIndex, Unit;
    UnitBelow(i);
    if i == 0 {
      NothingDone(Unlucky(d), Times(c, Pow31(d)));
    } else {
      LeadingZeros(d, c, i - 1);
      MoveDigit(c, d - i + 1);
      FirstTryBefore(d, i);
      UnitBelow(i - 1);
      var s: State<nat> := State(i - 1, Times(c, Pow31(d - i + 1)), 0, Unit(i - 1), Zeros(i - 1), NoRetry(i - 1));
      FirstIndexOf(s, i - 1);
      var t := OneDepth<nat>(Unlucky(d), 0, Times(c, Pow31(d)), i - 1, s, 0, i);
    }
  }

  lemma NothingDone(child: derivation<nat>, n: nat)
    requires NeverStuck(child)
    ensures DescendTo(child, 0, n, 0) == State(0, n, 0, Unit(0), Zeros(0), NoRetry(0))
  {
  }

  lemma UnitBelow(i: nat)
    requires i <= 8
    ensures Unit(i) < TWO_32
    ensures i < 8 ==> (Unit(i) * 8) % TWO_32 == Unit(i + 1)
  {
    SmallPowers();
    if i > 0 {
      NextUnit(i);
    }
    if i < 8 {
      NextUnit(i + 1);
    }
  }

  lemma FirstTryBefore(d: nat, i: nat)
    requires 0 < i <= d
    ensures Try<nat>(Unlucky(d), i - 1, 0, 0) == Some(i)
    ensures Plus(0, 0) == 0 && forall unit: nat :: Times(0, unit) == 0
    ensures Zeros(i) == Zeros(i - 1) + [0] && NoRetry(i) == NoRetry(i - 1) + [0]
  {
  }

  lemma RetryingRest(d: nat) returns (c: nat)
    ensures Times(c, Pow31(d)) == Retrying(d)
    ensures Times(c, Pow31(d - d)) == c && c % TWO_31 == 0 && c / TWO_31 == if d < 7 then 1 else 0
  {
    c := if d < 7 then TWO_31 else 0;
  }

  /** From a digit of zero the tries at depth `d` fail up to the unrecorded number of retries. */
  lemma UnluckyTries(d: nat)
    ensures forall j: nat | j < Unrecorded(d) :: Try<nat>(Unlucky(d), d, 0, j).None?
    ensures Try<nat>(Unlucky(d), d, 0, Unrecorded(d)) == Some(d + 1)
    ensures Plus(0, Unrecorded(d)) == Unrecorded(d) && Plus(0, 0) == 0 && Unrecorded(d) < TWO_32
  {
  }

  lemma RetryingAt(d: nat) returns (s: State<nat>)
    requires d <= 8 && NeverStuck(Unlucky(d)) && Unit(d) < TWO_32
    ensures s == DescendTo(Unlucky(d), 0, Retrying(d), d + 1)
    ensures s == State(
      d + 1, if d < 7 then 1 else 0, Plus(0, Times(Unrecorded(d), Unit(d))), (Unit(d) * 8) % TWO_32,
      Zeros(d) + [Unrecorded(d)], NoRetry(d) + [Unrecorded(d)])
  {
    var c := RetryingRest(d);
    LeadingZeros(d, c, d);
    UnluckyTries(d);
    FirstIndexOf<nat>(State(d, c, 0, Unit(d), Zeros(d), NoRetry(d)), d);
    hide *;
    var before := State(d, c, 0, Unit(d), Zeros(d), NoRetry(d));
    s := OneDepth<nat>(Unlucky(d), 0, Retrying(d), d, before, Unrecorded(d), d + 1);
  }

  lemma DirectAt(d: nat) returns (t: State<nat>)
    requires d <= 8 && NeverStuck(Unlucky(d)) && Unit(d) < TWO_32
    ensures t == DescendTo(Unlucky(d), 0, Direct(d), d + 1)
    ensures t == State(d + 1, 0, 0, (Unit(d) * 8) % TWO_32, Zeros(d) + [Unrecorded(d)], NoRetry(d) + [0])
  {
    var r := Unrecorded(d);
    LeadingZeros(d, r, d);
    assert Times(r, Pow31(0)) == r;
    hide Pow31, Direct, Times, Unit, DescendTo, NeverStuck;
    PlusPlus(r, 0, 0);
    TimesNext(0, Unit(d));
    t := OneDepth<nat>(Unlucky(d), 0, Direct(d), d, State(d, r, 0, Unit(d), Zeros(d), NoRetry(d)), 0, d + 1);
  }

  /** At depth `d` both numbers use the same index, one of them after retries. */
  lemma AtDepth(d: nat) returns (s: State<nat>, t: State<nat>)
    requires d <= 8 && NeverStuck(Unlucky(d))
    ensures s == DescendTo(Unlucky(d), 0, Retrying(d), d + 1) && t == DescendTo(Unlucky(d), 0, Direct(d), d + 1)
    ensures s.n == (if d < 7 then 1 else 0) && t.n == 0 && s.key == t.key == d + 1
    ensures s.lastAddUnit == t.lastAddUnit && s.path == t.path && t.lastAdd == 0
    ensures s.lastAdd == if d < 7 then s.lastAddUnit else 0
    ensures s.retries == NoRetry(d) + [Unrecorded(d)] && t.retries == NoRetry(d) + [0]
  {
    hide *;
    UnrecordedAdds(d);
    s := RetryingAt(d);
    t := DirectAt(d);
  }

  /** The retries add the unit of the next depth, or nothing at all. */
  lemma UnrecordedAdds(d: nat)
    requires d <= 8
    ensures Unit(d) < TWO_32
    ensures Plus(0, Times(Unrecorded(d), Unit(d))) == if d < 7 then (Unit(d) * 8) % TWO_32 else 0
  {
    SmallPowers();
    if d > 0 {
      NextUnit(d);
    }
    if d < 8 {
      NextUnit(d + 1);
    }
  }

  /** They differ in their retries only. */
  predicate Alike<K(==)>(s: State<K>, t: State<K>) {
    s.key == t.key && s.n == t.n && s.lastAdd == t.lastAdd && s.lastAddUnit == t.lastAddUnit && s.path == t.path
  }

  /** There a first index of 1 is good, and one of 0 takes one retry. */
  lemma TriesBelow(d: nat, s: State<nat>, t: State<nat>)
    requires d < 7 && s.n == 1 && t.n == 0 && s.key == t.key == d + 1 && t.lastAdd == 0
    requires s.lastAdd == s.lastAddUnit == t.lastAddUnit
    ensures FirstIndex(s, d + 1) == 1 && FirstIndex(t, d + 1) == 0
    ensures Try<nat>(Unlucky(d), d + 1, 1, 0) == Some(d + 2)
    ensures Try<nat>(Unlucky(d), d + 1, 0, 0).None? && Try<nat>(Unlucky(d), d + 1, 0, 1) == Some(d + 2)
    ensures Plus(1, 0) == 1 == Plus(0, 1)
    ensures Plus(s.lastAdd, Times(0, s.lastAddUnit)) == Plus(t.lastAdd, Times(1, t.lastAddUnit))
  {
    TimesNext(0, s.lastAddUnit);
  }

  /** One depth further down, a single retry of the other number makes up for the unrecorded ones. */
  lemma BelowDepth(d: nat) returns (s: State<nat>, t: State<nat>)
    requires d < 7 && NeverStuck(Unlucky(d))
    ensures s == DescendTo(Unlucky(d), 0, Retrying(d), d + 2) && t == DescendTo(Unlucky(d), 0, Direct(d), d + 2)
    ensures s.n == 0 && s.key == d + 2 && Alike(s, t)
    ensures s.retries == NoRetry(d) + [Unrecorded(d)] + [0] && t.retries == NoRetry(d) + [0] + [1]
  {
    var s0, t0 := AtDepth(d);
    TriesBelow(d, s0, t0);
    hide DescendTo, NeverStuck, Unlucky, Retrying, Direct, Zeros, NoRetry, Times, Plus, FirstIndex, Try, Unrecorded;
    s := OneDepth<nat>(Unlucky(d), 0, Retrying(d), d + 1, s0, 0, d + 2);
    t := OneDepth<nat>(Unlucky(d), 0, Direct(d), d + 1, t0, 1, d + 2);
  }

  /** Such states go on along the same path. */
  lemma AlikeStays<K(!new)>(child: derivation<K>, s: State<K>, t: State<K>, i: nat)
    requires NeverStuck(child) && Alike(s, t)
    ensures Alike(Descend(child, s, i), Descend(child, t, i))
  {
  }

  lemma {:induction false} SamePathFrom<K(!new)>(child: derivation<K>, root: K, n1: nat, n2: nat, i: nat, j: nat)
    requires NeverStuck(child) && i <= j
    requires Alike(DescendTo(child, root, n1, i), DescendTo(child, root, n2, i))
    ensures Alike(DescendTo(child, root, n1, j), DescendTo(child, root, n2, j))
    decreases j
  {
    hide Descend, Alike, NeverStuck;
    if i < j {
      SamePathFrom(child, root, n1, n2, i, j - 1);
      AlikeStays(child, DescendTo(child, root, n1, j - 1), DescendTo(child, root, n2, j - 1), j - 1);
    }
  }

  /** Below the failing indices a rest of zero takes no retries. */
  lemma {:induction false} TrailingZeros(d: nat, n: nat, i: nat, j: nat)
    requires NeverStuck(Unlucky(d)) && i <= j && d < i && (d < 7 ==> d + 1 < i)
    requires DescendTo(Unlucky(d), 0, n, i).n == 0 && DescendTo(Unlucky(d), 0, n, i).key == i
    ensures var s, t := DescendTo(Unlucky(d), 0, n, i), DescendTo(Unlucky(d), 0, n, j);
            t.n == 0 && t.key == j && t.retries == s.retries + NoRetry(j - i)
    decreases j
  {
    hide DescendTo, NeverStuck;
    if i < j {
      TrailingZeros(d, n, i, j - 1);
      var s := DescendTo(Unlucky(d), 0, n, j - 1);
      assert Try(Unlucky(d), s.key, FirstIndex(s, j - 1), 0) == Some(j);
      Compute(Unlucky(d), 0, n, j - 1, s, 0, j);
    }
  }

  lemma {:induction false} Pow31Bound(i: nat)
    requires i <= 8
    ensures 1 <= Pow31(i) && 256 * Pow31(i) == Bound(8 - i) <= TWO_256
    ensures i < 8 ==> 8 * Pow31(i) < Pow31(i + 1)
  {
    if i > 0 {
      Pow31Bound(i - 1);
    }
    BoundAtStart();
    assert Bound(1) == Bound(0) / TWO_31 && Bound(8 - i) <= Bound(0) by {
      BoundFalls(8 - i);
    }
  }

  lemma {:induction false} BoundFalls(i: nat)
    requires i <= 8
    ensures Bound(i) <= Bound(0)
  {
    if i > 0 {
      BoundFalls(i - 1);
    }
  }

  lemma TwoNumbers(d: nat)
    requires d <= 8
    ensures Retrying(d) != Direct(d) && Retrying(d) < TWO_256 && Direct(d) < TWO_256
  {
    Pow31Bound(d);
    if d < 7 {
      Pow31Bound(d + 1);
    }
  }

  /**
    * The bounds on the retries cannot be relaxed at any depth: eight retries at one of the first eight depths,
    * or a single one at the last, leave a path that another 256-bit number has with recorded retries.
    */
  lemma UnrecordedRetriesCollide(d: nat)
    requires d <= 8
    ensures var child := Unlucky(d);
            && NeverStuck(child)
            && Retrying(d) != Direct(d) && Retrying(d) < TWO_256 && Direct(d) < TWO_256
            && var s, t := DescendTo(child, 0, Retrying(d), 9), DescendTo(child, 0, Direct(d), 9);
            && s.path == t.path && s.key == t.key
            && s.retries == NoRetry(d) + [Unrecorded(d)] + NoRetry(8 - d)
            && Recorded(t.retries)
  {
    UnluckyNeverStuck(d);
    TwoNumbers(d);
    hide *;
    var s, t := Meeting(d);
  }

  lemma Meeting(d: nat) returns (s: State<nat>, t: State<nat>)
    requires d <= 8 && NeverStuck(Unlucky(d))
    ensures s == DescendTo(Unlucky(d), 0, Retrying(d), 9) && t == DescendTo(Unlucky(d), 0, Direct(d), 9)
    ensures s.path == t.path && s.key == t.key
    ensures s.retries == NoRetry(d) + [Unrecorded(d)] + NoRetry(8 - d)
    ensures Recorded(t.retries)
  {
    hide DescendTo, NeverStuck, Unlucky, Retrying, Direct;
    if d < 7 {
      s, t := BelowDepth(d);
      SamePathFrom(Unlucky(d), 0, Retrying(d), Direct(d), d + 2, 9);
      TrailingZeros(d, Retrying(d), d + 2, 9);
      TrailingZeros(d, Direct(d), d + 2, 9);
    } else {
      s, t := AtDepth(d);
      SamePathFrom(Unlucky(d), 0, Retrying(d), Direct(d), d + 1, 9);
      TrailingZeros(d, Retrying(d), d + 1, 9);
      TrailingZeros(d, Direct(d), d + 1, 9);
    }
    s, t := DescendTo(Unlucky(d), 0, Retrying(d), 9), DescendTo(Unlucky(d), 0, Direct(d), 9);
  }
}
