/** Powers of two, results and options shared by the models. `Throw` stands for a Go panic or a JavaScript exception. */
module Prelude {

  const TWO_31: int := 0x8000_0000
  const TWO_32: int := 0x1_0000_0000
  const TWO_63: int := 0x8000_0000_0000_0000
  const TWO_255: int := 0x8000000000000000000000000000000000000000000000000000000000000000
  const TWO_256: int := 0x1_0000000000000000000000000000000000000000000000000000000000000000

  datatype Option<+T> = None | Some(value: T)

  datatype Result<+T> = Ok(value: T) | Throw {
    predicate IsFailure() {
      Throw?
    }

    function PropagateFailure<U>(): Result<U>
      requires Throw?
    {
      Throw
    }

    function Extract(): T
      requires Ok?
    {
      value
    }
  }
}

/** Byte strings and the lexicographic order of `bytes.Compare`, `strings.Compare` and `BufCompare`. */
module Bytes {

  type byte = x: int | 0 <= x < 256
  type bytes = seq<byte>

  /** True iff `a` comes strictly before `b`. */
  predicate Less(a: bytes, b: bytes) {
    b != [] && (a == [] || a[0] < b[0] || (a[0] == b[0] && Less(a[1..], b[1..])))
  }

  lemma {:induction false} LessIrreflexive(a: bytes)
    ensures !Less(a, a)
  {
    if a != [] {
      LessIrreflexive(a[1..]);
    }
  }

  lemma {:induction false} LessTransitive(a: bytes, b: bytes, c: bytes)
    requires Less(a, b) && Less(b, c)
    ensures Less(a, c)
  {
    if a != [] && a[0] == b[0] == c[0] {
      LessTransitive(a[1..], b[1..], c[1..]);
    }
  }

  lemma {:induction false} LessTotal(a: bytes, b: bytes)
    ensures a == b || Less(a, b) || Less(b, a)
  {
    if a != [] && b != [] && a[0] == b[0] {
      LessTotal(a[1..], b[1..]);
      assert a == [a[0]] + a[1..] && b == [b[0]] + b[1..];
    }
  }

  lemma LessAsymmetric(a: bytes, b: bytes)
    requires Less(a, b)
    ensures !Less(b, a)
  {
  }

  /** The first byte that differs decides. */
  lemma {:induction false} LessAtFirstDifference(a: bytes, b: bytes, i: nat)
    requires i < |a| && i < |b| && a[..i] == b[..i] && a[i] < b[i]
    ensures Less(a, b) && !Less(b, a)
  {
    if i > 0 {
      assert a[0] == a[..i][0] == b[..i][0] == b[0];
      assert a[1..][..i - 1] == a[..i][1..] && b[1..][..i - 1] == b[..i][1..];
      LessAtFirstDifference(a[1..], b[1..], i - 1);
    }
  }

  /** A string comes before its extensions. */
  lemma {:induction false} LessThanExtension(a: bytes, b: bytes)
    requires b != []
    ensures Less(a, a + b) && !Less(a + b, a)
  {
    if a != [] {
      assert (a + b)[1..] == a[1..] + b;
      LessThanExtension(a[1..], b);
    }
  }

  /** The big-endian number of a byte string. */
  function FromBytes(b: bytes): nat {
    if b == [] then 0 else 256 * FromBytes(b[..|b| - 1]) + b[|b| - 1]
  }

  function Pow256(i: nat): nat {
    if i == 0 then 1 else 256 * Pow256(i - 1)
  }

  /** The first byte is the most significant one. */
  lemma {:induction false} FirstByteIsHighest(x: byte, rest: bytes)
    ensures FromBytes([x] + rest) == x * Pow256(|rest|) + FromBytes(rest)
  {
    var all := [x] + rest;
    if rest != [] {
      var n := |rest| - 1;
      assert all[..|all| - 1] == [x] + rest[..n];
      FirstByteIsHighest(x, rest[..n]);
      ByteTimes(x, Pow256(n));
    } else {
      assert all[..0] == [];
    }
  }

  lemma ByteTimes(x: byte, p: nat)
    ensures 256 * (x * p) == x * (256 * p)
  {
  }

  lemma {:induction false} FromBytesBound(b: bytes)
    ensures FromBytes(b) < Pow256(|b|)
  {
    if b != [] {
      FromBytesBound(b[..|b| - 1]);
    }
  }

  lemma {:induction false} FromBytesIsInjective(a: bytes, b: bytes)
    requires |a| == |b| && FromBytes(a) == FromBytes(b)
    ensures a == b
  {
    if a != [] {
      FromBytesIsInjective(a[..|a| - 1], b[..|b| - 1]);
      assert a == a[..|a| - 1] + [a[|a| - 1]] && b == b[..|b| - 1] + [b[|b| - 1]];
    }
  }

  /** `n` in `width` big-endian bytes, higher bytes dropped. */
  function ToBytes(n: nat, width: nat): (b: bytes)
    ensures |b| == width
  {
    if width == 0 then [] else ToBytes(n / 256, width - 1) + [n % 256]
  }

  lemma {:induction false} FromToBytes(n: nat, width: nat)
    requires n < Pow256(width)
    ensures FromBytes(ToBytes(n, width)) == n
  {
    if width > 0 {
      FromToBytes(n / 256, width - 1);
      assert ToBytes(n, width)[..width - 1] == ToBytes(n / 256, width - 1);
    }
  }

  lemma Pow256Values()
    ensures Pow256(1) == 0x100 && Pow256(2) == 0x1_0000
    ensures Pow256(4) == 0x1_0000_0000 && Pow256(8) == 0x1_0000_0000_0000_0000
  {
  }
}

/** `Array.prototype.sort`: a permutation in which no later element is strictly before an earlier one. */
module Sorting {

  ghost predicate StrictOrderOn<T>(s: seq<T>, less: (T, T) -> bool) {
    && (forall a, b | a in s && b in s :: less(a, b) ==> !less(b, a))
    && (forall a, b, c | a in s && b in s && c in s :: less(a, b) && less(b, c) ==> less(a, c))
  }

  ghost predicate NoInversion<T>(s: seq<T>, less: (T, T) -> bool) {
    forall i, j | 0 <= i < j < |s| :: !less(s[j], s[i])
  }

  /** Callers see only the contract, so nothing depends on the order of ties. */
  method Sort<T>(s: seq<T>, less: (T, T) -> bool) returns (t: seq<T>)
    requires StrictOrderOn(s, less)
    ensures multiset(t) == multiset(s)
    ensures NoInversion(t, less)
  {
    t := [];
    for n := 0 to |s|
      invariant multiset(t) == multiset(s[..n])
      invariant NoInversion(t, less)
    {
      var i := 0;
      while i < |t| && !less(s[n], t[i])
        invariant i <= |t|
        invariant forall j | 0 <= j < i :: !less(s[n], t[j])
      {
        i := i + 1;
      }
      InsertKeepsOrder(s, n, t, i, less);
      InsertKeepsElements(s, n, t, i);
      t := t[..i] + [s[n]] + t[i..];
    }
    assert s[..|s|] == s;
  }

  lemma InsertKeepsElements<T>(s: seq<T>, n: nat, t: seq<T>, i: nat)
    requires n < |s| && i <= |t| && multiset(t) == multiset(s[..n])
    ensures multiset(t[..i] + [s[n]] + t[i..]) == multiset(s[..n + 1])
  {
    assert t == t[..i] + t[i..];
    assert s[..n + 1] == s[..n] + [s[n]];
  }

  lemma InsertKeepsOrder<T>(s: seq<T>, n: nat, t: seq<T>, i: nat, less: (T, T) -> bool)
    requires StrictOrderOn(s, less) && n < |s| && i <= |t|
    requires multiset(t) == multiset(s[..n]) && NoInversion(t, less)
    requires forall j | 0 <= j < i :: !less(s[n], t[j])
    requires i < |t| ==> less(s[n], t[i])
    ensures NoInversion(t[..i] + [s[n]] + t[i..], less)
  {
    var x, u := s[n], t[..i] + [s[n]] + t[i..];
    forall k | 0 <= k < |t|
      ensures t[k] in s
    {
      assert t[k] in multiset(t);
      assert t[k] in s[..n];
    }
    forall p, q | 0 <= p < q < |u|
      ensures !less(u[q], u[p])
    {
      if p == i {
        assert u[q] == t[q - 1];
        assert less(x, t[i]) && (q - 1 == i || !less(t[q - 1], t[i]));
      }
    }
  }

  lemma PermutationMembers<T>(s: seq<T>, t: seq<T>)
    requires multiset(s) == multiset(t)
    ensures |s| == |t|
    ensures forall x :: x in s <==> x in t
  {
    assert |multiset(s)| == |s| && |multiset(t)| == |t|;
    assert forall x :: x in s <==> x in multiset(s);
    assert forall x :: x in t <==> x in multiset(t);
  }

  /** The head of a permutation sits somewhere in the other list, and the rests are permutations again. */
  lemma RemoveHead<T>(s: seq<T>, t: seq<T>) returns (k: nat)
    requires multiset(s) == multiset(t) && s != []
    ensures k < |t| && t[k] == s[0]
    ensures multiset(s[1..]) == multiset(t[..k] + t[k + 1..])
  {
    k := Position(s, t);
    WithoutHead(s);
    WithoutOne(t, k);
  }

  lemma Position<T>(s: seq<T>, t: seq<T>) returns (k: nat)
    requires multiset(s) == multiset(t) && s != []
    ensures k < |t| && t[k] == s[0]
  {
    PermutationMembers(s, t);
    assert s[0] in s;
    k :| 0 <= k < |t| && t[k] == s[0];
  }

  lemma WithoutHead<T>(s: seq<T>)
    requires s != []
    ensures multiset(s[1..]) == multiset(s) - multiset{s[0]}
  {
    assert s == [s[0]] + s[1..];
  }

  lemma WithoutOne<T>(s: seq<T>, k: nat)
    requires k < |s|
    ensures multiset(s[..k] + s[k + 1..]) == multiset(s) - multiset{s[k]}
  {
    assert s == s[..k] + [s[k]] + s[k + 1..];
  }

  lemma {:induction false} PermutationKeepsDistinct<T, K>(s: seq<T>, t: seq<T>, key: T -> K)
    requires multiset(s) == multiset(t)
    requires forall i, j | 0 <= i < j < |s| :: key(s[i]) != key(s[j])
    ensures forall i, j | 0 <= i < j < |t| :: key(t[i]) != key(t[j])
  {
    if s != [] {
      var k := RemoveHead(s, t);
      var u := t[..k] + t[k + 1..];
      PermutationKeepsDistinct(s[1..], u, key);
      PermutationMembers(s[1..], u);
      forall i, j | 0 <= i < j < |t|
        ensures key(t[i]) != key(t[j])
      {
        var i', j' := if i < k then i else i - 1, if j < k then j else j - 1;
        if i == k {
          assert u[j'] == t[j] && u[j'] in s[1..];
        } else if j == k {
          assert u[i'] == t[i] && u[i'] in s[1..];
        } else {
          assert u[i'] == t[i] && u[j'] == t[j];
        }
      }
    } else {
      PermutationMembers(s, t);
    }
  }

  lemma {:induction false} SetSize<T>(s: seq<T>)
    ensures |set x | x in s| <= |s|
    ensures (forall i, j | 0 <= i < j < |s| :: s[i] != s[j]) ==> |set x | x in s| == |s|
  {
    if s != [] {
      SetSize(s[1..]);
      assert (set x | x in s) == (set x | x in s[1..]) + {s[0]};
    }
  }

  /** A set has as many elements as its image under a function that keeps them apart. */
  lemma {:induction false} ImageSize<T, U>(a: set<T>, b: set<U>, f: T -> U)
    requires forall x, y | x in a && y in a :: f(x) == f(y) ==> x == y
    requires forall x | x in a :: f(x) in b
    requires forall y | y in b :: exists x :: x in a && f(x) == y
    ensures |a| == |b|
  {
    if a != {} {
      var x :| x in a;
      ImageSize(a - {x}, b - {f(x)}, f);
    } else {
      assert b == {};
    }
  }

  lemma SubsetSize<T>(a: set<T>, b: set<T>)
    requires a <= b
    ensures |a| <= |b|
  {
    assert b == a + (b - a);
  }
}
