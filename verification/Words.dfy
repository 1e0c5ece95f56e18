/** Unsigned 256-bit words: checked operations throw, `Unsafe` operations wrap. */
module U256 {
  import opened Prelude

  const MAX_SAFE_INTEGER: int := 0x1F_FFFF_FFFF_FFFF

  type word = x: int | 0 <= x < TWO_256

  function Add(u: word, v: word): Result<word> {
    if u + v >= TWO_256 then Throw else Ok(u + v)
  }

  function Sub(u: word, v: word): Result<word> {
    if u < v then Throw else Ok(u - v)
  }

  function UnsafeAdd(u: word, v: word): word {
    (u + v) % TWO_256
  }

  function UnsafeSub(u: word, v: word): word {
    (u - v) % TWO_256
  }

  /** The checked operations accept exactly the arguments on which the wrapping ones do not wrap. */
  lemma CheckedAgreesWithWrapping(u: word, v: word)
    ensures Add(u, v).Ok? <==> UnsafeAdd(u, v) >= u
    ensures Add(u, v).Ok? ==> Sub(Add(u, v).value, v) == Ok(u)
    ensures Add(u, v).Ok? ==> Add(u, v).value == UnsafeAdd(u, v)
    ensures Sub(u, v).Ok? <==> UnsafeSub(u, v) <= u
    ensures Sub(u, v).Ok? ==> Add(Sub(u, v).value, v) == Ok(u)
    ensures Sub(u, v).Ok? ==> Sub(u, v).value == UnsafeSub(u, v)
    ensures UnsafeSub(UnsafeAdd(u, v), v) == u == UnsafeAdd(UnsafeSub(u, v), v)
  {
    UnsafeValues(u, v);
    UnsafeValues(UnsafeAdd(u, v), v);
    UnsafeValues(UnsafeSub(u, v), v);
    hide UnsafeAdd, UnsafeSub;
  }

  lemma UnsafeValues(u: word, v: word)
    ensures UnsafeAdd(u, v) == if u + v < TWO_256 then u + v else u + v - TWO_256
    ensures UnsafeSub(u, v) == if u >= v then u - v else u - v + TWO_256
  {
  }

  // ---- Products and quotients ----

  lemma ProductNotNegative(a: int, b: int)
    requires a >= 0 && b >= 0
    ensures a * b >= 0
  {
  }

  lemma ProductDominates(k: int, d: int)
    ensures k >= 1 && d >= 0 ==> k * d >= d
    ensures k >= 1 && d <= 0 ==> k * d <= d
    ensures k <= -1 && d >= 0 ==> k * d <= -d
    ensures k <= -1 && d <= 0 ==> k * d >= -d
  {
    assert k * d == (k - 1) * d + d == (k + 1) * d - d;
  }

  lemma DivideNat(a: int, b: int)
    requires a >= 0 && b > 0
    ensures 0 <= a / b <= a
    ensures 0 <= a - (a / b) * b < b
  {
    var q := a / b;
    assert a == q * b + a % b;
    ProductDominates(q, b);
    ProductDominates(b, q);
  }
}

/** Signed 256-bit words in two's complement, over the unsigned word that carries them. */
module S256 {
  import opened Prelude
  import opened U256

  const MIN_NEG: word := TWO_255

  /** The integer a word denotes. */
  function Value(x: word): int {
    if x < TWO_255 then x else x - TWO_256
  }

  predicate InRange(n: int) {
    -TWO_255 <= n < TWO_255
  }

  function Sign(x: word): int {
    if x >= TWO_255 then -1 else if x == 0 then 0 else 1
  }

  function Negate(x: word): word {
    (TWO_256 - x) % TWO_256
  }

  function Magnitude(x: word): word {
    if x < TWO_255 then x else TWO_256 - x
  }

  function Abs(s: word): Result<word> {
    if s == MIN_NEG then Throw else Ok(Magnitude(s))
  }

  function Neg(s: word): Result<word> {
    if s == MIN_NEG then Throw else Ok(Negate(s))
  }

  function Add(s: word, v: word): Result<word> {
    if Sign(s) >= 0 && Sign(v) >= 0 then
      U256.Add(s, v)
    else
      var result := UnsafeAdd(s, v);
      if Sign(s) < 0 && Sign(v) < 0 && Sign(result) >= 0 then Throw else Ok(result)
  }

  function Sub(s: word, v: word): Result<word> {
    var result := UnsafeSub(s, v);
    var overflow :=
      || (Sign(s) > 0 && Sign(v) < 0 && Sign(result) < 0)
      || (Sign(s) < 0 && Sign(v) > 0 && Sign(result) > 0);
    if overflow then Throw else Ok(result)
  }

  function Mul(s: word, v: word): Result<word> {
    if s == MIN_NEG || v == MIN_NEG then
      Throw
    else
      ProductNotNegative(Magnitude(s), Magnitude(v));
      var product := Magnitude(s) * Magnitude(v);
      if product >= TWO_256 then Throw
      else if Sign(s) * Sign(v) == -1 then Ok(Negate(product))
      else Ok(product)
  }

  function Div(s: word, v: word): Result<word> {
    if s == MIN_NEG || v == MIN_NEG then
      Throw
    else if v == 0 then
      Throw
    else
      DivideNat(Magnitude(s), Magnitude(v));
      var result := Magnitude(s) / Magnitude(v);
      if Sign(s) * Sign(v) == -1 then Ok(Negate(result)) else Ok(result)
  }

  /** `Sgt` of the library: compare signs first, then the words. */
  predicate Gt(s: word, v: word) {
    if Sign(s) >= 0 && Sign(v) < 0 then true
    else if Sign(s) < 0 && Sign(v) >= 0 then false
    else s > v
  }

  predicate Lt(s: word, v: word) {
    if Sign(s) >= 0 && Sign(v) < 0 then false
    else if Sign(s) < 0 && Sign(v) >= 0 then true
    else s < v
  }

  predicate Gte(s: word, v: word) {
    !Gt(v, s)
  }

  predicate Lte(s: word, v: word) {
    !Lt(v, s)
  }

  type int64 = x: int | -TWO_63 <= x < TWO_63

  /** Negation in 64 bits: the least number is its own negative. */
  function Negate64(v: int64): int64 {
    if v == -TWO_63 then v else -v
  }

  /** The constructor from a number. Its check lets the least 64-bit number through. */
  function FromNumber(v: int64): Result<word> {
    if v > MAX_SAFE_INTEGER || Negate64(v) > MAX_SAFE_INTEGER then Throw
    else if v >= 0 then Ok(v)
    else Ok(Negate(Negate64(v) % (2 * TWO_63)))
  }

  predicate IsSafeInteger(s: word) {
    // The code computes the negated word first and then overwrites it with the word itself.
    s <= MAX_SAFE_INTEGER
  }

  function ToSafeInteger(s: word): Result<int> {
    // A word this small is never negative, so the code's negating branch is dead.
    if !IsSafeInteger(s) then Throw else Ok(s)
  }

  // ---- What the operations mean on integers ----

  /** The call either throws or denotes the integer `n`. */
  predicate Exact(r: Result<word>, n: int) {
    r.Ok? ==> Value(r.value) == n
  }

  /** Every denotable integer has exactly one word. */
  lemma ValueIsBijective(x: word, y: word, n: int)
    ensures InRange(Value(x))
    ensures Value(x) == Value(y) ==> x == y
    ensures InRange(n) ==> 0 <= n % TWO_256 < TWO_256 && Value(n % TWO_256) == n
  {
    if InRange(n) {
      assert n % TWO_256 == if n >= 0 then n else n + TWO_256;
    }
  }

  /** Addition throws only on negative overflow; a sum of non-negatives of 2^255 or more wraps unnoticed. */
  lemma AddIsExact(s: word, v: word)
    ensures var n := Value(s) + Value(v);
            var band := Value(s) >= 0 && Value(v) >= 0 && n >= TWO_255;
            && (Add(s, v).Throw? <==> n < -TWO_255)
            && (Exact(Add(s, v), n) <==> !band)
            && (band ==> Value(Add(s, v).value) == n - TWO_256)
  {
    assert UnsafeAdd(s, v) == if s + v < TWO_256 then s + v else s + v - TWO_256;
  }

  /** Subtraction throws on every overflow but one: zero minus the minimum. */
  lemma SubIsExact(s: word, v: word)
    ensures var n := Value(s) - Value(v);
            var band := s == 0 && v == MIN_NEG;
            && (Sub(s, v).Throw? <==> !InRange(n) && !band)
            && (Exact(Sub(s, v), n) <==> !band)
            && (band ==> Sub(s, v) == Ok(MIN_NEG))
  {
    assert UnsafeSub(s, v) == if s >= v then s - v else s - v + TWO_256;
  }

  /** Multiplication refuses the minimum and magnitudes of 2^256 or more; smaller overflows pass unnoticed. */
  lemma MulIsExact(s: word, v: word)
    ensures var n := Value(s) * Value(v);
            var magnitude := if n < 0 then -n else n;
            && (Mul(s, v).Throw? <==> s == MIN_NEG || v == MIN_NEG || magnitude >= TWO_256)
            && (Exact(Mul(s, v), n) <==> Mul(s, v).Throw? || InRange(n))
  {
    var a, b := Magnitude(s), Magnitude(v);
    SignedProduct(s, v, a, b);
  }

  lemma SignedProduct(s: word, v: word, a: int, b: int)
    requires a == Magnitude(s) && b == Magnitude(v)
    ensures a * b >= 0
    ensures Sign(s) * Sign(v) == -1 ==> Value(s) * Value(v) == -(a * b) < 0
    ensures Sign(s) * Sign(v) != -1 ==> Value(s) * Value(v) == a * b
  {
    if Sign(s) == -1 {
      assert Value(s) == -a;
      assert Value(s) * Value(v) == -(a * Value(v));
    } else {
      assert Value(s) == a;
    }
    if Sign(v) == -1 {
      assert Value(v) == -b;
      assert a * Value(v) == -(a * b);
    }
    if Sign(s) * Sign(v) == -1 {
      PositiveProduct(a, b);
    }
  }

  lemma PositiveProduct(a: int, b: int)
    requires a > 0 && b > 0
    ensures a * b > 0
  {
  }

  /** `q` is `n / d` rounded towards zero. */
  predicate IsTruncatedQuotient(q: int, n: int, d: int) {
    var r := n - q * d;
    var absD := if d < 0 then -d else d;
    if n >= 0 then 0 <= r < absD else -absD < r <= 0
  }

  lemma TruncatedQuotientIsUnique(q1: int, q2: int, n: int, d: int)
    requires d != 0 && IsTruncatedQuotient(q1, n, d) && IsTruncatedQuotient(q2, n, d)
    ensures q1 == q2
  {
    assert (q1 - q2) * d == q1 * d - q2 * d;
    ProductDominates(q1 - q2, d);
  }

  /** Dividing magnitudes and then fixing the sign truncates. */
  lemma SignedQuotient(n: int, d: int, a: int, b: int, q: int)
    requires 0 <= a - q * b < b
    requires a == if n < 0 then -n else n
    requires b == if d < 0 then -d else d
    ensures IsTruncatedQuotient(if (n < 0) == (d < 0) then q else -q, n, d)
  {
    assert (-q) * (-b) == q * b && q * (-b) == -(q * b) && (-q) * b == -(q * b);
  }

  lemma SignOfQuotient(s: word, v: word)
    requires s != MIN_NEG && v != MIN_NEG && v != 0
    ensures var q := Magnitude(s) / Magnitude(v);
            Div(s, v).Ok? && Value(Div(s, v).value) == if (Value(s) < 0) == (Value(v) < 0) then q else -q
  {
    var q := Magnitude(s) / Magnitude(v);
    DivideNat(Magnitude(s), Magnitude(v));
    assert Negate(q) == if q == 0 then 0 else TWO_256 - q;
    assert Sign(s) * Sign(v) == -1 <==> s != 0 && (Value(s) < 0) != (Value(v) < 0);
  }

  /** Division throws exactly on a zero divisor or a minimal operand and truncates towards zero otherwise. */
  lemma DivIsExact(s: word, v: word)
    ensures Div(s, v).Throw? <==> v == 0 || s == MIN_NEG || v == MIN_NEG
    ensures Div(s, v).Ok? ==> IsTruncatedQuotient(Value(Div(s, v).value), Value(s), Value(v))
  {
    if Div(s, v).Ok? {
      SignOfQuotient(s, v);
      DivideNat(Magnitude(s), Magnitude(v));
      SignedQuotient(Value(s), Value(v), Magnitude(s), Magnitude(v), Magnitude(s) / Magnitude(v));
    }
  }

  lemma NegAndAbsAreExact(s: word)
    ensures Neg(s).Throw? <==> !InRange(-Value(s))
    ensures Abs(s).Throw? <==> !InRange(-Value(s))
    ensures Exact(Neg(s), -Value(s))
    ensures Exact(Abs(s), if Value(s) < 0 then -Value(s) else Value(s))
    ensures Neg(s).Ok? ==> Neg(Neg(s).value) == Ok(s)
  {
    assert Negate(s) == if s == 0 then 0 else TWO_256 - s;
  }

  /** All four comparisons are those of the integers. */
  lemma ComparisonsAreExact(s: word, v: word)
    ensures Gt(s, v) <==> Value(s) > Value(v)
    ensures Gte(s, v) <==> Value(s) >= Value(v)
    ensures Lt(s, v) <==> Value(s) < Value(v)
    ensures Lte(s, v) <==> Value(s) <= Value(v)
  {
  }

  /** The constructor takes the safe integers and, beside them, the least 64-bit number, and is exact on all of them. */
  lemma FromNumberIsExact(v: int64)
    ensures FromNumber(v).Ok? <==> -MAX_SAFE_INTEGER <= v <= MAX_SAFE_INTEGER || v == -TWO_63
    ensures Exact(FromNumber(v), v)
  {
    if v < 0 {
      var n: int := Negate64(v) % (2 * TWO_63);
      assert n == -(v as int);
      assert Negate(n) == TWO_256 + v;
    }
  }

  /** A number survives the trip through a word exactly when it is not negative; otherwise the way back throws. */
  lemma SafeIntegerRoundTrip(v: int64)
    requires FromNumber(v).Ok?
    ensures ToSafeInteger(FromNumber(v).value) == Ok(v) <==> v >= 0
    ensures ToSafeInteger(FromNumber(v).value).Throw? <==> v < 0
  {
    FromNumberIsExact(v);
    ValueIsBijective(FromNumber(v).value, FromNumber(v).value, v);
  }
}
