/** Small helpers shared by the model: an optional value and the integer
    conversions of C++ that differ from Dafny's own operators. */
module Common {

  /** The conventional Some/None datatype, used where the source uses a null
      pointer, an unset std::function or an absent registry context. */
  datatype Option<+T> = None | Some(value: T)

  /** C++ integer division `a / b` for a positive divisor: the quotient is
      truncated toward zero (Dafny's `/` is Euclidean and rounds down for a
      negative dividend). */
  function CDiv(a: int, b: int): (q: int)
    requires b > 0
    ensures a >= 0 ==> q == a / b
    ensures a < 0 ==> q == -((-a) / b)
    ensures a >= 0 ==> 0 <= q && q * b <= a < q * b + b
    ensures a < 0 ==> q <= 0 && q * b - b < a <= q * b
  {
    if a >= 0 then
      DivBounds(a, b);
      a / b
    else
      var m := (-a) / b;
      DivBounds(-a, b);
      assert (-m) * b == -(m * b);
      -m
  }

  /** Euclidean division of a non-negative dividend brackets it between two
      consecutive multiples of the divisor. */
  lemma DivBounds(a: int, b: int)
    requires a >= 0 && b > 0
    ensures 0 <= a / b && (a / b) * b <= a < (a / b) * b + b
  {
    var q, r := a / b, a % b;
    assert a == q * b + r && 0 <= r < b;
    if q < 0 {
      MulNeg(q, b);
    }
  }

  lemma MulNeg(q: int, b: int)
    requires q < 0 && b > 0
    ensures q * b <= -b
  {
    var k := -q - 1;
    assert k >= 0;
    MulAtLeast(k + 1, b);
    assert (k + 1) * b == -(q * b);
  }

  /** The C++ conversion of a floating-point value to `int`: truncation
      toward zero. */
  function Trunc(x: real): (n: int)
    ensures x >= 0.0 ==> n as real <= x < n as real + 1.0
    ensures x < 0.0 ==> n as real - 1.0 < x <= n as real
  {
    if x >= 0.0 then x.Floor else -((-x).Floor)
  }

  /** std::clamp on reals; like std::clamp it needs `lo <= hi`. */
  function Clamp(v: real, lo: real, hi: real): (r: real)
    requires lo <= hi
    ensures lo <= r <= hi
    ensures lo <= v <= hi ==> r == v
    ensures v < lo ==> r == lo
    ensures v > hi ==> r == hi
  {
    if v < lo then lo else if hi < v then hi else v
  }

  /** `s` with every element equal to `x` removed, in the original order
      (the erase/remove_if idiom). */
  function RemoveAll<T(==)>(s: seq<T>, x: T): (r: seq<T>)
    ensures |r| <= |s|
    ensures forall i :: 0 <= i < |r| ==> r[i] in s && r[i] != x
    ensures forall i :: 0 <= i < |s| && s[i] != x ==> s[i] in r
  {
    if s == [] then []
    else if s[0] == x then RemoveAll(s[1..], x)
    else [s[0]] + RemoveAll(s[1..], x)
  }

  /** Removing is idempotent, and it leaves a sequence without `x` as it is. */
  lemma {:induction false} RemoveAllAbsent<T>(s: seq<T>, x: T)
    requires x !in s
    ensures RemoveAll(s, x) == s
  {
    if s != [] {
      RemoveAllAbsent(s[1..], x);
    }
  }

  /** The length drops by exactly the number of occurrences of `x`. */
  lemma {:induction false} RemoveAllCount<T>(s: seq<T>, x: T)
    ensures |RemoveAll(s, x)| == |s| - multiset(s)[x]
  {
    if s != [] {
      RemoveAllCount(s[1..], x);
      assert s == [s[0]] + s[1..];
      assert multiset(s) == multiset{s[0]} + multiset(s[1..]);
    }
  }

  /** The elements that survive keep their relative order: removing `x` from
      a concatenation removes it from each part. */
  lemma {:induction false} RemoveAllAppend<T>(a: seq<T>, b: seq<T>, x: T)
    ensures RemoveAll(a + b, x) == RemoveAll(a, x) + RemoveAll(b, x)
  {
    if a != [] {
      assert (a + b)[1..] == a[1..] + b;
      RemoveAllAppend(a[1..], b, x);
    } else {
      assert a + b == b;
    }
  }

  /** Extending a prefix by one element. */
  lemma TakeSnoc<T>(s: seq<T>, i: nat)
    requires i < |s|
    ensures s[..i + 1] == s[..i] + [s[i]]
  {
  }

  lemma {:induction false} MulAtLeast(m: nat, d: nat)
    requires m >= 1
    ensures m * d >= d
  {
    if m > 1 {
      MulAtLeast(m - 1, d);
      assert m * d == (m - 1) * d + d;
    }
  }

  lemma MulSub(x: int, y: int, d: int)
    ensures x * d - y * d == (x - y) * d
  {
  }

  /** Quotient and remainder are unique: any `a == q * d + r` with
      `0 <= r < d` gives Dafny's `a / d` and `a % d`. */
  lemma DivModUnique(a: int, d: int, q: int, r: int)
    requires d > 0 && 0 <= r < d && a == q * d + r
    ensures a / d == q && a % d == r
  {
    var q', r' := a / d, a % d;
    assert a == q' * d + r';
    if q > q' {
      MulAtLeast(q - q', d);
      MulSub(q, q', d);
      assert false;
    } else if q < q' {
      MulAtLeast(q' - q, d);
      MulSub(q', q, d);
      assert false;
    }
  }
}
