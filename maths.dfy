/** Euclid's algorithm from include/Maths.h, over natural numbers. */
module Maths {
  import opened Common

  /** `d` divides `n`; zero divides only zero. */
  predicate Divides(d: nat, n: nat)
  {
    if d == 0 then n == 0 else n % d == 0
  }

  /** The value Euclid's recurrence computes: `b` strictly decreases. */
  function Gcd(a: nat, b: nat): nat
    decreases b
  {
    if b == 0 then a else Gcd(b, a % b)
  }

  lemma ModAddMultiple(x: nat, d: nat, r: nat)
    requires d > 0
    ensures (x * d + r) % d == r % d
  {
    var k := r / d;
    assert r == k * d + r % d;
    assert x * d + r == (x + k) * d + r % d;
    DivModUnique(x * d + r, d, x + k, r % d);
  }

  lemma MulAssoc(x: int, y: int, z: int)
    ensures x * (y * z) == (x * y) * z
  {
  }

  /** Adding a multiple of `d` does not change a remainder modulo `d`. */
  lemma ModOfSum(a: nat, b: nat, d: nat)
    requires b > 0 && d > 0 && b % d == 0
    ensures a % d == (a % b) % d
  {
    var q, r := a / b, a % b;
    assert a == q * b + r;
    var k := b / d;
    assert b == k * d;
    MulAssoc(q, k, d);
    assert a == (q * k) * d + r;
    ModAddMultiple(q * k, d, r);
  }

  /** One Euclid step `(a, b) -> (b, a % b)` keeps the common divisors. */
  lemma CommonDivisorsStep(a: nat, b: nat, d: nat)
    requires b > 0
    ensures (Divides(d, a) && Divides(d, b)) <==> (Divides(d, b) && Divides(d, a % b))
  {
    if d > 0 && b % d == 0 {
      ModOfSum(a, b, d);
    }
  }

  /** The result of Euclid's recurrence divides both arguments. */
  lemma {:induction false} GcdDividesBoth(a: nat, b: nat)
    ensures Divides(Gcd(a, b), a) && Divides(Gcd(a, b), b)
    decreases b
  {
    if b > 0 {
      GcdDividesBoth(b, a % b);
      CommonDivisorsStep(a, b, Gcd(a, b));
    }
  }

  /** Every common divisor of the arguments divides the result. */
  lemma {:induction false} GcdGreatest(a: nat, b: nat, d: nat)
    requires Divides(d, a) && Divides(d, b)
    ensures Divides(d, Gcd(a, b))
    decreases b
  {
    if b > 0 {
      CommonDivisorsStep(a, b, d);
      GcdGreatest(b, a % b, d);
    }
  }

  /** Every common divisor divides the recurrence's value. */
  lemma GcdGreatestAll(a: nat, b: nat)
    ensures forall d: nat :: Divides(d, a) && Divides(d, b) ==> Divides(d, Gcd(a, b))
  {
    forall d: nat | Divides(d, a) && Divides(d, b)
      ensures Divides(d, Gcd(a, b))
    {
      GcdGreatest(a, b, d);
    }
  }

  lemma GcdZeroLeft(b: nat)
    ensures Gcd(0, b) == b
  {
    if b != 0 {
      assert Gcd(0, b) == Gcd(b, 0);
    }
  }

  /** `gcd` of include/Maths.h: an early return for `b == 0`, then the
      loop `temp = b; b = a % b; a = temp` until `b` is zero. */
  method ComputeGcd(a: nat, b: nat) returns (r: nat)
    ensures r == Gcd(a, b)
    ensures Divides(r, a) && Divides(r, b)
    ensures forall d: nat :: Divides(d, a) && Divides(d, b) ==> Divides(d, r)
    ensures b == 0 ==> r == a
    ensures a == 0 ==> r == b
  {
    if b == 0 {
      r := a;
    } else {
      var x, y := a, b;
      while y != 0
        invariant Gcd(x, y) == Gcd(a, b)
        decreases y
      {
        var temp := y;
        y := x % y;
        x := temp;
      }
      r := x;
    }
    GcdDividesBoth(a, b);
    GcdGreatestAll(a, b);
    if a == 0 {
      GcdZeroLeft(b);
    }
  }

  /** The tile size the sandbox derives from its 800 x 600 window. */
  lemma Gcd800By600()
    ensures Gcd(800, 600) == 200
  {
    assert Gcd(200, 0) == 200;
    assert Gcd(600, 200) == Gcd(200, 0);
  }
}
