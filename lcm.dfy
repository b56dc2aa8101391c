/** Greatest common divisor and least common multiple of positive integers. */
module Lcm {
  /** `m` is a multiple of the positive `d`. */
  predicate Divides(d: nat, m: nat)
    decreases m
  {
    d > 0 && (m == 0 || (m >= d && Divides(d, m - d)))
  }

  /** `m / d` for a multiple `m` of `d`. */
  function Quotient(d: nat, m: nat): (q: nat)
    requires Divides(d, m)
    decreases m
    ensures d * q == m
  {
    if m == 0 then 0 else 1 + Quotient(d, m - d)
  }

  lemma {:induction false} MultipleDivides(d: nat, k: nat)
    requires d > 0
    ensures Divides(d, d * k)
  {
    if k > 0 {
      MultipleDivides(d, k - 1);
      assert d * k == d * (k - 1) + d;
    }
  }

  lemma {:induction false} DividesSum(d: nat, x: nat, y: nat)
    requires Divides(d, x) && Divides(d, y)
    decreases x
    ensures Divides(d, x + y)
  {
    if x > 0 {
      DividesSum(d, x - d, y);
      assert x + y - d == (x - d) + y;
    }
  }

  lemma {:induction false} DividesTransitive(a: nat, b: nat, c: nat)
    requires Divides(a, b) && Divides(b, c)
    decreases c
    ensures Divides(a, c)
  {
    if c == 0 {
    } else {
      DividesTransitive(a, b, c - b);
      DividesSum(a, c - b, b);
    }
  }

  /** Euclid's algorithm by subtraction. */
  function Gcd(a: nat, b: nat): nat
    requires a > 0 && b > 0
    decreases a + b
  {
    if a == b then a
    else if a > b then Gcd(a - b, b)
    else Gcd(a, b - a)
  }

  lemma {:induction false} GcdDivides(a: nat, b: nat)
    requires a > 0 && b > 0
    decreases a + b
    ensures Gcd(a, b) > 0
    ensures Divides(Gcd(a, b), a) && Divides(Gcd(a, b), b)
  {
    if a == b {
      MultipleDivides(a, 1);
    } else if a > b {
      GcdDivides(a - b, b);
      DividesSum(Gcd(a, b), a - b, b);
    } else {
      GcdDivides(a, b - a);
      DividesSum(Gcd(a, b), b - a, a);
    }
  }

  /** The two ways of grouping the product: `ka * (g * kb)` and `(g * ka) * kb` agree. */
  lemma {:induction false} CrossProduct(g: nat, ka: nat, kb: nat)
    ensures ka * (g * kb) == (g * ka) * kb
  {
    if ka > 0 {
      CrossProduct(g, ka - 1, kb);
      assert ka * (g * kb) == (ka - 1) * (g * kb) + g * kb;
      assert (g * ka) * kb == (g * (ka - 1)) * kb + g * kb;
    }
  }

  /** `lcm(a, b)`, computed as `a / gcd(a, b) * b`. */
  function Lcm(a: nat, b: nat): (l: nat)
    requires a > 0 && b > 0
    ensures l > 0 && Divides(a, l) && Divides(b, l)
  {
    GcdDivides(a, b);
    var g := Gcd(a, b);
    var ka, kb := Quotient(g, a), Quotient(g, b);
    CrossProduct(g, ka, kb);
    assert ka * b == a * kb;
    MultipleDivides(a, kb);
    MultipleDivides(b, ka);
    ka * b
  }

  /** `Gcd(a, b)` is an integer combination of `a` and `b`. */
  lemma {:induction false} Bezout(a: nat, b: nat) returns (x: int, y: int)
    requires a > 0 && b > 0
    decreases a + b
    ensures Gcd(a, b) == x * a + y * b
  {
    if a == b {
      x, y := 1, 0;
    } else if a > b {
      var x', y' := Bezout(a - b, b);
      assert x' * (a - b) == x' * a - x' * b;
      assert (y' - x') * b == y' * b - x' * b;
      x, y := x', y' - x';
    } else {
      var x', y' := Bezout(a, b - a);
      assert y' * (b - a) == y' * b - y' * a;
      assert (x' - y') * a == x' * a - y' * a;
      x, y := x' - y', y';
    }
  }

  lemma CancelFactor(l: int, t: int, m: int, g: int)
    requires g > 0 && (l * g) * t == m * g
    ensures l * t == m
  {
    assert (l * t - m) * g == 0;
  }

  lemma NonNegativeFactor(l: int, t: int)
    requires l > 0 && l * t >= 0
    ensures t >= 0
  {
  }

  lemma Distribute(m: int, u: int, v: int)
    ensures m * (u + v) == m * u + m * v
  {
  }

  lemma Regroup(g: int, k: int, b: int)
    ensures (g * k) * b == (k * b) * g
  {
  }

  /** `m * gcd` is a multiple of `a * b` when `m` is a common multiple (`a * p == m == b * q`). */
  lemma CombinationMultiple(a: int, b: int, m: int, p: int, q: int, x: int, y: int)
    requires a * p == m && b * q == m
    ensures m * (x * a + y * b) == (a * b) * (x * q + y * p)
  {
    Distribute(m, x * a, y * b);
    assert m * (x * a) == x * (m * a);
    assert m * (y * b) == y * (m * b);
    assert m * a == (a * b) * q;
    assert m * b == (a * b) * p;
    assert x * ((a * b) * q) == (a * b) * (x * q);
    assert y * ((a * b) * p) == (a * b) * (y * p);
    Distribute(a * b, x * q, y * p);
  }

  /** `lcm(a, b)` is the least common multiple: it divides every common multiple. */
  lemma LcmLeast(a: nat, b: nat, m: nat)
    requires a > 0 && b > 0 && Divides(a, m) && Divides(b, m)
    ensures Divides(Lcm(a, b), m)
  {
    GcdDivides(a, b);
    var g := Gcd(a, b);
    var ka := Quotient(g, a);
    var l := Lcm(a, b);
    assert l == ka * b;
    var p, q := Quotient(a, m), Quotient(b, m);
    var x, y := Bezout(a, b);
    var t := x * q + y * p;
    CombinationMultiple(a, b, m, p, q, x, y);
    assert m * g == (a * b) * t;
    Regroup(g, ka, b);
    CancelFactor(l, t, m, g);
    NonNegativeFactor(l, t);
    MultipleDivides(l, t);
  }

  /** `fold(acc) { acc, i -> lcm(acc, i) }` */
  function FoldLcm(acc: nat, xs: seq<nat>): (r: nat)
    requires acc > 0 && forall i :: 0 <= i < |xs| ==> xs[i] > 0
    ensures r > 0 && Divides(acc, r)
    ensures forall i :: 0 <= i < |xs| ==> Divides(xs[i], r)
    ensures |xs| == 0 ==> r == acc
    decreases |xs|
  {
    if |xs| == 0 then
      MultipleDivides(acc, 1);
      acc
    else
      var l := Lcm(acc, xs[0]);
      var r := FoldLcm(l, xs[1..]);
      DividesTransitive(acc, l, r);
      DividesTransitive(xs[0], l, r);
      assert forall i :: 1 <= i < |xs| ==> xs[i] == xs[1..][i - 1];
      r
  }

  /** The fold divides every common multiple of `acc` and the cycle lengths. */
  lemma {:induction false} FoldLcmLeast(acc: nat, xs: seq<nat>, m: nat)
    requires acc > 0 && forall i :: 0 <= i < |xs| ==> xs[i] > 0
    requires Divides(acc, m) && forall i :: 0 <= i < |xs| ==> Divides(xs[i], m)
    decreases |xs|
    ensures Divides(FoldLcm(acc, xs), m)
  {
    if |xs| > 0 {
      LcmLeast(acc, xs[0], m);
      assert forall i :: 0 <= i < |xs[1..]| ==> xs[1..][i] == xs[i + 1];
      FoldLcmLeast(Lcm(acc, xs[0]), xs[1..], m);
    }
  }
}
