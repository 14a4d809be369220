/** Polynomials over GF(2) as lists of coefficients, highest first: products, and division with remainder. */
module Polynomials {
  import opened ShiftRegister

  /** The product; it has one coefficient less than the factors together. */
  function Mul(q: seq<bool>, g: seq<bool>): (r: seq<bool>)
    requires g != []
    ensures |r| == |q| + |g| - 1
  {
    if q == [] then Zeros(|g| - 1)
    else
      var init := q[..|q| - 1];
      Xor(Mul(init, g) + [false], Scaled(q[|q| - 1], Zeros(|init|) + g))
  }

  function Scaled(b: bool, p: seq<bool>): (r: seq<bool>)
    ensures |r| == |p|
  {
    if b then p else Zeros(|p|)
  }

  /** `r` is a remainder of dividing `d` by `g`: `d` is a multiple of `g` plus `r`, which is shorter than `g`. */
  ghost predicate IsRemainder(d: seq<bool>, g: seq<bool>, r: seq<bool>) {
    g != [] && |r| == |g| - 1 && exists q: seq<bool> :: |q| == |d| && Zeros(|r|) + d == Sum(q, g, r)
  }

  /** `q * g + r` */
  function Sum(q: seq<bool>, g: seq<bool>, r: seq<bool>): (s: seq<bool>)
    requires g != [] && |r| == |g| - 1
    ensures |s| == |q| + |r|
  {
    Xor(Mul(q, g), Zeros(|q|) + r)
  }

  // ---------------------------------------------------------------- sums of lists

  lemma XorAssoc(a: seq<bool>, b: seq<bool>, c: seq<bool>)
    requires |a| == |b| == |c|
    ensures Xor(Xor(a, b), c) == Xor(a, Xor(b, c))
  {
  }

  lemma XorCat(a: seq<bool>, b: seq<bool>, c: seq<bool>, d: seq<bool>)
    requires |a| == |c| && |b| == |d|
    ensures Xor(a + b, c + d) == Xor(a, c) + Xor(b, d)
  {
  }

  lemma XorZeros(a: seq<bool>)
    ensures Xor(a, Zeros(|a|)) == a && Xor(Zeros(|a|), a) == a && Xor(a, a) == Zeros(|a|)
  {
  }

  lemma XorTwice(a: seq<bool>, b: seq<bool>)
    requires |a| == |b|
    ensures Xor(a, Xor(a, b)) == b
  {
  }

  lemma ZerosCat(m: nat, n: nat)
    ensures Zeros(m) + Zeros(n) == Zeros(m + n)
  {
  }

  lemma ZerosOne(n: nat)
    ensures Zeros(n) + [false] == Zeros(n + 1) == [false] + Zeros(n)
  {
  }

  lemma ScaledCat(b: bool, p: seq<bool>, n: nat)
    ensures Zeros(n) + Scaled(b, p) == Scaled(b, Zeros(n) + p)
    ensures Scaled(b, p) + Zeros(n) == Scaled(b, p + Zeros(n))
  {
    ZerosCat(n, |p|);
    ZerosCat(|p|, n);
  }

  /** Sums of lists with a coefficient before them. */
  lemma XorHead(a: bool, b: seq<bool>, c: bool, d: seq<bool>)
    requires |b| == |d|
    ensures Xor([a] + b, [c] + d) == [a != c] + Xor(b, d)
  {
    XorCat([a], b, [c], d);
    assert Xor([a], [c]) == [a != c];
  }

  /** Sums of lists with a coefficient behind them. */
  lemma XorTail(a: seq<bool>, b: bool, c: seq<bool>, d: bool)
    requires |a| == |c|
    ensures Xor(a + [b], c + [d]) == Xor(a, c) + [b != d]
  {
    XorCat(a, [b], c, [d]);
    assert Xor([b], [d]) == [b != d];
  }

  // ---------------------------------------------------------------- products

  lemma MulStep(q: seq<bool>, b: bool, g: seq<bool>)
    requires g != []
    ensures Mul(q + [b], g) == Xor(Mul(q, g) + [false], Scaled(b, Zeros(|q|) + g))
  {
    assert (q + [b])[..|q + [b]| - 1] == q;
  }

  lemma MulOne(a: bool, g: seq<bool>)
    requires g != []
    ensures Mul([a] + [], g) == Xor(Scaled(a, g + Zeros(0)), [false] + Mul([], g))
  {
    MulStep([], a, g);
    assert [a] + [] == [] + [a];
    assert g + Zeros(0) == g && Zeros(0) + g == g;
    ZerosOne(|g| - 1);
    hide Mul;
    XorZeros(Scaled(a, g));
  }

  /** The product, peeled from the highest coefficient of the first factor. */
  lemma {:induction false} MulFront(a: bool, q: seq<bool>, g: seq<bool>)
    requires g != []
    ensures Mul([a] + q, g) == Xor(Scaled(a, g + Zeros(|q|)), [false] + Mul(q, g))
    decreases |q|
  {
    if q == [] {
      MulOne(a, g);
    } else {
      var init, b := q[..|q| - 1], q[|q| - 1];
      assert q == init + [b] && [a] + q == ([a] + init) + [b];
      MulFront(a, init, g);
      MulStep([a] + init, b, g);
      MulStep(init, b, g);
      hide Mul, Scaled;
      Peel(a, b, g, Mul(init, g), |init|);
    }
  }

  lemma Peel(a: bool, b: bool, g: seq<bool>, m: seq<bool>, n: nat)
    requires g != [] && |m| == n + |g| - 1
    ensures Xor(Xor(Scaled(a, g + Zeros(n)), [false] + m) + [false], Scaled(b, Zeros(n + 1) + g))
         == Xor(Scaled(a, g + Zeros(n + 1)), [false] + Xor(m + [false], Scaled(b, Zeros(n) + g)))
  {
    hide Scaled;
    var x, y, z := Scaled(a, g + Zeros(n)), Scaled(a, g + Zeros(n + 1)), Scaled(b, Zeros(n) + g);
    assert y == x + [false] by {
      ScaledCat(a, g + Zeros(n), 1);
      assert Zeros(1) == [false];
      ZerosOne(n);
      assert g + Zeros(n) + [false] == g + Zeros(n + 1);
    }
    assert Scaled(b, Zeros(n + 1) + g) == [false] + z by {
      ScaledCat(b, Zeros(n) + g, 1);
      assert Zeros(1) == [false];
      ZerosOne(n);
      assert [false] + (Zeros(n) + g) == Zeros(n + 1) + g;
    }
    var u := [false] + (m + [false]);
    assert Xor(x, [false] + m) + [false] == Xor(y, u) by {
      XorTail(x, false, [false] + m, false);
      assert ([false] + m) + [false] == u;
    }
    XorAssoc(y, u, [false] + z);
    XorHead(false, m + [false], false, z);
  }

  lemma SumOfNothing(g: seq<bool>, r: seq<bool>)
    requires g != [] && |r| == |g| - 1
    ensures Sum([], g, r) == r
  {
    assert Zeros(0) + r == r;
    XorZeros(r);
  }

  lemma SumPeel(q: seq<bool>, g: seq<bool>, r: seq<bool>)
    requires q != [] && g != [] && |r| == |g| - 1
    ensures Sum(q, g, r) == Xor(Scaled(q[0], g + Zeros(|q| - 1)), [false] + Sum(q[1..], g, r))
  {
    hide Mul, Scaled, Sum;
    assert q == [q[0]] + q[1..];
    MulFront(q[0], q[1..], g);
    SumFront(q[0], q[1..], g, r);
  }

  /** With a leading coefficient in the divisor, quotient and remainder are unique. */
  lemma {:induction false} RemainderIsUnique(q: seq<bool>, r: seq<bool>, p: seq<bool>, s: seq<bool>, g: seq<bool>)
    requires g != [] && g[0] && |q| == |p| && |r| == |s| == |g| - 1 && Sum(q, g, r) == Sum(p, g, s)
    ensures q == p && r == s
    decreases |q|
  {
    hide Mul, Scaled, Sum;
    if q == [] {
      SumOfNothing(g, r);
      SumOfNothing(g, s);
    } else {
      SumPeel(q, g, r);
      SumPeel(p, g, s);
      Cancel(q[0], p[0], Sum(q[1..], g, r), Sum(p[1..], g, s), g);
      RemainderIsUnique(q[1..], r, p[1..], s, g);
      assert q == [q[0]] + q[1..] && p == [p[0]] + p[1..];
    }
  }

  lemma SumFront(a: bool, q: seq<bool>, g: seq<bool>, r: seq<bool>)
    requires g != [] && |r| == |g| - 1 && Mul([a] + q, g) == Xor(Scaled(a, g + Zeros(|q|)), [false] + Mul(q, g))
    ensures Sum([a] + q, g, r) == Xor(Scaled(a, g + Zeros(|q|)), [false] + Sum(q, g, r))
  {
    hide Mul, Scaled;
    var x, m, y := Scaled(a, g + Zeros(|q|)), Mul(q, g), Zeros(|q|) + r;
    assert Zeros(|q| + 1) + r == [false] + y by {
      ZerosOne(|q|);
      assert [false] + Zeros(|q|) + r == [false] + (Zeros(|q|) + r);
    }
    XorAssoc(x, [false] + m, [false] + y);
    XorHead(false, m, false, y);
  }

  lemma ScaledHead(a: bool, h: seq<bool>)
    requires h != [] && h[0]
    ensures Scaled(a, h) == [a] + Scaled(a, h[1..])
  {
    ZerosOne(|h| - 1);
    assert h == [true] + h[1..];
  }

  lemma SameHead(a: bool, x: seq<bool>, b: bool, y: seq<bool>)
    requires [a] + x == [b] + y
    ensures a == b && x == y
  {
    var s, t := [a] + x, [b] + y;
    assert s[0] == t[0] && s[1..] == t[1..];
    assert s[1..] == x && t[1..] == y;
  }

  lemma Cancel(a: bool, b: bool, x: seq<bool>, y: seq<bool>, g: seq<bool>)
    requires g != [] && g[0] && |x| == |y| >= |g| - 1
    requires var h := g + Zeros(|x| - |g| + 1); Xor(Scaled(a, h), [false] + x) == Xor(Scaled(b, h), [false] + y)
    ensures a == b && x == y
  {
    hide Scaled;
    var h := g + Zeros(|x| - |g| + 1);
    var p, q := Scaled(a, h[1..]), Scaled(b, h[1..]);
    ScaledHead(a, h);
    ScaledHead(b, h);
    XorHead(a, p, false, x);
    XorHead(b, q, false, y);
    SameHead(a, Xor(p, x), b, Xor(q, y));
    XorTwice(p, x);
    XorTwice(q, y);
  }
}
