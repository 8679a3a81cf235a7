/** Finite real vectors: the bilinear facts behind least squares and correlation. */
module Vectors {
  type Vec = seq<real>

  function Sum(a: Vec): real {
    if a == [] then 0.0 else Sum(a[..|a| - 1]) + a[|a| - 1]
  }

  function Dot(a: Vec, b: Vec): real
    requires |a| == |b|
  {
    if a == [] then 0.0 else MulAdd(Dot(a[..|a| - 1], b[..|b| - 1]), a[|a| - 1], b[|b| - 1])
  }

  function MulAdd(y: real, k: real, z: real): real { y + k * z }

  function Fill(n: nat, c: real): Vec { seq(n, i => c) }

  /** a + k*b. */
  function Axpy(a: Vec, k: real, b: Vec): Vec
    requires |a| == |b|
  {
    seq(|a|, i requires 0 <= i < |a| => a[i] + k * b[i])
  }

  lemma {:induction false} DotCommutes(a: Vec, b: Vec)
    requires |a| == |b|
    ensures Dot(a, b) == Dot(b, a)
    decreases |a|
  {
    if a != [] {
      DotCommutes(a[..|a| - 1], b[..|b| - 1]);
      assert a[|a| - 1] * b[|b| - 1] == b[|b| - 1] * a[|a| - 1];
    }
  }

  lemma AxpyInit(a: Vec, k: real, b: Vec)
    requires |a| == |b| && a != []
    ensures Axpy(a, k, b)[..|a| - 1] == Axpy(a[..|a| - 1], k, b[..|b| - 1])
    ensures Lin(Axpy(a, k, b)[|a| - 1], a[|a| - 1], k, b[|b| - 1])
  {
    var u, v := Axpy(a, k, b)[..|a| - 1], Axpy(a[..|a| - 1], k, b[..|b| - 1]);
    assert |u| == |v|;
    forall i | 0 <= i < |u| ensures u[i] == v[i] {
      assert a[..|a| - 1][i] == a[i] && b[..|b| - 1][i] == b[i];
    }
  }

  /** x = y + k*z. */
  predicate Lin(x: real, y: real, k: real, z: real) { x == MulAdd(y, k, z) }

  lemma DotSnoc(a: Vec, b: Vec)
    requires |a| == |b| && a != []
    ensures var n := |a| - 1; Lin(Dot(a, b), Dot(a[..n], b[..n]), a[n], b[n])
  {
  }

  lemma LinearStep(x: real, y: real, z: real, w: real, k: real, d: real, e: real, f: real, d': real, e': real, f': real)
    requires Lin(d, e, k, f) && Lin(w, y, k, z) && Lin(d', d, x, w) && Lin(e', e, x, y) && Lin(f', f, x, z)
    ensures Lin(d', e', k, f')
  {
    assert x * w == x * y + k * (x * z);
    assert k * f' == k * f + k * (x * z);
  }

  /** The product is linear in its second argument. */
  lemma {:induction false} DotIsLinear(c: Vec, a: Vec, k: real, b: Vec)
    requires |a| == |b| == |c|
    ensures Lin(Dot(c, Axpy(a, k, b)), Dot(c, a), k, Dot(c, b))
    decreases |a|
  {
    if a != [] {
      var n, v := |a| - 1, Axpy(a, k, b);
      AxpyInit(a, k, b);
      DotSnoc(c, v);
      DotSnoc(c, a);
      DotSnoc(c, b);
      DotIsLinear(c[..n], a[..n], k, b[..n]);
      LinearStep(c[n], a[n], b[n], v[n], k, Dot(c[..n], v[..n]), Dot(c[..n], a[..n]), Dot(c[..n], b[..n]),
                 Dot(c, v), Dot(c, a), Dot(c, b));
    } else {
      assert Lin(0.0, 0.0, k, 0.0);
    }
  }

  lemma DotIsLinearLeft(c: Vec, a: Vec, k: real, b: Vec)
    requires |a| == |b| == |c|
    ensures Lin(Dot(Axpy(a, k, b), c), Dot(a, c), k, Dot(b, c))
  {
    DotIsLinear(c, a, k, b);
    DotCommutes(c, Axpy(a, k, b));
    DotCommutes(c, a);
    DotCommutes(c, b);
  }

  lemma ProductPositive(a: real, b: real, p: real)
    requires a > 0.0 && b > 0.0 && p == a * b
    ensures p > 0.0
  {
  }

  lemma SquareSign(x: real, sq: real)
    requires sq == x * x
    ensures sq >= 0.0
    ensures x == 0.0 ==> sq == 0.0
    ensures x != 0.0 ==> sq > 0.0
  {
    if x > 0.0 {
      ProductPositive(x, x, sq);
    } else if x < 0.0 {
      ProductPositive(-x, -x, sq);
    }
  }

  predicate IsZero(a: Vec) { forall i :: 0 <= i < |a| ==> a[i] == 0.0 }

  /** A vector's product with itself is non-negative, and zero only for the zero vector. */
  lemma {:induction false} DotSelf(a: Vec)
    ensures Dot(a, a) >= 0.0
    ensures Dot(a, a) == 0.0 <==> IsZero(a)
    decreases |a|
  {
    if a != [] {
      var init, x := a[..|a| - 1], a[|a| - 1];
      DotSelf(init);
      var sq := x * x;
      SquareSign(x, sq);
      ZeroSplits(a);
      assert Dot(a, a) == Dot(init, init) + sq;
    }
  }

  lemma ZeroSplits(a: Vec)
    requires a != []
    ensures IsZero(a) <==> IsZero(a[..|a| - 1]) && a[|a| - 1] == 0.0
  {
    if IsZero(a[..|a| - 1]) && a[|a| - 1] == 0.0 {
      forall i | 0 <= i < |a| ensures a[i] == 0.0 {
        if i < |a| - 1 { assert a[..|a| - 1][i] == 0.0; }
      }
    }
  }

  function Ones(n: nat): Vec { Fill(n, 1.0) }

  lemma {:induction false} DotOnes(a: Vec)
    ensures Dot(a, Ones(|a|)) == Sum(a)
    decreases |a|
  {
    if a != [] {
      var n := |a| - 1;
      DotOnes(a[..n]);
      assert Ones(|a|)[..n] == Ones(n);
      assert a[n] * 1.0 == a[n];
    }
  }

  lemma {:induction false} SumFill(n: nat, c: real)
    ensures Sum(Fill(n, c)) == n as real * c
  {
    if n > 0 {
      SumFill(n - 1, c);
      assert Fill(n, c)[..n - 1] == Fill(n - 1, c);
      assert n as real * c == (n - 1) as real * c + c;
    }
  }

  lemma OnesSquare(n: nat)
    ensures Dot(Ones(n), Ones(n)) == n as real
  {
    DotOnes(Ones(n));
    SumFill(n, 1.0);
  }

  function Mean(a: Vec): real
    requires a != []
  {
    Sum(a) / |a| as real
  }

  lemma MeanTimesCount(a: Vec)
    requires a != []
    ensures Mean(a) * |a| as real == Sum(a)
  {
  }

  /** The elements with c taken off. */
  function Deviations(a: Vec, c: real): Vec {
    seq(|a|, i requires 0 <= i < |a| => a[i] - c)
  }

  lemma DeviationsAreAxpy(a: Vec, c: real, k: real)
    requires k == -c
    ensures Deviations(a, c) == Axpy(a, k, Ones(|a|))
  {
    var d, v := Deviations(a, c), Axpy(a, k, Ones(|a|));
    forall i | 0 <= i < |a| ensures d[i] == v[i] {
      assert v[i] == a[i] + k * 1.0;
    }
  }

  /** v = a + 2*k*b + k^2*c. */
  predicate Quadratic(v: real, a: real, b: real, c: real, k: real) { v == a + 2.0 * (k * b) + k * k * c }

  /** The product of a + k*b with itself. */
  lemma DotSquare(a: Vec, k: real, b: Vec)
    requires |a| == |b|
    ensures Quadratic(Dot(Axpy(a, k, b), Axpy(a, k, b)), Dot(a, a), Dot(a, b), Dot(b, b), k)
  {
    var v := Axpy(a, k, b);
    DotIsLinearLeft(v, a, k, b);
    DotIsLinear(a, a, k, b);
    DotIsLinear(b, a, k, b);
    DotCommutes(a, b);
    ExpandSquare(Dot(v, v), Dot(a, v), Dot(b, v), Dot(a, a), Dot(a, b), Dot(b, b), k);
  }

  lemma ExpandSquare(vv: real, av: real, bv: real, aa: real, ab: real, bb: real, k: real)
    requires Lin(vv, av, k, bv) && Lin(av, aa, k, ab) && Lin(bv, ab, k, bb)
    ensures Quadratic(vv, aa, ab, bb, k)
  {
    assert k * bv == k * ab + k * k * bb;
  }

  /** Cauchy-Schwarz: the square of the product never exceeds the product of the squares. */
  lemma CauchySchwarz(a: Vec, b: Vec)
    requires |a| == |b|
    ensures Dot(a, b) * Dot(a, b) <= Dot(a, a) * Dot(b, b)
  {
    DotSelf(a);
    DotSelf(b);
    if Dot(b, b) == 0.0 {
      ZeroDot(a, b);
    } else {
      var k := -Dot(a, b) / Dot(b, b);
      DotSquare(a, k, b);
      DotSelf(Axpy(a, k, b));
      Discriminant(Dot(Axpy(a, k, b), Axpy(a, k, b)), Dot(a, a), Dot(a, b), Dot(b, b), k);
    }
  }

  lemma {:induction false} ZeroDot(a: Vec, b: Vec)
    requires |a| == |b| && IsZero(b)
    ensures Dot(a, b) == 0.0
    decreases |a|
  {
    if a != [] {
      ZeroDot(a[..|a| - 1], b[..|b| - 1]);
      assert a[|a| - 1] * b[|b| - 1] == 0.0;
    }
  }

  lemma Discriminant(v: real, aa: real, ab: real, bb: real, k: real)
    requires bb > 0.0 && k == -ab / bb && v >= 0.0 && Quadratic(v, aa, ab, bb, k)
    ensures ab * ab <= aa * bb
  {
    assert k * bb == -ab;
    assert k * k * bb == -(k * ab) by { assert k * k * bb == k * (k * bb); }
    var g := aa + k * ab;
    assert g >= 0.0;
    assert g * bb >= 0.0;
    assert g * bb == aa * bb - ab * ab by { assert k * ab * bb == (k * bb) * ab; }
  }

  /** v = a + k*b + l*c. */
  predicate Lin2(v: real, a: real, k: real, b: real, l: real, c: real) { v == a + k * b + l * c }

  lemma LinChain(v: real, u: real, a: real, k: real, b: real, l: real, c: real)
    requires Lin(v, u, l, c) && Lin(u, a, k, b)
    ensures Lin2(v, a, k, b, l, c)
  {
  }

  lemma SameQuadratic(v: real, a: real, b: real, c: real, k: real, v': real, b': real, c': real)
    requires Quadratic(v, a, b, c, k) && v == v' && b == b' && c == c'
    ensures Quadratic(v', a, b', c', k)
  {
  }

  /** Sum of squares about c = -k, expanded. */
  lemma DeviationSquares(a: Vec, c: real, k: real)
    requires k == -c
    ensures Quadratic(Dot(Deviations(a, c), Deviations(a, c)), Dot(a, a), Sum(a), |a| as real, k)
  {
    var d, v := Deviations(a, c), Axpy(a, k, Ones(|a|));
    DeviationsAreAxpy(a, c, k);
    DotOnes(a);
    OnesSquare(|a|);
    DotSquare(a, k, Ones(|a|));
    SameQuadratic(Dot(v, v), Dot(a, a), Dot(a, Ones(|a|)), Dot(Ones(|a|), Ones(|a|)), k,
                  Dot(d, d), Sum(a), |a| as real);
  }
}
