/** Euclidean arithmetic on coordinate vectors, written as sequences of reals.
    The square root is not a Dafny operation on `real`; it is a function the
    caller supplies, and the facts that need it to be a square root say so with
    `IsRoot`. */
module Vectors {

  /** `x**2`. */
  function Sq(x: real): real
  {
    x * x
  }

  /** The sum of the squares of the components of `s`. */
  function SumSq(s: seq<real>): (r: real)
    ensures r >= 0.0
  {
    if s == [] then 0.0 else s[0] * s[0] + SumSq(s[1..])
  }

  /** `root(x)` is the non-negative square root of `x`. */
  predicate IsRoot(root: real -> real, x: real)
  {
    root(x) >= 0.0 && root(x) * root(x) == x
  }

  /** The Euclidean length of `s`: `(a**2 + b**2 [+ c**2]) ** (1/2)`. */
  function Norm(root: real -> real, s: seq<real>): real
  {
    root(SumSq(s))
  }

  /** Division of `p` by `q`. A zero divisor gives 0, that is, no movement;
      IEEE arithmetic would give an infinity or a NaN there instead. */
  function Quot(p: real, q: real): real
  {
    if q == 0.0 then 0.0 else p / q
  }

  /** How far one coordinate moves in a step: `(a * length) / m`, where `a`
      is that coordinate's field component and `m` the field's magnitude. */
  function Stride(a: real, length: real, m: real): real
  {
    Quot(a * length, m)
  }

  /** One fixed-length step from `p` along the direction of `s`:
      component `k` moves by `Stride(s[k], length, Norm(s))`. */
  function Advance(p: seq<real>, s: seq<real>, length: real, root: real -> real): (r: seq<real>)
    requires |s| == |p|
    ensures |r| == |p|
  {
    var m := Norm(root, s);
    seq(|p|, k requires 0 <= k < |p| => p[k] + Stride(s[k], length, m))
  }

  /** The vector from `p` to `q`. */
  function Diff(q: seq<real>, p: seq<real>): (r: seq<real>)
    requires |q| == |p|
    ensures |r| == |p|
  {
    seq(|p|, k requires 0 <= k < |p| => q[k] - p[k])
  }

  /** The product `c * x`, named so that it can stand inside a sequence
      comprehension. */
  function Times(c: real, x: real): real
  {
    c * x
  }

  /** `s` multiplied by the scalar `c`. */
  function Scale(c: real, s: seq<real>): (r: seq<real>)
    ensures |r| == |s|
  {
    seq(|s|, k requires 0 <= k < |s| => Times(c, s[k]))
  }

  /** The squared length of a pair, `a**2 + b**2`. */
  lemma SumSqPair(a: real, b: real)
    ensures SumSq([a, b]) == a * a + b * b
  {
    assert [a, b][1..] == [b];
    assert [b][1..] == [];
    calc {
      SumSq([a, b]);
      a * a + SumSq([b]);
      a * a + (b * b + SumSq([]));
    }
  }

  /** The squared length of a triple, `a**2 + b**2 + c**2`. */
  lemma SumSqTriple(a: real, b: real, c: real)
    ensures SumSq([a, b, c]) == a * a + b * b + c * c
  {
    assert [a, b, c][1..] == [b, c];
    SumSqPair(b, c);
  }

  /** The length of a pair is `(a**2 + b**2) ** (1/2)`. */
  lemma NormPair(root: real -> real, a: real, b: real)
    ensures Norm(root, [a, b]) == root(Sq(a) + Sq(b))
  {
    SumSqPair(a, b);
  }

  /** The length of a triple is `(a**2 + b**2 + c**2) ** (1/2)`. */
  lemma NormTriple(root: real -> real, a: real, b: real, c: real)
    ensures Norm(root, [a, b, c]) == root(Sq(a) + Sq(b) + Sq(c))
  {
    SumSqTriple(a, b, c);
  }

  /** `(c * x)^2 == c^2 * x^2`. */
  lemma SquareOfProduct(c: real, x: real)
    ensures (c * x) * (c * x) == Sq(c) * (x * x)
  {
  }

  /** `(p / q) * q == p` when `q` is not zero. */
  lemma DivMul(p: real, q: real)
    requires q != 0.0
    ensures (p / q) * q == p
  {
  }

  /** `k * a + k * b == k * (a + b)`. */
  lemma Distribute(k: real, a: real, b: real)
    ensures k * a + k * b == k * (a + b)
  {
  }

  /** Scaling a vector by `c` scales its squared length by `c * c`. */
  lemma {:induction false} SumSqScale(c: real, s: seq<real>)
    ensures SumSq(Scale(c, s)) == Sq(c) * SumSq(s)
  {
    if s != [] {
      var t := Scale(c, s);
      assert t[1..] == Scale(c, s[1..]) by {
        forall k | 0 <= k < |s| - 1
          ensures t[1..][k] == Scale(c, s[1..])[k]
        {
          assert t[1..][k] == t[k + 1];
        }
      }
      SumSqScale(c, s[1..]);
      SquareOfProduct(c, s[0]);
      Distribute(Sq(c), s[0] * s[0], SumSq(s[1..]));
    }
  }

  /** Multiplying by a non-negative factor keeps `<=`. */
  lemma MulLe(a: real, b: real, c: real)
    requires a <= b && c >= 0.0
    ensures a * c <= b * c
  {
    assert (b - a) * c >= 0.0;
  }

  /** Multiplying by a positive factor keeps `<`. */
  lemma MulLt(a: real, b: real, c: real)
    requires a < b && c > 0.0
    ensures a * c < b * c
  {
    assert (b - a) * c > 0.0;
  }

  /** Squaring is strictly increasing on the non-negative numbers. */
  lemma SquareLt(a: real, b: real)
    requires 0.0 <= a < b
    ensures a * a < b * b
  {
    MulLe(a, b, a);
    MulLt(a, b, b);
    calc {
      a * a;
    <= b * a;
    == a * b;
    <  b * b;
    }
  }

  /** A non-negative number whose square is `l * l` is `l` itself, for `l >= 0`. */
  lemma RootOfSquare(r: real, l: real)
    requires r >= 0.0 && l >= 0.0 && r * r == l * l
    ensures r == l
  {
    if r < l {
      SquareLt(r, l);
    } else if l < r {
      SquareLt(l, r);
    }
  }

  /** Squared length `q`, scaled by the square of `length / root(q)`, is
      `length * length`. */
  lemma ScaledSquare(dsq: real, q: real, length: real, root: real -> real)
    requires IsRoot(root, q) && root(q) > 0.0
    requires dsq == Sq(length / root(q)) * q
    ensures dsq == length * length
  {
    var m := root(q);
    DivMul(length, m);
    SquareOfProduct(length / m, m);
  }

  /** The step Advance takes is `length / Norm(s)` times `s`: when `length`
      is non-negative, it points the same way as `s`. */
  lemma StepIsScaled(p: seq<real>, s: seq<real>, length: real, root: real -> real)
    requires |s| == |p|
    requires Norm(root, s) != 0.0
    ensures Diff(Advance(p, s, length, root), p) == Scale(length / Norm(root, s), s)
  {
    var step := Diff(Advance(p, s, length, root), p);
    forall k | 0 <= k < |p|
      ensures step[k] == Times(length / Norm(root, s), s[k])
    {
      var m := Norm(root, s);
      calc {
        step[k];
        Advance(p, s, length, root)[k] - p[k];
        Stride(s[k], length, m);
        (s[k] * length) / m;
        (length / m) * s[k];
      }
    }
  }

  /** When the sampled vector has a positive length, the step Advance takes
      has squared length `length * length`. */
  lemma StepSquaredLength(p: seq<real>, s: seq<real>, length: real, root: real -> real)
    requires |s| == |p|
    requires IsRoot(root, SumSq(s)) && Norm(root, s) > 0.0
    ensures SumSq(Diff(Advance(p, s, length, root), p)) == length * length
  {
    var d := Diff(Advance(p, s, length, root), p);
    StepIsScaled(p, s, length, root);
    SumSqScale(length / Norm(root, s), s);
    ScaledSquare(SumSq(d), SumSq(s), length, root);
  }

  /** A vector of squared length `length * length` has Euclidean length `length`. */
  lemma NormOfLength(d: seq<real>, length: real, root: real -> real)
    requires SumSq(d) == length * length && length >= 0.0
    requires IsRoot(root, length * length)
    ensures Norm(root, d) == length
  {
    RootOfSquare(root(length * length), length);
  }

  /** When the sampled vector has a positive length, Advance moves exactly
      `length` in Euclidean distance. */
  lemma StepLength(p: seq<real>, s: seq<real>, length: real, root: real -> real)
    requires |s| == |p| && length >= 0.0
    requires IsRoot(root, SumSq(s)) && Norm(root, s) > 0.0
    requires IsRoot(root, length * length)
    ensures Norm(root, Diff(Advance(p, s, length, root), p)) == length
  {
    StepSquaredLength(p, s, length, root);
    NormOfLength(Diff(Advance(p, s, length, root), p), length, root);
  }
}
