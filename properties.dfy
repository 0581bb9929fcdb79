/** What the output cells of `streamline` mean: the coordinate cells of a row
    are the reference streamline from that row's seed; consecutive points are
    `length` apart and step along the sampled field; rows do not depend on
    each other; the magnitude is the norm over the components of the active
    path; a single-layer volume is traced as a plane; and the returned list
    holds exactly the requested arrays, in the documented order. */
module Properties {
  import opened Vectors
  import opened Field

  /** Point `i + 1` of a seed is one Advance from point `i` along the field
      sampled there. */
  lemma PointStep(t: Trace, j: nat, i: nat)
    requires WellFormed(t) && j < |t.seeds|
    ensures Point(t, j, i + 1) == Advance(Point(t, j, i), Sample(t, Point(t, j, i)), t.length, t.root)
  {
    var p := Point(t, j, i);
    var s := Sample(t, p);
    forall k | 0 <= k < |p|
      ensures Point(t, j, i + 1)[k] == Advance(p, s, t.length, t.root)[k]
    {
      assert Cell(t, Component(k), j, i) == s[k];
      assert Cell(t, Magnitude, j, i) == Norm(t.root, s);
    }
  }

  /** The coordinate cells of row `j` trace the reference streamline from
      seed `j`. */
  lemma {:induction false} CellIsPosition(t: Trace, j: nat, i: nat)
    requires WellFormed(t) && j < |t.seeds|
    ensures Point(t, j, i) == Position(t, t.seeds[j], i)
  {
    if i == 0 {
      forall k | 0 <= k < |t.lattice.fields|
        ensures Point(t, j, 0)[k] == t.seeds[j][k]
      {
      }
    } else {
      CellIsPosition(t, j, i - 1);
      PointStep(t, j, i - 1);
    }
  }

  /** Column 0 of every coordinate array is the seed, and where `root` is a
      square root at the sampled squared norm the magnitude cell is not
      negative. */
  lemma SeedAndMagnitudeCells(t: Trace, j: nat, i: nat)
    requires WellFormed(t) && j < |t.seeds|
    ensures forall k :: 0 <= k < |t.lattice.fields| ==> Cell(t, Coord(k), j, 0) == t.seeds[j][k]
    ensures IsRoot(t.root, SumSq(Sample(t, Point(t, j, i)))) ==> Cell(t, Magnitude, j, i) >= 0.0
  {
  }

  /** Where the field does not vanish, the step from point `i` to point
      `i + 1` is the sampled field scaled by `length` over its magnitude: it
      points along the field (against it for a negative `length`). */
  lemma StepAlongField(t: Trace, j: nat, i: nat)
    requires WellFormed(t) && j < |t.seeds| && Cell(t, Magnitude, j, i) != 0.0
    ensures Diff(Point(t, j, i + 1), Point(t, j, i))
         == Scale(t.length / Cell(t, Magnitude, j, i), Sample(t, Point(t, j, i)))
  {
    PointStep(t, j, i);
    StepIsScaled(Point(t, j, i), Sample(t, Point(t, j, i)), t.length, t.root);
  }

  /** With `root` a square root at the sampled magnitude and a
      non-negative `length`, the step is a non-negative multiple of the
      sampled field: the streamline moves with the field, never against it. */
  lemma StepIsForward(t: Trace, j: nat, i: nat)
    requires WellFormed(t) && j < |t.seeds| && Cell(t, Magnitude, j, i) != 0.0
    requires IsRoot(t.root, SumSq(Sample(t, Point(t, j, i)))) && t.length >= 0.0
    ensures t.length / Cell(t, Magnitude, j, i) >= 0.0
    ensures Diff(Point(t, j, i + 1), Point(t, j, i))
         == Scale(t.length / Cell(t, Magnitude, j, i), Sample(t, Point(t, j, i)))
  {
    StepAlongField(t, j, i);
    assert Cell(t, Magnitude, j, i) == Norm(t.root, Sample(t, Point(t, j, i)));
  }

  /** Consecutive points are `length` apart: where the field sampled at
      point `i` has a positive magnitude and `root` is a square root at the
      values used, the Euclidean distance from point `i` to point `i + 1` is
      `length`. */
  lemma StepIsLength(t: Trace, j: nat, i: nat)
    requires WellFormed(t) && j < |t.seeds| && t.length >= 0.0
    requires IsRoot(t.root, SumSq(Sample(t, Point(t, j, i)))) && Norm(t.root, Sample(t, Point(t, j, i))) > 0.0
    requires IsRoot(t.root, t.length * t.length)
    ensures Norm(t.root, Diff(Point(t, j, i + 1), Point(t, j, i))) == t.length
  {
    SampledStepLength(t, Point(t, j, i));
    PointStep(t, j, i);
  }

  /** StepLength for the field of `t` sampled at `p`. */
  lemma SampledStepLength(t: Trace, p: seq<real>)
    requires |p| == |t.lattice.fields| && t.length >= 0.0
    requires IsRoot(t.root, SumSq(Sample(t, p))) && Norm(t.root, Sample(t, p)) > 0.0
    requires IsRoot(t.root, t.length * t.length)
    ensures Norm(t.root, Diff(Advance(p, Sample(t, p), t.length, t.root), p)) == t.length
  {
    StepLength(p, Sample(t, p), t.length, t.root);
  }

  /** In a field that samples to the same vector `f` everywhere, point `i`
      is the seed moved `i` times by the same stride: the streamline is a
      straight line of evenly spaced points. */
  lemma {:induction false} UniformField(t: Trace, f: seq<real>, j: nat, i: nat)
    requires WellFormed(t) && j < |t.seeds| && |f| == |t.lattice.fields|
    requires forall p :: Sample(t, p) == f
    ensures forall k :: 0 <= k < |f| ==>
      Point(t, j, i)[k] == t.seeds[j][k] + (i as real) * Stride(f[k], t.length, Norm(t.root, f))
  {
    if i > 0 {
      UniformField(t, f, j, i - 1);
      StepBy(t, f, j, i - 1);
      forall k | 0 <= k < |f|
        ensures Point(t, j, i)[k] == t.seeds[j][k] + (i as real) * Stride(f[k], t.length, Norm(t.root, f))
      {
        OneMoreStride(t.seeds[j][k], Stride(f[k], t.length, Norm(t.root, f)), i);
      }
    }
  }

  /** In the field `u = 1`, `v = 0` the streamline runs along `x`: point `i`
      is the seed moved by `i * length` in `x` and not at all in `y`. */
  lemma UnitFieldAlongX(t: Trace, j: nat, i: nat)
    requires WellFormed(t) && j < |t.seeds| && |t.lattice.fields| == 2
    requires forall p :: Sample(t, p) == [1.0, 0.0]
    requires IsRoot(t.root, 1.0)
    ensures Point(t, j, i)[0] == t.seeds[j][0] + (i as real) * t.length
    ensures Point(t, j, i)[1] == t.seeds[j][1]
  {
    var f := [1.0, 0.0];
    UniformField(t, f, j, i);
    SumSqPair(1.0, 0.0);
    RootOfSquare(t.root(1.0), 1.0);
    assert Norm(t.root, f) == 1.0;
  }

  /** The 3-D counterpart: in the field `(1, 0, 0)` only `x` moves, by
      `length` per step, and `y` and `z` stay at the seed's. */
  lemma UnitFieldAlongX3(t: Trace, j: nat, i: nat)
    requires WellFormed(t) && j < |t.seeds| && |t.lattice.fields| == 3
    requires forall p :: Sample(t, p) == [1.0, 0.0, 0.0]
    requires IsRoot(t.root, 1.0)
    ensures Point(t, j, i)[0] == t.seeds[j][0] + (i as real) * t.length
    ensures Point(t, j, i)[1] == t.seeds[j][1] && Point(t, j, i)[2] == t.seeds[j][2]
  {
    var f := [1.0, 0.0, 0.0];
    UniformField(t, f, j, i);
    SumSqTriple(1.0, 0.0, 0.0);
    RootOfSquare(t.root(1.0), 1.0);
    assert Norm(t.root, f) == 1.0;
  }

  /** Where the field samples to `f`, each coordinate moves by its stride
      along `f`. */
  lemma StepBy(t: Trace, f: seq<real>, j: nat, i: nat)
    requires WellFormed(t) && j < |t.seeds| && Sample(t, Point(t, j, i)) == f
    ensures forall k :: 0 <= k < |f| ==>
      Point(t, j, i + 1)[k] == Point(t, j, i)[k] + Stride(f[k], t.length, Norm(t.root, f))
  {
    PointStep(t, j, i);
  }

  /** `x + (i - 1) * d + d == x + i * d`. */
  lemma OneMoreStride(x: real, d: real, i: nat)
    requires i > 0
    ensures x + ((i - 1) as real) * d + d == x + (i as real) * d
  {
  }

  /** The reference streamline depends on the field, the interpolation, the
      square root and the step length, not on the other seeds. */
  lemma {:induction false} PositionOfSeed(t: Trace, t': Trace, seed: seq<real>, i: nat)
    requires t.lattice == t'.lattice && t.interp == t'.interp && t.root == t'.root && t.length == t'.length
    requires |seed| == |t.lattice.fields|
    ensures Position(t, seed, i) == Position(t', seed, i)
  {
    if i > 0 {
      PositionOfSeed(t, t', seed, i - 1);
      var q := Position(t, seed, i - 1);
      assert Sample(t, q) == Sample(t', q);
    }
  }

  /** Seeds are traced independently: a row holds the same cells as any row,
      of this or another trace over the same field, that starts from the
      same seed. */
  lemma SameSeedSameCells(t: Trace, j: nat, t': Trace, j': nat, o: Output, i: nat)
    requires WellFormed(t) && WellFormed(t') && j < |t.seeds| && j' < |t'.seeds|
    requires t.lattice == t'.lattice && t.interp == t'.interp && t.root == t'.root && t.length == t'.length
    requires t.seeds[j] == t'.seeds[j'] && Fits(|t.lattice.fields|, o)
    ensures Cell(t, o, j, i) == Cell(t', o, j', i)
  {
    CellIsPosition(t, j, i);
    CellIsPosition(t', j', i);
    PositionOfSeed(t, t', t.seeds[j], i);
    var p := Point(t, j, i);
    assert Sample(t, p) == Sample(t', p);
    match o
    case Coord(k) =>
      assert Cell(t, o, j, i) == Point(t, j, i)[k];
      assert Cell(t', o, j', i) == Point(t', j', i)[k];
    case Magnitude =>
    case Component(c) =>
  }

  /** On the 2-D path the magnitude is `(a**2 + b**2) ** (1/2)` over the two
      interpolated components. */
  lemma PlanarMagnitude(t: Trace, j: nat, i: nat)
    requires WellFormed(t) && j < |t.seeds| && |t.lattice.fields| == 2
    ensures Cell(t, Magnitude, j, i) == t.root(Sq(Cell(t, Component(0), j, i)) + Sq(Cell(t, Component(1), j, i)))
  {
    assert Sample(t, Point(t, j, i)) == [Cell(t, Component(0), j, i), Cell(t, Component(1), j, i)];
    NormPair(t.root, Cell(t, Component(0), j, i), Cell(t, Component(1), j, i));
  }

  /** On the 3-D path the magnitude is `(a**2 + b**2 + c**2) ** (1/2)` over
      the three interpolated components. */
  lemma SpatialMagnitude(t: Trace, j: nat, i: nat)
    requires WellFormed(t) && j < |t.seeds| && |t.lattice.fields| == 3
    ensures Cell(t, Magnitude, j, i)
         == t.root(Sq(Cell(t, Component(0), j, i)) + Sq(Cell(t, Component(1), j, i)) + Sq(Cell(t, Component(2), j, i)))
  {
    assert Sample(t, Point(t, j, i))
        == [Cell(t, Component(0), j, i), Cell(t, Component(1), j, i), Cell(t, Component(2), j, i)];
    NormTriple(t.root, Cell(t, Component(0), j, i), Cell(t, Component(1), j, i), Cell(t, Component(2), j, i));
  }

  /** A volume with a single `z` layer is traced as the plane of its first
      layer: `w`, the `z` coordinate and `zi` play no part. */
  lemma SingleLayerIsPlanar(xs: seq<real>, ys: seq<real>, z: real, u: Volume, v: Volume, w: Volume,
                            s: Seeds, length: real, interp: Interpn, root: real -> real)
    requires Sliceable(u) && Sliceable(v) && |s.yi| == |s.xi|
    ensures ValidGrid(Grid3(xs, ys, [z], u, v, w)) && Dimension(Grid3(xs, ys, [z], u, v, w)) == TwoD
    ensures TraceOf(Grid3(xs, ys, [z], u, v, w), s, length, interp, root)
         == TraceOf(Grid2(xs, ys, Slice(u), Slice(v)), Seeds(s.xi, s.yi, None), length, interp, root)
  {
    var s' := Seeds(s.xi, s.yi, None);
    assert SeedPoints(s, TwoD) == SeedPoints(s', TwoD);
  }

  /** `zo` is returned exactly when `z` is given with at least two layers:
      the 3-D path is taken on that test and on no other. */
  lemma ZoIffLayered(g: Grid, f: Flags)
    ensures Coord(2) in Layout(Dimension(g), f) <==> g.Grid3? && |g.zs| >= 2
  {
    LayoutHoldsRequested(Dimension(g), f, Coord(2));
  }

  /** The returned list holds an array of kind `o` exactly when the flags
      request it: the coordinates of the active dimension always, `mag`,
      `i_cap`, `j_cap` by their flags, and `k_cap` only on the 3-D path. */
  lemma LayoutHoldsRequested(d: Dims, f: Flags, o: Output)
    ensures o in Layout(d, f) <==> Requested(d, f, o)
  {
    LayoutOf(d, f);
    if Requested(d, f, o) {
      match o
      case Coord(k) =>
        assert Layout(d, f)[k] == o;
      case Magnitude =>
        assert o in Opt(f.mag, Magnitude);
      case Component(c) =>
        if c == 0 {
          assert o in Opt(f.u, Component(0));
        } else if c == 1 {
          assert o in Opt(f.v, Component(1));
        } else {
          assert o in Opt(f.w, Component(2));
        }
    }
  }

  /** `s` lists its outputs in increasing `Order`. */
  predicate Ordered(s: seq<Output>)
  {
    forall k, k' :: 0 <= k < k' < |s| ==> Order(s[k]) < Order(s[k'])
  }

  /** Appending an output that comes after everything in `s` keeps it
      ordered, and bounds it by the appended output. */
  lemma OrderedAppend(s: seq<Output>, wanted: bool, o: Output)
    requires Ordered(s) && forall k :: 0 <= k < |s| ==> Order(s[k]) < Order(o)
    ensures Ordered(s + Opt(wanted, o))
    ensures forall k :: 0 <= k < |s + Opt(wanted, o)| ==> Order((s + Opt(wanted, o))[k]) <= Order(o)
  {
    if !wanted {
      assert s + Opt(wanted, o) == s;
    }
  }

  /** The returned list is in the order `xo, yo, (zo), (mag), (i_cap),
      (j_cap), (k_cap)`. */
  lemma LayoutOrdered(d: Dims, f: Flags)
    ensures Ordered(Layout(d, f))
  {
    var s0 := if d == ThreeD then [Coord(0), Coord(1), Coord(2)] else [Coord(0), Coord(1)];
    var s1 := s0 + Opt(f.mag, Magnitude);
    var s2 := s1 + Opt(f.u, Component(0));
    var s3 := s2 + Opt(f.v, Component(1));
    OrderedAppend(s0, f.mag, Magnitude);
    OrderedAppend(s1, f.u, Component(0));
    OrderedAppend(s2, f.v, Component(1));
    OrderedAppend(s3, d == ThreeD && f.w, Component(2));
  }
}
