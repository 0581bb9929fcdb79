/** The 2-D branch of `streamline` (StreamLine.py lines 97-136): a grid
    without `z`, or with a single `z` layer cut down to its first layer,
    traced by the same two loops as the 3-D branch over two components.
    The magnitude is the two-component norm at every column, as line 127
    computes it for the trailing sample; see `StreamLine.Streamline` for
    what line 117 does instead. */
module Planar {
  import opened Vectors
  import opened Field
  import opened OutputArrays

  /** The output arrays of the 2-D path for a trace `t` with `n` steps: the
      scalar arrays exist exactly when their flags are set, all arrays are
      distinct and have one row per seed and `n + 1` columns. */
  ghost predicate Outputs2D(t: Trace, n: nat, flags: Flags,
                            xo: array2<real>, yo: array2<real>,
                            mag: array2?<real>, iCap: array2?<real>, jCap: array2?<real>)
  {
    flags.mag == (mag != null) && flags.u == (iCap != null) && flags.v == (jCap != null) &&
    Shaped(xo, |t.seeds|, n + 1) && Shaped(yo, |t.seeds|, n + 1) &&
    Shaped(mag, |t.seeds|, n + 1) && Shaped(iCap, |t.seeds|, n + 1) && Shaped(jCap, |t.seeds|, n + 1) &&
    xo != yo &&
    (mag != null ==> mag !in {xo, yo}) &&
    (iCap != null ==> iCap !in {xo, yo, mag}) &&
    (jCap != null ==> jCap !in {xo, yo, mag, iCap})
  }

  /** One pass of the 2-D `for i` loop for seed `j`: interpolate `u`, `v` at
      point `i`, record the requested scalars at column `i`, and write point
      `i + 1`. */
  method Step2D(ghost t: Trace, axes: seq<seq<real>>, u: Plane, v: Plane, j: nat, i: nat, n: nat, length: real, flags: Flags,
                interp: Interpn, root: real -> real,
                xo: array2<real>, yo: array2<real>,
                mag: array2?<real>, iCap: array2?<real>, jCap: array2?<real>)
    requires WellFormed(t) && t.lattice == Lattice(axes, [PlaneSamples(u), PlaneSamples(v)])
    requires t.interp == interp && t.root == root && t.length == length && j < |t.seeds| && i < n
    requires Outputs2D(t, n, flags, xo, yo, mag, iCap, jCap)
    requires xo[j, i] == Cell(t, Coord(0), j, i) && yo[j, i] == Cell(t, Coord(1), j, i)
    modifies xo, yo, mag, iCap, jCap
    ensures xo[j, i + 1] == Cell(t, Coord(0), j, i + 1) && yo[j, i + 1] == Cell(t, Coord(1), j, i + 1)
    ensures mag != null ==> mag[j, i] == Cell(t, Magnitude, j, i)
    ensures iCap != null ==> iCap[j, i] == Cell(t, Component(0), j, i)
    ensures jCap != null ==> jCap[j, i] == Cell(t, Component(1), j, i)
    ensures OnlyCellChanged(xo, j, i + 1) && OnlyCellChanged(yo, j, i + 1)
    ensures OnlyCellChanged(mag, j, i) && OnlyCellChanged(iCap, j, i) && OnlyCellChanged(jCap, j, i)
  {
    var a := interp(axes, PlaneSamples(u), [xo[j, i], yo[j, i]]);
    var b := interp(axes, PlaneSamples(v), [xo[j, i], yo[j, i]]);
    StepRule2(t, j, i, xo[j, i], yo[j, i], a, b);

    RecordIf(flags.mag, mag, j, i, Norm(root, [a, b]));
    RecordIf(flags.u, iCap, j, i, a);
    RecordIf(flags.v, jCap, j, i, b);

    xo[j, i + 1] := xo[j, i] + Stride(a, length, Norm(root, [a, b]));
    yo[j, i + 1] := yo[j, i] + Stride(b, length, Norm(root, [a, b]));
  }

  /** The trailing sample of the 2-D path: interpolate at point `n` and
      record the requested scalars at column `n`. */
  method FinalSample2D(ghost t: Trace, axes: seq<seq<real>>, u: Plane, v: Plane, j: nat, n: nat, length: real, flags: Flags,
                       interp: Interpn, root: real -> real,
                       xo: array2<real>, yo: array2<real>,
                       mag: array2?<real>, iCap: array2?<real>, jCap: array2?<real>)
    requires WellFormed(t) && t.lattice == Lattice(axes, [PlaneSamples(u), PlaneSamples(v)])
    requires t.interp == interp && t.root == root && t.length == length && j < |t.seeds|
    requires Outputs2D(t, n, flags, xo, yo, mag, iCap, jCap)
    requires xo[j, n] == Cell(t, Coord(0), j, n) && yo[j, n] == Cell(t, Coord(1), j, n)
    modifies mag, iCap, jCap
    ensures mag != null ==> mag[j, n] == Cell(t, Magnitude, j, n)
    ensures iCap != null ==> iCap[j, n] == Cell(t, Component(0), j, n)
    ensures jCap != null ==> jCap[j, n] == Cell(t, Component(1), j, n)
    ensures OnlyCellChanged(mag, j, n) && OnlyCellChanged(iCap, j, n) && OnlyCellChanged(jCap, j, n)
  {
    var a := interp(axes, PlaneSamples(u), [xo[j, n], yo[j, n]]);
    var b := interp(axes, PlaneSamples(v), [xo[j, n], yo[j, n]]);
    StepRule2(t, j, n, xo[j, n], yo[j, n], a, b);

    RecordIf(flags.mag, mag, j, n, Norm(root, [a, b]));
    RecordIf(flags.u, iCap, j, n, a);
    RecordIf(flags.v, jCap, j, n, b);
  }

  /** The body of the 2-D `for j` loop: `n` steps from the seed in column 0
      of row `j`, then the trailing sample at column `n`. Only row `j` of
      each array is written. */
  method TraceSeed2D(ghost t: Trace, axes: seq<seq<real>>, u: Plane, v: Plane, j: nat, n: nat, length: real, flags: Flags,
                     interp: Interpn, root: real -> real,
                     xo: array2<real>, yo: array2<real>,
                     mag: array2?<real>, iCap: array2?<real>, jCap: array2?<real>)
    requires WellFormed(t) && t.lattice == Lattice(axes, [PlaneSamples(u), PlaneSamples(v)])
    requires t.interp == interp && t.root == root && t.length == length && j < |t.seeds|
    requires Outputs2D(t, n, flags, xo, yo, mag, iCap, jCap)
    requires xo[j, 0] == Cell(t, Coord(0), j, 0) && yo[j, 0] == Cell(t, Coord(1), j, 0)
    modifies xo, yo, mag, iCap, jCap
    ensures RowPrefix(t, xo, Coord(0), j, n + 1) && RowPrefix(t, yo, Coord(1), j, n + 1)
    ensures mag != null ==> RowPrefix(t, mag, Magnitude, j, n + 1)
    ensures iCap != null ==> RowPrefix(t, iCap, Component(0), j, n + 1)
    ensures jCap != null ==> RowPrefix(t, jCap, Component(1), j, n + 1)
    ensures OtherRowsKept(xo, j) && OtherRowsKept(yo, j)
    ensures OtherRowsKept(mag, j) && OtherRowsKept(iCap, j) && OtherRowsKept(jCap, j)
  {
    for i := 0 to n
      invariant RowPrefix(t, xo, Coord(0), j, i + 1) && RowPrefix(t, yo, Coord(1), j, i + 1)
      invariant mag != null ==> RowPrefix(t, mag, Magnitude, j, i)
      invariant iCap != null ==> RowPrefix(t, iCap, Component(0), j, i)
      invariant jCap != null ==> RowPrefix(t, jCap, Component(1), j, i)
      invariant OtherRowsKept(xo, j) && OtherRowsKept(yo, j)
      invariant OtherRowsKept(mag, j) && OtherRowsKept(iCap, j) && OtherRowsKept(jCap, j)
    {
      Step2D(t, axes, u, v, j, i, n, length, flags, interp, root, xo, yo, mag, iCap, jCap);
    }
    FinalSample2D(t, axes, u, v, j, n, length, flags, interp, root, xo, yo, mag, iCap, jCap);
  }

  /** The return list of the 2-D path: `[xo, yo]`, then `mag`, `i_cap`,
      `j_cap`, each only when its flag is set. */
  method Collect2D(xo: array2<real>, yo: array2<real>,
                   mag: array2?<real>, iCap: array2?<real>, jCap: array2?<real>, flags: Flags)
    returns (ret: seq<array2<real>>)
    requires flags.mag == (mag != null) && flags.u == (iCap != null) && flags.v == (jCap != null)
    ensures ret == [xo, yo] + OptArray(flags.mag, mag) + OptArray(flags.u, iCap) + OptArray(flags.v, jCap)
  {
    ret := [xo, yo];
    ret := AppendIf(ret, flags.mag, mag);
    ret := AppendIf(ret, flags.u, iCap);
    ret := AppendIf(ret, flags.v, jCap);
  }

  /** The arrays Collect2D returns are distinct and hold the cells of their
      kinds. */
  lemma Collected2D(t: Trace, n: nat, flags: Flags,
                    xo: array2<real>, yo: array2<real>,
                    mag: array2?<real>, iCap: array2?<real>, jCap: array2?<real>,
                    ret: seq<array2<real>>)
    requires WellFormed(t) && |t.lattice.fields| == 2
    requires Outputs2D(t, n, flags, xo, yo, mag, iCap, jCap)
    requires Traced(t, xo, Coord(0), n) && Traced(t, yo, Coord(1), n)
    requires mag != null ==> Traced(t, mag, Magnitude, n)
    requires iCap != null ==> Traced(t, iCap, Component(0), n)
    requires jCap != null ==> Traced(t, jCap, Component(1), n)
    requires ret == [xo, yo] + OptArray(flags.mag, mag) + OptArray(flags.u, iCap) + OptArray(flags.v, jCap)
    ensures Distinct(ret) && TracedList(t, ret, Layout(TwoD, flags), n)
  {
    var r0, k0 := [xo, yo], [Coord(0), Coord(1)];
    assert TracedList(t, r0, k0, n);
    var r1, k1 := r0 + OptArray(flags.mag, mag), k0 + Opt(flags.mag, Magnitude);
    TracedListAppend(t, r0, k0, n, flags.mag, mag, Magnitude);
    DistinctAppend(r0, {xo, yo}, flags.mag, mag);
    var r2, k2 := r1 + OptArray(flags.u, iCap), k1 + Opt(flags.u, Component(0));
    TracedListAppend(t, r1, k1, n, flags.u, iCap, Component(0));
    DistinctAppend(r1, {xo, yo} + {mag}, flags.u, iCap);
    TracedListAppend(t, r2, k2, n, flags.v, jCap, Component(1));
    DistinctAppend(r2, {xo, yo} + {mag} + {iCap}, flags.v, jCap);
    LayoutOf(TwoD, flags);
  }

  /** `xo`, `yo` and the requested scalar arrays, all zero. */
  method Allocate2D(ghost t: Trace, rows: nat, n: nat, flags: Flags)
    returns (xo: array2<real>, yo: array2<real>, mag: array2?<real>, iCap: array2?<real>, jCap: array2?<real>)
    requires rows == |t.seeds|
    ensures fresh(xo) && fresh(yo)
    ensures (mag != null ==> fresh(mag)) && (iCap != null ==> fresh(iCap)) && (jCap != null ==> fresh(jCap))
    ensures Outputs2D(t, n, flags, xo, yo, mag, iCap, jCap)
    ensures AllZero(xo) && AllZero(yo) && AllZero(mag) && AllZero(iCap) && AllZero(jCap)
  {
    xo := Zeros(rows, n + 1);
    yo := Zeros(rows, n + 1);
    mag, iCap, jCap := null, null, null;
    if flags.mag { mag := Zeros(rows, n + 1); }
    if flags.u { iCap := Zeros(rows, n + 1); }
    if flags.v { jCap := Zeros(rows, n + 1); }
  }

  /** `xo[:,0]=xi`, `yo[:,0]=yi`: column 0 holds the seeds. */
  method SeedColumns2D(ghost t: Trace, xi: seq<real>, yi: seq<real>, xo: array2<real>, yo: array2<real>)
    requires WellFormed(t) && |t.lattice.fields| == 2
    requires |xi| == |yi| == |t.seeds|
    requires forall r :: 0 <= r < |t.seeds| ==> t.seeds[r] == [xi[r], yi[r]]
    requires xo != yo && xo.Length0 == yo.Length0 == |t.seeds| && xo.Length1 > 0 && yo.Length1 > 0
    modifies xo, yo
    ensures forall r :: 0 <= r < |t.seeds| ==> xo[r, 0] == Cell(t, Coord(0), r, 0) && yo[r, 0] == Cell(t, Coord(1), r, 0)
    ensures OtherColumnsKept(xo) && OtherColumnsKept(yo)
  {
    forall r | 0 <= r < |xi| { xo[r, 0] := xi[r]; }
    forall r | 0 <= r < |yi| { yo[r, 0] := yi[r]; }
  }

  /** The 2-D `for j` loop: every seed traced, row by row. */
  method TraceSeeds2D(ghost t: Trace, axes: seq<seq<real>>, u: Plane, v: Plane, n: nat, length: real, flags: Flags,
                      interp: Interpn, root: real -> real,
                      xo: array2<real>, yo: array2<real>,
                      mag: array2?<real>, iCap: array2?<real>, jCap: array2?<real>)
    requires WellFormed(t) && t.lattice == Lattice(axes, [PlaneSamples(u), PlaneSamples(v)])
    requires t.interp == interp && t.root == root && t.length == length
    requires Outputs2D(t, n, flags, xo, yo, mag, iCap, jCap)
    requires forall r :: 0 <= r < |t.seeds| ==> xo[r, 0] == Cell(t, Coord(0), r, 0) && yo[r, 0] == Cell(t, Coord(1), r, 0)
    modifies xo, yo, mag, iCap, jCap
    ensures Traced(t, xo, Coord(0), n) && Traced(t, yo, Coord(1), n)
    ensures mag != null ==> Traced(t, mag, Magnitude, n)
    ensures iCap != null ==> Traced(t, iCap, Component(0), n)
    ensures jCap != null ==> Traced(t, jCap, Component(1), n)
  {
    for j := 0 to xo.Length0
      invariant RowsDone(t, xo, Coord(0), j) && RowsDone(t, yo, Coord(1), j)
      invariant mag != null ==> RowsDone(t, mag, Magnitude, j)
      invariant iCap != null ==> RowsDone(t, iCap, Component(0), j)
      invariant jCap != null ==> RowsDone(t, jCap, Component(1), j)
      invariant forall r :: j <= r < |t.seeds| ==> xo[r, 0] == Cell(t, Coord(0), r, 0) && yo[r, 0] == Cell(t, Coord(1), r, 0)
    {
      TraceSeed2D(t, axes, u, v, j, n, length, flags, interp, root, xo, yo, mag, iCap, jCap);
    }
  }

  /** The 2-D branch: cut a single-layer grid to its first layer
      (`x=x[:,:,0]` and so on), allocate `xo`, `yo` and the requested scalar
      arrays, put the seeds in column 0, trace every seed, and return the
      arrays in order. */
  method Trace2D(g: Grid, s: Seeds, n: nat, length: real, flags: Flags, interp: Interpn, root: real -> real)
    returns (ret: seq<array2<real>>)
    requires ValidGrid(g) && Dimension(g) == TwoD && ValidSeeds(s, TwoD)
    ensures Distinct(ret) && TracedList(TraceOf(g, s, length, interp, root), ret, Layout(TwoD, flags), n)
  {
    ghost var t := TraceOf(g, s, length, interp, root);
    var u := if g.Grid2? then g.u2 else Slice(g.u3);
    var v := if g.Grid2? then g.v2 else Slice(g.v3);
    assert t.lattice == Lattice([g.xs, g.ys], [PlaneSamples(u), PlaneSamples(v)]);
    var xo, yo, mag, iCap, jCap := Allocate2D(t, |s.xi|, n, flags);
    SeedColumns2D(t, s.xi, s.yi, xo, yo);
    TraceSeeds2D(t, [g.xs, g.ys], u, v, n, length, flags, interp, root, xo, yo, mag, iCap, jCap);
    ret := Collect2D(xo, yo, mag, iCap, jCap, flags);
    Collected2D(t, n, flags, xo, yo, mag, iCap, jCap, ret);
  }
}
