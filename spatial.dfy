/** The 3-D branch of `streamline` (StreamLine.py lines 50-95): arrays of
    shape `(seeds, n + 1)` filled by a `for j` loop over the seeds and a
    `for i` loop over the steps. */
module Spatial {
  import opened Vectors
  import opened Field
  import opened OutputArrays

  /** The output arrays of the 3-D path for a trace `t` with `n` steps: the
      scalar arrays exist exactly when their flags are set, all arrays are
      distinct and have one row per seed and `n + 1` columns. */
  ghost predicate Outputs3D(t: Trace, n: nat, flags: Flags,
                            xo: array2<real>, yo: array2<real>, zo: array2<real>,
                            mag: array2?<real>, iCap: array2?<real>, jCap: array2?<real>, kCap: array2?<real>)
  {
    flags.mag == (mag != null) && flags.u == (iCap != null) &&
    flags.v == (jCap != null) && flags.w == (kCap != null) &&
    Shaped(xo, |t.seeds|, n + 1) && Shaped(yo, |t.seeds|, n + 1) && Shaped(zo, |t.seeds|, n + 1) &&
    Shaped(mag, |t.seeds|, n + 1) && Shaped(iCap, |t.seeds|, n + 1) &&
    Shaped(jCap, |t.seeds|, n + 1) && Shaped(kCap, |t.seeds|, n + 1) &&
    xo != yo && xo != zo && yo != zo &&
    (mag != null ==> mag !in {xo, yo, zo}) &&
    (iCap != null ==> iCap !in {xo, yo, zo, mag}) &&
    (jCap != null ==> jCap !in {xo, yo, zo, mag, iCap}) &&
    (kCap != null ==> kCap !in {xo, yo, zo, mag, iCap, jCap})
  }

  /** One pass of the 3-D `for i` loop for seed `j`: interpolate `u`, `v`,
      `w` at point `i`, record the requested scalars at column `i`, and write
      point `i + 1`. */
  method Step3D(ghost t: Trace, axes: seq<seq<real>>, u: Volume, v: Volume, w: Volume, j: nat, i: nat, n: nat, length: real, flags: Flags,
                interp: Interpn, root: real -> real,
                xo: array2<real>, yo: array2<real>, zo: array2<real>,
                mag: array2?<real>, iCap: array2?<real>, jCap: array2?<real>, kCap: array2?<real>)
    requires WellFormed(t) && t.lattice == Lattice(axes, [VolumeSamples(u), VolumeSamples(v), VolumeSamples(w)])
    requires t.interp == interp && t.root == root && t.length == length && j < |t.seeds| && i < n
    requires Outputs3D(t, n, flags, xo, yo, zo, mag, iCap, jCap, kCap)
    requires xo[j, i] == Cell(t, Coord(0), j, i) && yo[j, i] == Cell(t, Coord(1), j, i)
    requires zo[j, i] == Cell(t, Coord(2), j, i)
    modifies xo, yo, zo, mag, iCap, jCap, kCap
    ensures xo[j, i + 1] == Cell(t, Coord(0), j, i + 1) && yo[j, i + 1] == Cell(t, Coord(1), j, i + 1)
    ensures zo[j, i + 1] == Cell(t, Coord(2), j, i + 1)
    ensures mag != null ==> mag[j, i] == Cell(t, Magnitude, j, i)
    ensures iCap != null ==> iCap[j, i] == Cell(t, Component(0), j, i)
    ensures jCap != null ==> jCap[j, i] == Cell(t, Component(1), j, i)
    ensures kCap != null ==> kCap[j, i] == Cell(t, Component(2), j, i)
    ensures OnlyCellChanged(xo, j, i + 1) && OnlyCellChanged(yo, j, i + 1) && OnlyCellChanged(zo, j, i + 1)
    ensures OnlyCellChanged(mag, j, i) && OnlyCellChanged(iCap, j, i)
    ensures OnlyCellChanged(jCap, j, i) && OnlyCellChanged(kCap, j, i)
  {
    var a := interp(axes, VolumeSamples(u), [xo[j, i], yo[j, i], zo[j, i]]);
    var b := interp(axes, VolumeSamples(v), [xo[j, i], yo[j, i], zo[j, i]]);
    var c := interp(axes, VolumeSamples(w), [xo[j, i], yo[j, i], zo[j, i]]);
    StepRule3(t, j, i, xo[j, i], yo[j, i], zo[j, i], a, b, c);

    RecordIf(flags.mag, mag, j, i, Norm(root, [a, b, c]));
    RecordIf(flags.u, iCap, j, i, a);
    RecordIf(flags.v, jCap, j, i, b);
    RecordIf(flags.w, kCap, j, i, c);

    xo[j, i + 1] := xo[j, i] + Stride(a, length, Norm(root, [a, b, c]));
    yo[j, i + 1] := yo[j, i] + Stride(b, length, Norm(root, [a, b, c]));
    zo[j, i + 1] := zo[j, i] + Stride(c, length, Norm(root, [a, b, c]));
  }

  /** The trailing sample of the 3-D path: interpolate at point `n` and
      record the requested scalars at column `n`. */
  method FinalSample3D(ghost t: Trace, axes: seq<seq<real>>, u: Volume, v: Volume, w: Volume, j: nat, n: nat, length: real, flags: Flags,
                       interp: Interpn, root: real -> real,
                       xo: array2<real>, yo: array2<real>, zo: array2<real>,
                       mag: array2?<real>, iCap: array2?<real>, jCap: array2?<real>, kCap: array2?<real>)
    requires WellFormed(t) && t.lattice == Lattice(axes, [VolumeSamples(u), VolumeSamples(v), VolumeSamples(w)])
    requires t.interp == interp && t.root == root && t.length == length && j < |t.seeds|
    requires Outputs3D(t, n, flags, xo, yo, zo, mag, iCap, jCap, kCap)
    requires xo[j, n] == Cell(t, Coord(0), j, n) && yo[j, n] == Cell(t, Coord(1), j, n)
    requires zo[j, n] == Cell(t, Coord(2), j, n)
    modifies mag, iCap, jCap, kCap
    ensures mag != null ==> mag[j, n] == Cell(t, Magnitude, j, n)
    ensures iCap != null ==> iCap[j, n] == Cell(t, Component(0), j, n)
    ensures jCap != null ==> jCap[j, n] == Cell(t, Component(1), j, n)
    ensures kCap != null ==> kCap[j, n] == Cell(t, Component(2), j, n)
    ensures OnlyCellChanged(mag, j, n) && OnlyCellChanged(iCap, j, n)
    ensures OnlyCellChanged(jCap, j, n) && OnlyCellChanged(kCap, j, n)
  {
    var a := interp(axes, VolumeSamples(u), [xo[j, n], yo[j, n], zo[j, n]]);
    var b := interp(axes, VolumeSamples(v), [xo[j, n], yo[j, n], zo[j, n]]);
    var c := interp(axes, VolumeSamples(w), [xo[j, n], yo[j, n], zo[j, n]]);
    StepRule3(t, j, n, xo[j, n], yo[j, n], zo[j, n], a, b, c);

    RecordIf(flags.mag, mag, j, n, Norm(root, [a, b, c]));
    RecordIf(flags.u, iCap, j, n, a);
    RecordIf(flags.v, jCap, j, n, b);
    RecordIf(flags.w, kCap, j, n, c);
  }

  /** The body of the 3-D `for j` loop: `n` steps from the seed in column 0
      of row `j`, then the trailing sample at column `n`. Only row `j` of
      each array is written. */
  method TraceSeed3D(ghost t: Trace, axes: seq<seq<real>>, u: Volume, v: Volume, w: Volume, j: nat, n: nat, length: real, flags: Flags,
                     interp: Interpn, root: real -> real,
                     xo: array2<real>, yo: array2<real>, zo: array2<real>,
                     mag: array2?<real>, iCap: array2?<real>, jCap: array2?<real>, kCap: array2?<real>)
    requires WellFormed(t) && t.lattice == Lattice(axes, [VolumeSamples(u), VolumeSamples(v), VolumeSamples(w)])
    requires t.interp == interp && t.root == root && t.length == length && j < |t.seeds|
    requires Outputs3D(t, n, flags, xo, yo, zo, mag, iCap, jCap, kCap)
    requires xo[j, 0] == Cell(t, Coord(0), j, 0) && yo[j, 0] == Cell(t, Coord(1), j, 0)
    requires zo[j, 0] == Cell(t, Coord(2), j, 0)
    modifies xo, yo, zo, mag, iCap, jCap, kCap
    ensures RowPrefix(t, xo, Coord(0), j, n + 1) && RowPrefix(t, yo, Coord(1), j, n + 1)
    ensures RowPrefix(t, zo, Coord(2), j, n + 1)
    ensures mag != null ==> RowPrefix(t, mag, Magnitude, j, n + 1)
    ensures iCap != null ==> RowPrefix(t, iCap, Component(0), j, n + 1)
    ensures jCap != null ==> RowPrefix(t, jCap, Component(1), j, n + 1)
    ensures kCap != null ==> RowPrefix(t, kCap, Component(2), j, n + 1)
    ensures OtherRowsKept(xo, j) && OtherRowsKept(yo, j) && OtherRowsKept(zo, j)
    ensures OtherRowsKept(mag, j) && OtherRowsKept(iCap, j) && OtherRowsKept(jCap, j) && OtherRowsKept(kCap, j)
  {
    for i := 0 to n
      invariant RowPrefix(t, xo, Coord(0), j, i + 1) && RowPrefix(t, yo, Coord(1), j, i + 1)
      invariant RowPrefix(t, zo, Coord(2), j, i + 1)
      invariant mag != null ==> RowPrefix(t, mag, Magnitude, j, i)
      invariant iCap != null ==> RowPrefix(t, iCap, Component(0), j, i)
      invariant jCap != null ==> RowPrefix(t, jCap, Component(1), j, i)
      invariant kCap != null ==> RowPrefix(t, kCap, Component(2), j, i)
      invariant OtherRowsKept(xo, j) && OtherRowsKept(yo, j) && OtherRowsKept(zo, j)
      invariant OtherRowsKept(mag, j) && OtherRowsKept(iCap, j) && OtherRowsKept(jCap, j) && OtherRowsKept(kCap, j)
    {
      Step3D(t, axes, u, v, w, j, i, n, length, flags, interp, root, xo, yo, zo, mag, iCap, jCap, kCap);
    }
    FinalSample3D(t, axes, u, v, w, j, n, length, flags, interp, root, xo, yo, zo, mag, iCap, jCap, kCap);
  }

  /** The return list of the 3-D path: `[xo, yo, zo]`, then `mag`, `i_cap`,
      `j_cap`, `k_cap`, each only when its flag is set. */
  method Collect3D(xo: array2<real>, yo: array2<real>, zo: array2<real>,
                   mag: array2?<real>, iCap: array2?<real>, jCap: array2?<real>, kCap: array2?<real>, flags: Flags)
    returns (ret: seq<array2<real>>)
    requires flags.mag == (mag != null) && flags.u == (iCap != null)
    requires flags.v == (jCap != null) && flags.w == (kCap != null)
    ensures ret == [xo, yo, zo] + OptArray(flags.mag, mag) + OptArray(flags.u, iCap)
      + OptArray(flags.v, jCap) + OptArray(flags.w, kCap)
  {
    ret := [xo, yo, zo];
    ret := AppendIf(ret, flags.mag, mag);
    ret := AppendIf(ret, flags.u, iCap);
    ret := AppendIf(ret, flags.v, jCap);
    ret := AppendIf(ret, flags.w, kCap);
  }

  /** The arrays Collect3D returns are distinct and hold the cells of their
      kinds. */
  lemma Collected3D(t: Trace, n: nat, flags: Flags,
                    xo: array2<real>, yo: array2<real>, zo: array2<real>,
                    mag: array2?<real>, iCap: array2?<real>, jCap: array2?<real>, kCap: array2?<real>,
                    ret: seq<array2<real>>)
    requires WellFormed(t) && |t.lattice.fields| == 3
    requires Outputs3D(t, n, flags, xo, yo, zo, mag, iCap, jCap, kCap)
    requires Traced(t, xo, Coord(0), n) && Traced(t, yo, Coord(1), n) && Traced(t, zo, Coord(2), n)
    requires mag != null ==> Traced(t, mag, Magnitude, n)
    requires iCap != null ==> Traced(t, iCap, Component(0), n)
    requires jCap != null ==> Traced(t, jCap, Component(1), n)
    requires kCap != null ==> Traced(t, kCap, Component(2), n)
    requires ret == [xo, yo, zo] + OptArray(flags.mag, mag) + OptArray(flags.u, iCap)
      + OptArray(flags.v, jCap) + OptArray(flags.w, kCap)
    ensures Distinct(ret) && TracedList(t, ret, Layout(ThreeD, flags), n)
  {
    var r0, k0 := [xo, yo, zo], [Coord(0), Coord(1), Coord(2)];
    assert TracedList(t, r0, k0, n);
    var r1, k1 := r0 + OptArray(flags.mag, mag), k0 + Opt(flags.mag, Magnitude);
    TracedListAppend(t, r0, k0, n, flags.mag, mag, Magnitude);
    DistinctAppend(r0, {xo, yo, zo}, flags.mag, mag);
    var r2, k2 := r1 + OptArray(flags.u, iCap), k1 + Opt(flags.u, Component(0));
    TracedListAppend(t, r1, k1, n, flags.u, iCap, Component(0));
    DistinctAppend(r1, {xo, yo, zo} + {mag}, flags.u, iCap);
    var r3, k3 := r2 + OptArray(flags.v, jCap), k2 + Opt(flags.v, Component(1));
    TracedListAppend(t, r2, k2, n, flags.v, jCap, Component(1));
    DistinctAppend(r2, {xo, yo, zo} + {mag} + {iCap}, flags.v, jCap);
    TracedListAppend(t, r3, k3, n, flags.w, kCap, Component(2));
    DistinctAppend(r3, {xo, yo, zo} + {mag} + {iCap} + {jCap}, flags.w, kCap);
    LayoutOf(ThreeD, flags);
  }

  /** `xo`, `yo`, `zo` and the requested scalar arrays, all zero. */
  method Allocate3D(ghost t: Trace, rows: nat, n: nat, flags: Flags)
    returns (xo: array2<real>, yo: array2<real>, zo: array2<real>,
             mag: array2?<real>, iCap: array2?<real>, jCap: array2?<real>, kCap: array2?<real>)
    requires rows == |t.seeds|
    ensures fresh(xo) && fresh(yo) && fresh(zo)
    ensures (mag != null ==> fresh(mag)) && (iCap != null ==> fresh(iCap))
    ensures (jCap != null ==> fresh(jCap)) && (kCap != null ==> fresh(kCap))
    ensures Outputs3D(t, n, flags, xo, yo, zo, mag, iCap, jCap, kCap)
    ensures AllZero(xo) && AllZero(yo) && AllZero(zo)
    ensures AllZero(mag) && AllZero(iCap) && AllZero(jCap) && AllZero(kCap)
  {
    xo := Zeros(rows, n + 1);
    yo := Zeros(rows, n + 1);
    zo := Zeros(rows, n + 1);
    mag, iCap, jCap, kCap := null, null, null, null;
    if flags.mag { mag := Zeros(rows, n + 1); }
    if flags.u { iCap := Zeros(rows, n + 1); }
    if flags.v { jCap := Zeros(rows, n + 1); }
    if flags.w { kCap := Zeros(rows, n + 1); }
  }

  /** `xo[:,0]=xi`, `yo[:,0]=yi`, `zo[:,0]=zi`: column 0 holds the seeds. */
  method SeedColumns3D(ghost t: Trace, xi: seq<real>, yi: seq<real>, zi: seq<real>,
                       xo: array2<real>, yo: array2<real>, zo: array2<real>)
    requires WellFormed(t) && |t.lattice.fields| == 3
    requires |xi| == |yi| == |zi| == |t.seeds|
    requires forall r :: 0 <= r < |t.seeds| ==> t.seeds[r] == [xi[r], yi[r], zi[r]]
    requires xo != yo && xo != zo && yo != zo
    requires xo.Length0 == yo.Length0 == zo.Length0 == |t.seeds|
    requires xo.Length1 > 0 && yo.Length1 > 0 && zo.Length1 > 0
    modifies xo, yo, zo
    ensures forall r :: 0 <= r < |t.seeds| ==>
      xo[r, 0] == Cell(t, Coord(0), r, 0) && yo[r, 0] == Cell(t, Coord(1), r, 0) && zo[r, 0] == Cell(t, Coord(2), r, 0)
    ensures OtherColumnsKept(xo) && OtherColumnsKept(yo) && OtherColumnsKept(zo)
  {
    forall r | 0 <= r < |xi| { xo[r, 0] := xi[r]; }
    forall r | 0 <= r < |yi| { yo[r, 0] := yi[r]; }
    forall r | 0 <= r < |zi| { zo[r, 0] := zi[r]; }
  }

  /** The 3-D `for j` loop: every seed traced, row by row. */
  method TraceSeeds3D(ghost t: Trace, axes: seq<seq<real>>, u: Volume, v: Volume, w: Volume, n: nat, length: real, flags: Flags,
                      interp: Interpn, root: real -> real,
                      xo: array2<real>, yo: array2<real>, zo: array2<real>,
                      mag: array2?<real>, iCap: array2?<real>, jCap: array2?<real>, kCap: array2?<real>)
    requires WellFormed(t) && t.lattice == Lattice(axes, [VolumeSamples(u), VolumeSamples(v), VolumeSamples(w)])
    requires t.interp == interp && t.root == root && t.length == length
    requires Outputs3D(t, n, flags, xo, yo, zo, mag, iCap, jCap, kCap)
    requires forall r :: 0 <= r < |t.seeds| ==>
      xo[r, 0] == Cell(t, Coord(0), r, 0) && yo[r, 0] == Cell(t, Coord(1), r, 0) && zo[r, 0] == Cell(t, Coord(2), r, 0)
    modifies xo, yo, zo, mag, iCap, jCap, kCap
    ensures Traced(t, xo, Coord(0), n) && Traced(t, yo, Coord(1), n) && Traced(t, zo, Coord(2), n)
    ensures mag != null ==> Traced(t, mag, Magnitude, n)
    ensures iCap != null ==> Traced(t, iCap, Component(0), n)
    ensures jCap != null ==> Traced(t, jCap, Component(1), n)
    ensures kCap != null ==> Traced(t, kCap, Component(2), n)
  {
    for j := 0 to xo.Length0
      invariant RowsDone(t, xo, Coord(0), j) && RowsDone(t, yo, Coord(1), j) && RowsDone(t, zo, Coord(2), j)
      invariant mag != null ==> RowsDone(t, mag, Magnitude, j)
      invariant iCap != null ==> RowsDone(t, iCap, Component(0), j)
      invariant jCap != null ==> RowsDone(t, jCap, Component(1), j)
      invariant kCap != null ==> RowsDone(t, kCap, Component(2), j)
      invariant forall r :: j <= r < |t.seeds| ==>
        xo[r, 0] == Cell(t, Coord(0), r, 0) && yo[r, 0] == Cell(t, Coord(1), r, 0) && zo[r, 0] == Cell(t, Coord(2), r, 0)
    {
      TraceSeed3D(t, axes, u, v, w, j, n, length, flags, interp, root, xo, yo, zo, mag, iCap, jCap, kCap);
    }
  }

  /** The 3-D branch: allocate `xo`, `yo`, `zo` and the requested scalar
      arrays, put the seeds in column 0, trace every seed, and return the
      arrays in order. */
  method Trace3D(g: Grid, s: Seeds, n: nat, length: real, flags: Flags, interp: Interpn, root: real -> real)
    returns (ret: seq<array2<real>>)
    requires ValidGrid(g) && Dimension(g) == ThreeD && ValidSeeds(s, ThreeD)
    ensures Distinct(ret) && TracedList(TraceOf(g, s, length, interp, root), ret, Layout(ThreeD, flags), n)
  {
    ghost var t := TraceOf(g, s, length, interp, root);
    assert t.lattice == Lattice([g.xs, g.ys, g.zs], [VolumeSamples(g.u3), VolumeSamples(g.v3), VolumeSamples(g.w3)]);
    var xo, yo, zo, mag, iCap, jCap, kCap := Allocate3D(t, |s.xi|, n, flags);
    SeedColumns3D(t, s.xi, s.yi, s.zi.value, xo, yo, zo);
    TraceSeeds3D(t, [g.xs, g.ys, g.zs], g.u3, g.v3, g.w3, n, length, flags, interp, root,
                 xo, yo, zo, mag, iCap, jCap, kCap);
    ret := Collect3D(xo, yo, zo, mag, iCap, jCap, kCap, flags);
    Collected3D(t, n, flags, xo, yo, zo, mag, iCap, jCap, kCap, ret);
  }
}
