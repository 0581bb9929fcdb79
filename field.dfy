/** The vector field a streamline follows and the specification of every
    output cell of `streamline` (StreamLine.py).

    The interpolation routine (scipy's `interpn`) and the square root are
    supplied by the caller as functions. `Position` is the reference
    definition of a streamline point; `Cell` gives the value of every output
    array cell, row by row and column by column, in the order the source
    computes them. */
module Field {
  import opened Vectors

  type Plane = seq<seq<real>>
  type Volume = seq<seq<seq<real>>>

  datatype Option<T> = None | Some(value: T)

  /** The sample array of one field component, as `interpn` receives it. */
  datatype Samples = PlaneSamples(plane: Plane) | VolumeSamples(volume: Volume)

  /** `interpn(points, values, xi, bounds_error=False)`: the per-axis grid
      coordinates, the samples of one component, and the query point. */
  type Interpn = (seq<seq<real>>, Samples, seq<real>) -> real

  /** The grid and field passed by the caller. Without `z` the arrays are
      planes; with `z` they are volumes over `xs` x `ys` x `zs`. Each axis is
      given by its coordinate sequence (`x[:,0,0]`, `y[0,:,0]`, `z[0,0,:]`). */
  datatype Grid =
    | Grid2(xs: seq<real>, ys: seq<real>, u2: Plane, v2: Plane)
    | Grid3(xs: seq<real>, ys: seq<real>, zs: seq<real>, u3: Volume, v3: Volume, w3: Volume)

  /** The seed coordinates `xi`, `yi` and the optional `zi`. */
  datatype Seeds = Seeds(xi: seq<real>, yi: seq<real>, zi: Option<seq<real>>)

  /** The flags `r_mag`, `r_u`, `r_v`, `r_w`. */
  datatype Flags = Flags(mag: bool, u: bool, v: bool, w: bool)

  datatype Dims = TwoD | ThreeD

  /** The one failure the function raises on well-shaped input: a read of a
      local variable that was never assigned. */
  datatype Error = UnboundLocal(name: string)

  datatype Result<T> = Ok(value: T) | Err(error: Error)

  /** The 3-D path is taken when `z` is given and has more than one layer. */
  function Dimension(g: Grid): (d: Dims)
    ensures g.Grid2? ==> d == TwoD
    ensures g.Grid3? ==> (d == ThreeD <==> |g.zs| >= 2)
  {
    if g.Grid3? && |g.zs| > 1 then ThreeD else TwoD
  }

  function Rank(d: Dims): nat
  {
    if d == ThreeD then 3 else 2
  }

  /** Every `[i, k]` column of `vol` has a first layer. */
  predicate Sliceable(vol: Volume)
  {
    forall i, k :: 0 <= i < |vol| && 0 <= k < |vol[i]| ==> |vol[i][k]| > 0
  }

  /** `vol[:, :, 0]`. */
  function Slice(vol: Volume): (p: Plane)
    requires Sliceable(vol)
    ensures |p| == |vol| && forall i :: 0 <= i < |p| ==> |p[i]| == |vol[i]|
    ensures forall i, k :: 0 <= i < |p| && 0 <= k < |p[i]| ==> p[i][k] == vol[i][k][0]
  {
    seq(|vol|, i requires 0 <= i < |vol| =>
      seq(|vol[i]|, k requires 0 <= k < |vol[i]| => vol[i][k][0]))
  }

  /** What the grid must satisfy: a given `z` axis is not empty, and a
      single-layer `u` and `v` can be cut to their first layer. */
  predicate ValidGrid(g: Grid)
  {
    g.Grid3? ==> |g.zs| >= 1 && (|g.zs| == 1 ==> Sliceable(g.u3) && Sliceable(g.v3))
  }

  /** The seed coordinate sequences have one entry per seed; `zi` is needed
      (and then as long as `xi`) only on the 3-D path. */
  predicate ValidSeeds(s: Seeds, d: Dims)
  {
    |s.yi| == |s.xi| && (d == ThreeD ==> s.zi.Some? && |s.zi.value| == |s.xi|)
  }

  /** The axes and the component samples that the active path interpolates. */
  datatype Lattice = Lattice(axes: seq<seq<real>>, fields: seq<Samples>)

  /** The lattice of the path `Dimension(g)` selects; a single-layer volume
      is cut to its first layer and `w` is dropped. */
  function Active(g: Grid): (l: Lattice)
    requires ValidGrid(g)
    ensures |l.fields| == |l.axes| == Rank(Dimension(g))
  {
    match g
    case Grid2(xs, ys, u, v) => Lattice([xs, ys], [PlaneSamples(u), PlaneSamples(v)])
    case Grid3(xs, ys, zs, u, v, w) =>
      if |zs| > 1 then Lattice([xs, ys, zs], [VolumeSamples(u), VolumeSamples(v), VolumeSamples(w)])
      else Lattice([xs, ys], [PlaneSamples(Slice(u)), PlaneSamples(Slice(v))])
  }

  /** Seed `j` as a point of the active dimension. */
  function SeedPoints(s: Seeds, d: Dims): (r: seq<seq<real>>)
    requires ValidSeeds(s, d)
    ensures |r| == |s.xi|
    ensures forall j :: 0 <= j < |r| ==> |r[j]| == Rank(d)
  {
    seq(|s.xi|, j requires 0 <= j < |s.xi| =>
      if d == ThreeD then [s.xi[j], s.yi[j], s.zi.value[j]] else [s.xi[j], s.yi[j]])
  }

  /** Everything a streamline depends on: the lattice, the interpolation
      routine, the square root, the seed points and the step length. */
  datatype Trace = Trace(lattice: Lattice, interp: Interpn, root: real -> real,
                         seeds: seq<seq<real>>, length: real)

  predicate WellFormed(t: Trace)
  {
    forall j :: 0 <= j < |t.seeds| ==> |t.seeds[j]| == |t.lattice.fields|
  }

  function TraceOf(g: Grid, s: Seeds, length: real, interp: Interpn, root: real -> real): (t: Trace)
    requires ValidGrid(g) && ValidSeeds(s, Dimension(g))
    ensures WellFormed(t) && |t.seeds| == |s.xi| && |t.lattice.fields| == Rank(Dimension(g))
  {
    Trace(Active(g), interp, root, SeedPoints(s, Dimension(g)), length)
  }

  /** The field at `p`: one interpolation per component. */
  function Sample(t: Trace, p: seq<real>): (r: seq<real>)
    ensures |r| == |t.lattice.fields|
  {
    seq(|t.lattice.fields|, c requires 0 <= c < |t.lattice.fields| =>
      t.interp(t.lattice.axes, t.lattice.fields[c], p))
  }

  /** Point `i` of the streamline from `seed`: the seed, then one Advance
      along the field sampled at the previous point. */
  function Position(t: Trace, seed: seq<real>, i: nat): (p: seq<real>)
    requires |seed| == |t.lattice.fields|
    ensures |p| == |seed|
  {
    if i == 0 then seed
    else
      var q := Position(t, seed, i - 1);
      Advance(q, Sample(t, q), t.length, t.root)
  }

  /** The kinds of output array: a position coordinate (`xo`, `yo`, `zo`),
      the magnitude (`mag`) or a field component (`i_cap`, `j_cap`, `k_cap`). */
  datatype Output = Coord(axis: nat) | Magnitude | Component(index: nat)

  /** `o` is meaningful in `width` dimensions. */
  predicate Fits(width: nat, o: Output)
  {
    match o
    case Coord(k) => k < width
    case Magnitude => true
    case Component(c) => c < width
  }

  /** Point `i` of seed `j`, read off the coordinate cells. */
  function Point(t: Trace, j: nat, i: nat): (p: seq<real>)
    requires WellFormed(t) && j < |t.seeds|
    ensures |p| == |t.lattice.fields|
    decreases i, 1
  {
    seq(|t.lattice.fields|, k requires 0 <= k < |t.lattice.fields| => Cell(t, Coord(k), j, i))
  }

  function Tier(o: Output): nat
  {
    if o.Coord? then 0 else 2
  }

  /** The value at row `j` (seed `j`), column `i` of the array of kind `o`. */
  function Cell(t: Trace, o: Output, j: nat, i: nat): real
    requires WellFormed(t) && j < |t.seeds| && Fits(|t.lattice.fields|, o)
    decreases i, Tier(o)
  {
    match o
    case Coord(k) =>
      if i == 0 then t.seeds[j][k]
      else Cell(t, Coord(k), j, i - 1) + Stride(Cell(t, Component(k), j, i - 1), t.length, Cell(t, Magnitude, j, i - 1))
    case Magnitude => Norm(t.root, Sample(t, Point(t, j, i)))
    case Component(c) => t.interp(t.lattice.axes, t.lattice.fields[c], Point(t, j, i))
  }

  /** Whether the flags ask for output `o` in dimension `d`; `r_w` is
      ignored on the 2-D path. */
  predicate Requested(d: Dims, f: Flags, o: Output)
  {
    match o
    case Coord(k) => k < Rank(d)
    case Magnitude => f.mag
    case Component(c) => (c == 0 && f.u) || (c == 1 && f.v) || (c == 2 && d == ThreeD && f.w)
  }

  /** The place an output takes in the returned list. */
  function Order(o: Output): nat
  {
    match o
    case Coord(k) => k
    case Magnitude => 3
    case Component(c) => 4 + c
  }

  /** `[o]` when `wanted`, else nothing. */
  function Opt<T>(wanted: bool, o: T): (r: seq<T>)
    ensures |r| <= 1
  {
    if wanted then [o] else []
  }

  /** The kinds of the returned arrays, in order. */
  function Layout(d: Dims, f: Flags): (r: seq<Output>)
    ensures forall k :: 0 <= k < |r| ==> Requested(d, f, r[k])
  {
    (if d == ThreeD then [Coord(0), Coord(1), Coord(2)] else [Coord(0), Coord(1)])
    + Opt(f.mag, Magnitude) + Opt(f.u, Component(0)) + Opt(f.v, Component(1))
    + Opt(d == ThreeD && f.w, Component(2))
  }

  /** Layout, one `if r_...: ret.append(...)` at a time. */
  lemma LayoutOf(d: Dims, f: Flags)
    ensures d == ThreeD ==>
      Layout(d, f) == [Coord(0), Coord(1), Coord(2)] + Opt(f.mag, Magnitude)
                      + Opt(f.u, Component(0)) + Opt(f.v, Component(1)) + Opt(f.w, Component(2))
    ensures d == TwoD ==>
      Layout(d, f) == [Coord(0), Coord(1)] + Opt(f.mag, Magnitude)
                      + Opt(f.u, Component(0)) + Opt(f.v, Component(1))
  {
    assert Opt(false, Component(2)) == [];
  }

  /** One pass of the 3-D inner loop, stated on the cells: with `x, y, z`
      point `i` and `a, b, c` the components interpolated there, the scalar
      cells at column `i` are `a, b, c` and their three-component norm, and
      point `i + 1` moves each coordinate by its component times `length`
      over that norm. */
  lemma StepRule3(t: Trace, j: nat, i: nat, x: real, y: real, z: real, a: real, b: real, c: real)
    requires WellFormed(t) && j < |t.seeds| && |t.lattice.fields| == 3
    requires x == Cell(t, Coord(0), j, i) && y == Cell(t, Coord(1), j, i) && z == Cell(t, Coord(2), j, i)
    requires a == t.interp(t.lattice.axes, t.lattice.fields[0], [x, y, z])
    requires b == t.interp(t.lattice.axes, t.lattice.fields[1], [x, y, z])
    requires c == t.interp(t.lattice.axes, t.lattice.fields[2], [x, y, z])
    ensures Cell(t, Component(0), j, i) == a && Cell(t, Component(1), j, i) == b
    ensures Cell(t, Component(2), j, i) == c
    ensures Cell(t, Magnitude, j, i) == Norm(t.root, [a, b, c])
    ensures Cell(t, Coord(0), j, i + 1) == x + Stride(a, t.length, Norm(t.root, [a, b, c]))
    ensures Cell(t, Coord(1), j, i + 1) == y + Stride(b, t.length, Norm(t.root, [a, b, c]))
    ensures Cell(t, Coord(2), j, i + 1) == z + Stride(c, t.length, Norm(t.root, [a, b, c]))
  {
    var p := Point(t, j, i);
    assert p == [x, y, z];
    assert Sample(t, p) == [a, b, c];
  }

  /** One pass of the 2-D inner loop, with the magnitude taken over the two
      components that exist. */
  lemma StepRule2(t: Trace, j: nat, i: nat, x: real, y: real, a: real, b: real)
    requires WellFormed(t) && j < |t.seeds| && |t.lattice.fields| == 2
    requires x == Cell(t, Coord(0), j, i) && y == Cell(t, Coord(1), j, i)
    requires a == t.interp(t.lattice.axes, t.lattice.fields[0], [x, y])
    requires b == t.interp(t.lattice.axes, t.lattice.fields[1], [x, y])
    ensures Cell(t, Component(0), j, i) == a && Cell(t, Component(1), j, i) == b
    ensures Cell(t, Magnitude, j, i) == Norm(t.root, [a, b])
    ensures Cell(t, Coord(0), j, i + 1) == x + Stride(a, t.length, Norm(t.root, [a, b]))
    ensures Cell(t, Coord(1), j, i + 1) == y + Stride(b, t.length, Norm(t.root, [a, b]))
  {
    var p := Point(t, j, i);
    assert p == [x, y];
    assert Sample(t, p) == [a, b];
  }
}
