/** `streamline` (StreamLine.py): trace `n` fixed-length steps from every
    seed through the vector field `(u, v[, w])` sampled on a grid, and return
    the point coordinates of every streamline together with the requested
    field values along them. */
module StreamLine {
  import opened Field
  import opened OutputArrays
  import Spatial
  import Planar

  /** The whole function. A grid with `z` of more than one layer takes the
      3-D branch; anything else takes the 2-D branch. On the 2-D branch with
      `r_mag=True`, the first pass of the inner loop (some seed and `n >= 1`)
      reads `c`, a local that only the 3-D branch assigns, and the call
      raises `UnboundLocalError`. Otherwise the list holds the arrays of the
      requested kinds, in the documented order, each filled as `Cell`
      specifies. */
  method Streamline(g: Grid, s: Seeds, n: nat, length: real, flags: Flags, interp: Interpn, root: real -> real)
    returns (r: Result<seq<array2<real>>>)
    requires ValidGrid(g) && ValidSeeds(s, Dimension(g))
    ensures r.Err? <==> Dimension(g) == TwoD && flags.mag && n >= 1 && |s.xi| >= 1
    ensures r.Err? ==> r.error == UnboundLocal("c")
    ensures r.Ok? ==> Distinct(r.value)
    ensures r.Ok? ==> TracedList(TraceOf(g, s, length, interp, root), r.value, Layout(Dimension(g), flags), n)
  {
    if Dimension(g) == ThreeD {
      var ret := Spatial.Trace3D(g, s, n, length, flags, interp, root);
      r := Ok(ret);
    } else if flags.mag && n >= 1 && |s.xi| >= 1 {
      r := Err(UnboundLocal("c"));
    } else {
      var ret := Planar.Trace2D(g, s, n, length, flags, interp, root);
      r := Ok(ret);
    }
  }

  /** One seed, one step, a uniform 2-D field and `r_mag=True`: the call
      raises where the 3-D branch would have returned the magnitudes. */
  method PlanarMagnitudeRaises() returns (r: Result<seq<array2<real>>>)
    ensures r == Err(UnboundLocal("c"))
  {
    var g := Grid2([0.0, 1.0], [0.0, 1.0], [[1.0, 1.0], [1.0, 1.0]], [[0.0, 0.0], [0.0, 0.0]]);
    var s := Seeds([0.5], [0.5], None);
    r := Streamline(g, s, 1, 0.1, Flags(true, false, false, false), (axes, f, p) => 1.0, x => x);
  }

  /** Column 0 of the coordinate arrays holds the seeds: `xo[:,0] == xi`,
      `yo[:,0] == yi` and, on the 3-D path, `zo[:,0] == zi`. */
  lemma SeedColumn(g: Grid, s: Seeds, n: nat, length: real, flags: Flags, interp: Interpn, root: real -> real,
                   ret: seq<array2<real>>)
    requires ValidGrid(g) && ValidSeeds(s, Dimension(g))
    requires TracedList(TraceOf(g, s, length, interp, root), ret, Layout(Dimension(g), flags), n)
    ensures |ret| >= Rank(Dimension(g))
    ensures forall j :: 0 <= j < |s.xi| ==> ret[0][j, 0] == s.xi[j] && ret[1][j, 0] == s.yi[j]
    ensures Dimension(g) == ThreeD ==> forall j :: 0 <= j < |s.xi| ==> ret[2][j, 0] == s.zi.value[j]
  {
    var t := TraceOf(g, s, length, interp, root);
    var d := Dimension(g);
    LayoutOf(d, flags);
    forall k | 0 <= k < Rank(d)
      ensures Layout(d, flags)[k] == Coord(k) && Traced(t, ret[k], Coord(k), n)
    {
    }
    forall j | 0 <= j < |s.xi|
      ensures ret[0][j, 0] == s.xi[j] && ret[1][j, 0] == s.yi[j]
      ensures d == ThreeD ==> ret[2][j, 0] == s.zi.value[j]
    {
      assert ret[0][j, 0] == Cell(t, Coord(0), j, 0);
      assert ret[1][j, 0] == Cell(t, Coord(1), j, 0);
      if d == ThreeD {
        assert ret[2][j, 0] == Cell(t, Coord(2), j, 0);
      }
    }
  }
}
