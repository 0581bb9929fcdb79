# Streamline in Dafny

A model of `streamline` from StreamLine.py. The function traces fixed-length streamlines through a
vector field sampled on a rectilinear grid, in two or three dimensions, and proves what the filled
arrays hold.

For every seed, the function fills row `j` of zero-initialised arrays of shape `(seeds, n + 1)`:
- column 0 of `xo`, `yo` (and `zo`) holds the seed;
- column `i + 1` is column `i` moved by `length` along the field interpolated at point `i`,
  normalised by the field's magnitude;
- the optional arrays `mag`, `i_cap`, `j_cap`, `k_cap` record, at column `i`, the magnitude and the
  components sampled at point `i`;
- one extra sample at point `n` fills their last column.

The function returns `[xo, yo, (zo)]` followed by the requested scalar arrays in the order
`mag, i_cap, j_cap, k_cap`. A grid whose `z` axis has more than one layer takes the 3-D branch.
Anything else takes the 2-D branch, and a single-layer volume is first cut to its first layer.

The model has seven modules:
- `Vectors`: Euclidean arithmetic on points written as `seq<real>`. `Advance` is one step. The square
  root is a function `root` that the caller supplies; facts that need it to be a square root say so
  with `IsRoot`.
- `Field`: the grid, the seeds, the flags and the path selection (`Dimension`, `Active`), with the
  pure specification of every output cell:
  - `Position` is the reference streamline: the seed, then repeated `Advance`;
  - `Cell(t, o, j, i)` is the value at row `j`, column `i` of the array of kind `o`;
  - `Layout` gives the kinds of the returned arrays, in order.
- `OutputArrays`: what it means for an `array2<real>` to hold the cells of a kind (`Traced`,
  `TracedList`), plus the single conditional writes and appends of the source.
- `Spatial` and `Planar`: the two branches as imperative methods. They allocate arrays, fill them
  with the nested `for j` / `for i` loops and build the list with successive appends. Each is proved
  to leave every cell equal to `Cell`.
- `Properties`: lemmas about the specification. The cells agree with `Position`; consecutive points
  are `length` apart along the field; rows are independent; the magnitude formulas; the single-layer
  slice; the layout of the returned list.
- `StreamLine`: the whole function, dispatching between the branches and modelling the 2-D magnitude
  failure of line 117.

Scipy's `interpn` is the parameter `interp(axes, samples, point)`. `**(1/2)` is the parameter `root`.

The docstring promises the magnitude of the vectors whenever `r_mag` is set (StreamLine.py:34, 40),
and the trailing sample of the 2-D path computes it as `(a**2+b**2)**(1/2)` (line 127). Inside the 2-D
step loop, however, line 117 reads `c`, which the 2-D path never assigns, so the call raises there.
The model follows the code: see "## Findings".

## Model

| member | source | states |
|---|---|---|
| Field.Active | StreamLine.py:97-100 | the lattice the active path interpolates has one axis and one sampled component per dimension of that path |
| Field.SeedPoints | StreamLine.py:60-62 | there is one seed point per entry of `xi`, with one coordinate per dimension of the active path |
| Field.Layout | StreamLine.py:89-93 | every kind in the returned list is one that the dimension and the flags request |
| Field.StepRule3 | StreamLine.py:67-78 | with `a, b, c` interpolated at point `i`, the scalar cells at column `i` are `a, b, c` and their three-component norm, and each coordinate of point `i + 1` is the coordinate of point `i` plus component times `length` over that norm |
| Field.StepRule2 | StreamLine.py:114-122 | the same for the two components of the 2-D path, with the two-component norm |
| OutputArrays.RecordIf | StreamLine.py:71-74 | a requested scalar array gets the sampled value at `[j, i]` and no other cell changes |
| OutputArrays.Zeros | StreamLine.py:52-58 | a fresh `rows` x `cols` array of zeros |
| OutputArrays.AppendIf | StreamLine.py:90-93 | the list is extended by the array exactly when its flag is set |
| Spatial.Allocate3D | StreamLine.py:52-58 | `xo`, `yo`, `zo` and exactly the requested scalar arrays exist, are fresh and distinct, have one row per seed and `n + 1` columns, and hold only zeros |
| Spatial.SeedColumns3D | StreamLine.py:60-62 | column 0 of `xo`, `yo`, `zo` holds the seed coordinates, and every other column keeps its value |
| Spatial.Step3D | StreamLine.py:66-78 | one inner pass: the scalar cells at `[j, i]` and the coordinate cells at `[j, i + 1]` become their specified values, and nothing else changes |
| Spatial.FinalSample3D | StreamLine.py:80-87 | the trailing sample fills the scalar cells at `[j, n]`, and nothing else changes |
| Spatial.TraceSeed3D | StreamLine.py:65-87 | row `j` of every array becomes its specified cells, for all `n + 1` columns; other rows are kept |
| Spatial.TraceSeeds3D | StreamLine.py:64-87 | every row of every array holds its specified cells |
| Spatial.Collect3D | StreamLine.py:89-93 | the list is `[xo, yo, zo]` followed by each requested scalar array, in flag order |
| Spatial.Collected3D | StreamLine.py:89-95 | the collected arrays are distinct and the `k`-th holds the cells of the `k`-th kind of the layout |
| Spatial.Trace3D | StreamLine.py:50-95 | the 3-D branch returns distinct arrays, one per requested kind in the documented order, each with one row per seed, `n + 1` columns and every cell as `Cell` specifies |
| Planar.Allocate2D | StreamLine.py:102-106 | `xo`, `yo` and exactly the requested scalar arrays exist, are fresh and distinct, with one row per seed and `n + 1` columns, and hold only zeros |
| Planar.SeedColumns2D | StreamLine.py:108-110 | column 0 of `xo`, `yo` holds the seed coordinates, and every other column keeps its value |
| Planar.Step2D | StreamLine.py:113-122 | one inner pass of the 2-D loop, with the magnitude taken over the two components; nothing else changes |
| Planar.FinalSample2D | StreamLine.py:124-129 | the trailing sample fills the scalar cells at `[j, n]`, with the two-component magnitude |
| Planar.TraceSeed2D | StreamLine.py:112-129 | row `j` of every array becomes its specified cells; other rows are kept |
| Planar.TraceSeeds2D | StreamLine.py:111-129 | every row of every array holds its specified cells |
| Planar.Collect2D | StreamLine.py:131-134 | the list is `[xo, yo]` followed by each requested scalar array, in flag order |
| Planar.Collected2D | StreamLine.py:131-136 | the collected arrays are distinct and the `k`-th holds the cells of the `k`-th kind of the layout |
| Planar.Trace2D | StreamLine.py:97-136 | the 2-D branch, with a single-layer volume cut to its first layer, returns distinct arrays of the requested kinds in order, every cell as `Cell` specifies |
| Vectors.Advance | StreamLine.py:76-78 | one step keeps the number of coordinates of the point (its direction and length are the two rows below) |
| Vectors.StepIsScaled | StreamLine.py:76-78 | the step from a point is the sampled vector times `length / Norm`: it points along the field |
| Vectors.StepLength | StreamLine.py:76-78 | when the sampled vector has a positive norm and `root` is a square root at the values used, the step has Euclidean length `length` |
| Vectors.NormPair | StreamLine.py:127 | the norm of `(a, b)` is `root(a**2 + b**2)` |
| Vectors.NormTriple | StreamLine.py:71 | the norm of `(a, b, c)` is `root(a**2 + b**2 + c**2)` |
| Properties.SeedAndMagnitudeCells | StreamLine.py:60-87 | `Cell`, the value of every output cell: column 0 of each coordinate array is the seed, and the magnitude cell is never negative where `root` is a square root |
| Properties.PointStep | StreamLine.py:76-78 | point `i + 1` of a row is one `Advance` from point `i` along the field sampled there |
| Properties.CellIsPosition | StreamLine.py:64-78 | the coordinate cells of row `j` are exactly the reference streamline `Position` from seed `j` |
| Properties.StepAlongField | StreamLine.py:76-78 | where the magnitude cell is non-zero, the step from point `i` to point `i + 1` is the sampled field scaled by `length` over the magnitude |
| Properties.StepIsForward | StreamLine.py:76-78 | with a non-negative `length`, the step is a non-negative multiple of the sampled field: the line moves with the field, not against it |
| Properties.StepIsLength | StreamLine.py:76-78 | consecutive points are exactly `length` apart where the sampled field has a positive magnitude |
| Properties.UniformField | StreamLine.py:76-78 | in a field that samples to the same vector everywhere, point `i` is the seed plus `i` equal strides |
| Properties.UnitFieldAlongX | StreamLine.py:121-122 | in the field `u = 1`, `v = 0`, point `i` is the seed moved `i * length` along `x` |
| Properties.UnitFieldAlongX3 | StreamLine.py:76-78 | in the field `u = 1`, `v = w = 0`, point `i` is the seed moved `i * length` along `x`, with `y` and `z` unchanged |
| Properties.PositionOfSeed | StreamLine.py:64-78 | the streamline from a seed depends only on the field, the interpolation, the root and `length`, not on the other seeds |
| Properties.SameSeedSameCells | StreamLine.py:64-87 | rows are independent: any row started from the same seed over the same field holds the same cells, so tracing seeds together equals tracing each alone |
| Properties.PlanarMagnitude | StreamLine.py:127 | on the 2-D path the magnitude cell is `root(a**2 + b**2)` of the component cells |
| Properties.SpatialMagnitude | StreamLine.py:71 | on the 3-D path the magnitude cell is `root(a**2 + b**2 + c**2)` of the component cells |
| Properties.SingleLayerIsPlanar | StreamLine.py:99-100 | a volume with one `z` layer takes the 2-D path and is traced exactly as the planes `Field.Slice` cuts from its first layer (`u[:,:,0]`, `v[:,:,0]`), whatever `w`, `z` and `zi` are |
| Properties.ZoIffLayered | StreamLine.py:50-54 | `zo` is in the returned list exactly when `z` is given with at least two layers (through `Field.Dimension`) |
| Properties.LayoutHoldsRequested | StreamLine.py:89-93 | an array of kind `o` is returned if and only if the flags request it (`k_cap` only in 3-D) |
| Properties.LayoutOrdered | StreamLine.py:89-93 | the returned kinds are in strictly increasing order `xo, yo, zo, mag, i_cap, j_cap, k_cap` |
| StreamLine.Streamline | StreamLine.py:19-136 | the call fails with an unbound `c` exactly on the 2-D path with `r_mag` set, at least one seed and `n >= 1`; otherwise it returns distinct arrays, one per requested kind in order, each holding its specified cells |
| StreamLine.SeedColumn | StreamLine.py:60-62 | in any such result, column 0 of `xo`, `yo` (and `zo`) is `xi`, `yi` (and `zi`) |
| StreamLine.PlanarMagnitudeRaises | StreamLine.py:117 | a 2-D call with one seed, one step and `r_mag=True` fails with an unbound `c` |

## Left out

- `interpn` internals are not modelled: multilinear interpolation and the fill value for points outside the grid. The model takes interpolation as the caller-supplied function `interp`, which returns a real for every point, so the out-of-bounds NaN is not represented.
- Floating-point rounding is not modelled. Coordinates are `real`, and `**(1/2)` is the caller-supplied `root`. Lemmas that need a square root require `IsRoot` at the values they use.
- Vectors.Quot: a zero magnitude gives a zero step. IEEE arithmetic gives NaN or an infinity instead. The step-length and direction lemmas are stated only for a positive or non-zero magnitude.
- Properties.StepIsLength: holds only where `root` is a square root at the sampled squared norm and at `length * length`, and only for `length >= 0`.
- The numpy meshgrid layout (`x[:,0,0]`, `y[0,:,0]`, `z[0,0,:]`, and `x[:,0]`, `y[0,:]` in 2-D) is not modelled. The grid carries its axis coordinate sequences directly.
- The imports and `del zi` are not modelled: they have no observable effect.
- Field.ValidGrid: a `z` with zero layers is excluded. In the source it takes the 2-D branch with unsliced volumes. With no seeds the loops never run and `[xo, yo]` (plus any requested empty scalar arrays) is returned; with at least one seed `interpn` fails on the dimension mismatch.
- Field.ValidSeeds: the model requires `yi` (and `zi` in 3-D) to have exactly one entry per entry of `xi`. The source sizes `yo` and `zo` from their own seed vectors (lines 53-54, 103) but loops only over `xi` (lines 64, 111). A `yi` or `zi` shorter than `xi` raises `IndexError` in the loop. A longer one is returned as an array with extra rows that hold the seed in column 0 and zeros elsewhere. Seeds are one-dimensional sequences, not arbitrary arrays read through `shape[-1]`.
- Field.Grid: on the 3-D path `w=None` is excluded, since `Grid3` always carries `w`. The source passes `None` to `interpn` at line 69 (line 82 when `n = 0`), which fails as soon as there is one seed; with no seeds the call returns normally.
- Field.ValidSeeds: on the 3-D path `zi=None` is excluded. The source raises `AttributeError` at line 54 when it reads `zi.shape`.
- StreamLine.Streamline: `n` is a natural number. A negative `n` makes numpy fail during allocation or seeding.
- StreamLine.Streamline: on failure, the model returns the error without allocating. The source allocates and seeds `xo`, `yo` first, but the raised exception discards them.
- StreamLine.Streamline: does not state that the returned arrays are freshly allocated (the branch allocators do).

## Findings

| source | as written | input that shows it | evidently intended | confidence | as-written member | corrected member |
|---|---|---|---|---|---|---|
| StreamLine.py:117 | the 2-D step loop records the magnitude over `a`, `b` and `c`, but `c` is assigned only in the 3-D branch, so with `r_mag=True` the first inner pass raises `UnboundLocalError` | a 2-D grid, one seed, `n = 1`, `r_mag=True` | the two-component magnitude `(a**2 + b**2) ** (1/2)`, as the trailing sample at line 127 computes it | high; not executed | StreamLine.PlanarMagnitudeRaises | Planar.Trace2D |
