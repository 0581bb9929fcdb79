/** The output arrays of `streamline` and what it means for them to hold the
    cells `Field.Cell` specifies. */
module OutputArrays {
  import opened Field

  /** The first `rows` rows of `a` hold the cells of kind `o`. */
  ghost predicate RowsDone(t: Trace, a: array2<real>, o: Output, rows: nat)
    requires WellFormed(t) && Fits(|t.lattice.fields|, o)
    reads a
  {
    a.Length0 == |t.seeds| && rows <= a.Length0 &&
    forall r, c {:trigger a[r, c]} :: 0 <= r < rows && 0 <= c < a.Length1 ==> a[r, c] == Cell(t, o, r, c)
  }

  /** The first `upto` cells of row `j` of `a` hold the cells of kind `o`. */
  ghost predicate RowPrefix(t: Trace, a: array2<real>, o: Output, j: nat, upto: nat)
    requires WellFormed(t) && Fits(|t.lattice.fields|, o)
    reads a
  {
    a.Length0 == |t.seeds| && j < a.Length0 && upto <= a.Length1 &&
    forall c {:trigger a[j, c]} :: 0 <= c < upto ==> a[j, c] == Cell(t, o, j, c)
  }

  /** `a` has one row per seed and `n + 1` columns, each cell as `Cell` says. */
  ghost predicate Traced(t: Trace, a: array2<real>, o: Output, n: nat)
    requires WellFormed(t) && Fits(|t.lattice.fields|, o)
    reads a
  {
    a.Length1 == n + 1 && RowsDone(t, a, o, |t.seeds|)
  }

  /** Rows other than `j` of `a`, when it exists, are as they were. */
  twostate predicate OtherRowsKept(a: array2?<real>, j: nat)
    reads a
  {
    a != null ==> forall r, c :: 0 <= r < a.Length0 && r != j && 0 <= c < a.Length1 ==> a[r, c] == old(a[r, c])
  }

  /** Of `a`, when it exists, at most cell `[j, c]` has changed. */
  twostate predicate OnlyCellChanged(a: array2?<real>, j: nat, c: nat)
    reads a
  {
    a != null ==> forall r, k :: 0 <= r < a.Length0 && 0 <= k < a.Length1 && (r != j || k != c) ==>
      a[r, k] == old(a[r, k])
  }

  /** `if wanted: a[j, c] = x`, where `a` exists exactly when it is wanted. */
  method RecordIf(wanted: bool, a: array2?<real>, j: nat, c: nat, x: real)
    requires wanted == (a != null)
    requires a != null ==> j < a.Length0 && c < a.Length1
    modifies a
    ensures a != null ==> a[j, c] == x
    ensures OnlyCellChanged(a, j, c)
  {
    if wanted {
      a[j, c] := x;
    }
  }

  /** `a`, when it exists, has `rows` rows and `cols` columns. */
  predicate Shaped(a: array2?<real>, rows: nat, cols: nat)
  {
    a != null ==> a.Length0 == rows && a.Length1 == cols
  }

  /** `np.zeros([rows, cols])`. */
  method Zeros(rows: nat, cols: nat) returns (a: array2<real>)
    ensures fresh(a) && a.Length0 == rows && a.Length1 == cols
    ensures forall r, c :: 0 <= r < rows && 0 <= c < cols ==> a[r, c] == 0.0
  {
    a := new real[rows, cols]((_, _) => 0.0);
  }

  /** Every cell of `a`, when it exists, is zero. */
  predicate AllZero(a: array2?<real>)
    reads a
  {
    a != null ==> forall r, c :: 0 <= r < a.Length0 && 0 <= c < a.Length1 ==> a[r, c] == 0.0
  }

  /** Every column of `a` but column 0 is as it was. */
  twostate predicate OtherColumnsKept(a: array2<real>)
    reads a
  {
    forall r, c :: 0 <= r < a.Length0 && 1 <= c < a.Length1 ==> a[r, c] == old(a[r, c])
  }

  /** The output arrays are distinct. */
  predicate Distinct(outs: seq<array2<real>>)
  {
    forall k, k' :: 0 <= k < k' < |outs| ==> outs[k] != outs[k']
  }

  /** `[a]` when `wanted`, else nothing. */
  function OptArray(wanted: bool, a: array2?<real>): (r: seq<array2<real>>)
    requires wanted ==> a != null
    ensures |r| <= 1
  {
    if wanted then [a] else []
  }

  /** `if wanted: ret.append(a)`. */
  method AppendIf(ret: seq<array2<real>>, wanted: bool, a: array2?<real>) returns (ret': seq<array2<real>>)
    requires wanted ==> a != null
    ensures ret' == ret + OptArray(wanted, a)
  {
    ret' := ret;
    if wanted {
      ret' := ret + [a];
    }
  }

  /** `ret[k]` holds the cells of kind `kinds[k]`, for every `k`. */
  ghost predicate TracedList(t: Trace, ret: seq<array2<real>>, kinds: seq<Output>, n: nat)
    requires WellFormed(t)
    reads ret
  {
    |ret| == |kinds| &&
    forall k :: 0 <= k < |ret| ==> Fits(|t.lattice.fields|, kinds[k]) && Traced(t, ret[k], kinds[k], n)
  }

  lemma TracedListAppend(t: Trace, ret: seq<array2<real>>, kinds: seq<Output>, n: nat,
                         wanted: bool, a: array2?<real>, o: Output)
    requires WellFormed(t) && TracedList(t, ret, kinds, n)
    requires wanted ==> a != null && Fits(|t.lattice.fields|, o) && Traced(t, a, o, n)
    ensures TracedList(t, ret + OptArray(wanted, a), kinds + Opt(wanted, o), n)
  {
    if !wanted {
      assert ret + OptArray(wanted, a) == ret;
      assert kinds + Opt(wanted, o) == kinds;
    }
  }

  lemma DistinctAppend(ret: seq<array2<real>>, earlier: set<array2?<real>>, wanted: bool, a: array2?<real>)
    requires Distinct(ret) && forall b :: b in ret ==> b in earlier
    requires wanted ==> a != null && a !in earlier
    ensures Distinct(ret + OptArray(wanted, a))
    ensures forall b :: b in ret + OptArray(wanted, a) ==> b in earlier + {a}
  {
    if !wanted {
      assert ret + OptArray(wanted, a) == ret;
    }
  }
}
