/**
  The zone indexing used when origin-destination rows are written as square
  matrices: zones are numbered by their rank among the sorted distinct zone ids
  that occur as an origin or a destination, and the pair (o, d) is stored at the
  row-major cell rank(o) * n + rank(d) of an n-by-n matrix.
*/
module OmxIndex {
  import opened Wrappers

  predicate StrictlyIncreasing(xs: seq<int>) {
    forall i, j :: 0 <= i < j < |xs| ==> xs[i] < xs[j]
  }

  /** The position of an element of a sequence. */
  function Find(xs: seq<int>, y: int): (i: nat)
    requires y in xs
    ensures i < |xs| && xs[i] == y
  {
    if xs[0] == y then 0 else 1 + Find(xs[1..], y)
  }

  /** xs with z inserted at its place (nothing changes when z is already there). */
  function InsertSorted(xs: seq<int>, z: int): (r: seq<int>)
    requires StrictlyIncreasing(xs)
    ensures StrictlyIncreasing(r)
    ensures forall y :: y in r <==> y in xs || y == z
  {
    if xs == [] then [z]
    else if z < xs[0] then [z] + xs
    else if z == xs[0] then xs
    else
      var rest := InsertSorted(xs[1..], z);
      assert forall k :: 0 <= k < |rest| ==> xs[0] < rest[k] by {
        forall k | 0 <= k < |rest|
          ensures xs[0] < rest[k]
        {
          if rest[k] != z {
            var m := Find(xs[1..], rest[k]);
            assert xs[m + 1] == rest[k];
          }
        }
      }
      [xs[0]] + rest
  }

  /** The distinct values of ids in increasing order: sorted(set(ids)). */
  function SortedDistinct(ids: seq<int>): (r: seq<int>)
    ensures StrictlyIncreasing(r)
    ensures forall y :: y in r <==> y in ids
  {
    if ids == [] then [] else InsertSorted(SortedDistinct(ids[..|ids| - 1]), ids[|ids| - 1])
  }

  /** Two increasing sequences with the same elements are the same: the zone list is determined by its set. */
  lemma {:induction false} IncreasingUnique(xs: seq<int>, ys: seq<int>)
    requires StrictlyIncreasing(xs) && StrictlyIncreasing(ys)
    requires forall y :: y in xs <==> y in ys
    ensures xs == ys
  {
    if xs != [] {
      assert xs[0] in xs;
    }
    if ys != [] {
      assert ys[0] in ys;
    }
    if xs != [] && ys != [] {
      HeadIsLeast(xs, ys[0]);
      HeadIsLeast(ys, xs[0]);
      forall y
        ensures y in xs[1..] <==> y in ys[1..]
      {
        if y in xs[1..] {
          var i := Find(xs[1..], y);
          assert xs[0] < xs[i + 1];
          var j := Find(ys, y);
          assert j != 0;
          assert ys[1..][j - 1] == y;
        }
        if y in ys[1..] {
          var j := Find(ys[1..], y);
          assert ys[0] < ys[j + 1];
          var i := Find(xs, y);
          assert i != 0;
          assert xs[1..][i - 1] == y;
        }
      }
      IncreasingUnique(xs[1..], ys[1..]);
      assert xs == [xs[0]] + xs[1..] && ys == [ys[0]] + ys[1..];
    }
  }

  /** The first element of an increasing sequence is its least. */
  lemma HeadIsLeast(xs: seq<int>, y: int)
    requires StrictlyIncreasing(xs) && y in xs
    ensures xs[0] <= y
  {
    var k := Find(xs, y);
    if k > 0 {
      assert xs[0] < xs[k];
    }
  }

  /** The zone ids: the sorted distinct ids occurring as an origin or a destination. */
  function ZoneIds(orig: seq<int>, dest: seq<int>): (zs: seq<int>)
    ensures StrictlyIncreasing(zs)
    ensures forall z :: z in zs <==> z in orig || z in dest
  {
    SortedDistinct(orig + dest)
  }

  /** Each zone id's position in the zone list. */
  function ZoneMap(zs: seq<int>): (m: map<int, nat>)
    requires StrictlyIncreasing(zs)
    ensures m.Keys == set z | z in zs
    ensures forall i :: 0 <= i < |zs| ==> m[zs[i]] == i
  {
    map i | 0 <= i < |zs| :: zs[i] := i
  }

  /** The cell of the pair (o, d) in an n-by-n matrix laid out row by row. */
  function FlatIndex(m: map<int, nat>, n: nat, o: int, d: int): int
    requires o in m && d in m
  {
    m[o] * n + m[d]
  }

  /** Row-major cells: row i, column j of n columns is cell i * n + j, and back. */
  lemma RowMajor(i: nat, j: nat, n: nat)
    requires i < n && j < n
    ensures 0 <= i * n + j < n * n
    ensures (i * n + j) / n == i && (i * n + j) % n == j
  {
    MulMonotone(i, n - 1, n);
    assert (n - 1) * n == n * n - n;
    var q := (i * n + j) / n;
    var r := (i * n + j) % n;
    assert q * n + r == i * n + j && 0 <= r < n;
    assert (i + 1) * n == i * n + n;
    MulLessCancel(q, i + 1, n);
    assert (q + 1) * n == q * n + n;
    MulLessCancel(i, q + 1, n);
  }

  lemma MulMonotone(a: int, b: int, n: nat)
    requires a <= b
    ensures a * n <= b * n
  {
    assert b * n - a * n == (b - a) * n;
  }

  lemma MulLessCancel(a: int, b: int, n: nat)
    requires a * n < b * n
    ensures a < b
  {
    if a >= b {
      MulMonotone(b, a, n);
      assert false;
    }
  }

  /** The cell lies inside the matrix and gives back the pair's ranks. */
  lemma FlatIndexDecodes(zs: seq<int>, o: int, d: int)
    requires StrictlyIncreasing(zs) && o in zs && d in zs
    ensures 0 <= FlatIndex(ZoneMap(zs), |zs|, o, d) < |zs| * |zs|
    ensures FlatIndex(ZoneMap(zs), |zs|, o, d) / |zs| == ZoneMap(zs)[o]
    ensures FlatIndex(ZoneMap(zs), |zs|, o, d) % |zs| == ZoneMap(zs)[d]
  {
    var m := ZoneMap(zs);
    var i := Find(zs, o);
    var j := Find(zs, d);
    assert m[o] == i && m[d] == j;
    RowMajor(i, j, |zs|);
  }

  /** Distinct pairs get distinct cells. */
  lemma FlatIndexInjective(zs: seq<int>, o1: int, d1: int, o2: int, d2: int)
    requires StrictlyIncreasing(zs) && o1 in zs && d1 in zs && o2 in zs && d2 in zs
    requires FlatIndex(ZoneMap(zs), |zs|, o1, d1) == FlatIndex(ZoneMap(zs), |zs|, o2, d2)
    ensures o1 == o2 && d1 == d2
  {
    FlatIndexDecodes(zs, o1, d1);
    FlatIndexDecodes(zs, o2, d2);
    var i1, i2, j1, j2 := Find(zs, o1), Find(zs, o2), Find(zs, d1), Find(zs, d2);
    assert ZoneMap(zs)[o1] == i1 && ZoneMap(zs)[o2] == i2;
    assert ZoneMap(zs)[d1] == j1 && ZoneMap(zs)[d2] == j2;
  }

  /** The cell of each row, in row order. */
  function RowCells(orig: seq<int>, dest: seq<int>): (cells: seq<int>)
    requires |orig| == |dest|
    ensures |cells| == |orig|
  {
    var zs := ZoneIds(orig, dest);
    var m := ZoneMap(zs);
    seq(|orig|, r requires 0 <= r < |orig| => FlatIndex(m, |zs|, orig[r], dest[r]))
  }

  /** Every row's cell lies inside the matrix. */
  lemma RowCellsInMatrix(orig: seq<int>, dest: seq<int>)
    requires |orig| == |dest|
    ensures forall r :: 0 <= r < |orig| ==> 0 <= RowCells(orig, dest)[r] < |ZoneIds(orig, dest)| * |ZoneIds(orig, dest)|
  {
    var zs := ZoneIds(orig, dest);
    forall r | 0 <= r < |orig|
      ensures 0 <= RowCells(orig, dest)[r] < |zs| * |zs|
    {
      assert orig[r] in orig + dest && dest[r] in orig + dest;
      FlatIndexDecodes(zs, orig[r], dest[r]);
    }
  }

  /** Two rows share a cell exactly when they have the same origin and the same destination. */
  lemma RowCellsCollide(orig: seq<int>, dest: seq<int>, r: nat, q: nat)
    requires |orig| == |dest| && r < |orig| && q < |orig|
    ensures RowCells(orig, dest)[r] == RowCells(orig, dest)[q] <==> orig[r] == orig[q] && dest[r] == dest[q]
  {
    var zs := ZoneIds(orig, dest);
    assert orig[r] in orig + dest && dest[r] in orig + dest;
    assert orig[q] in orig + dest && dest[q] in orig + dest;
    if RowCells(orig, dest)[r] == RowCells(orig, dest)[q] {
      FlatIndexInjective(zs, orig[r], dest[r], orig[q], dest[q]);
    }
  }

  /** The value a cell holds after the rows are put in order: the last row addressing it wins; 0 if none does. */
  function CellValue(cells: seq<int>, values: seq<real>, c: int): real
    requires |cells| == |values|
  {
    if cells == [] then 0.0
    else if cells[|cells| - 1] == c then values[|values| - 1]
    else CellValue(cells[..|cells| - 1], values[..|values| - 1], c)
  }

  /** A cell no row addresses stays zero. */
  lemma {:induction false} UnaddressedCellIsZero(cells: seq<int>, values: seq<real>, c: int)
    requires |cells| == |values|
    requires c !in cells
    ensures CellValue(cells, values, c) == 0.0
  {
    if cells != [] {
      assert c !in cells[..|cells| - 1];
      UnaddressedCellIsZero(cells[..|cells| - 1], values[..|values| - 1], c);
    }
  }

  /** A cell addressed by exactly one row holds that row's value. */
  lemma {:induction false} SingleRowCell(cells: seq<int>, values: seq<real>, r: nat)
    requires |cells| == |values| && r < |cells|
    requires forall q :: 0 <= q < |cells| && q != r ==> cells[q] != cells[r]
    ensures CellValue(cells, values, cells[r]) == values[r]
  {
    if r < |cells| - 1 {
      SingleRowCell(cells[..|cells| - 1], values[..|values| - 1], r);
    }
  }

  /** A zero matrix of n*n cells with each row's value put at its cell, in row order. */
  method FillMatrix(n: nat, cells: seq<int>, values: seq<real>) returns (a: array<real>)
    requires |cells| == |values|
    requires forall r :: 0 <= r < |cells| ==> 0 <= cells[r] < n * n
    ensures fresh(a) && a.Length == n * n
    ensures forall c :: 0 <= c < n * n ==> a[c] == CellValue(cells, values, c)
  {
    a := new real[n * n](_ => 0.0);
    for r := 0 to |cells|
      invariant forall c :: 0 <= c < n * n ==> a[c] == CellValue(cells[..r], values[..r], c)
    {
      assert cells[..r + 1][..r] == cells[..r] && values[..r + 1][..r] == values[..r];
      a[cells[r]] := values[r];
    }
    assert cells[..|cells|] == cells && values[..|values|] == values;
  }

  /** mat is the n-by-n matrix the rows with these cells and values produce. */
  ghost predicate IsMatrix(mat: seq<real>, n: nat, cells: seq<int>, values: seq<real>)
    requires |cells| == |values|
  {
    |mat| == n * n && forall c :: 0 <= c < n * n ==> mat[c] == CellValue(cells, values, c)
  }

  /** The matrix the rows produce, read back from the filled array. */
  method Matrix(n: nat, cells: seq<int>, values: seq<real>) returns (mat: seq<real>)
    requires |cells| == |values|
    requires forall r :: 0 <= r < |cells| ==> 0 <= cells[r] < n * n
    ensures IsMatrix(mat, n, cells, values)
  {
    var a := FillMatrix(n, cells, values);
    mat := a[..];
  }

  /** Builds the named matrices in order; the first column the table lacks stops it. */
  method BuildMatrices(n: nat, cells: seq<int>, columns: map<string, seq<real>>, matrices: seq<(string, string)>)
    returns (r: Result<seq<(string, seq<real>)>, string>)
    requires forall c :: 0 <= c < |cells| ==> 0 <= cells[c] < n * n
    requires forall col :: col in columns ==> |columns[col]| == |cells|
    ensures r.Err? <==> exists k :: 0 <= k < |matrices| && matrices[k].1 !in columns
    ensures r.Ok? ==> |r.value| == |matrices| && forall k :: 0 <= k < |matrices| ==>
      r.value[k].0 == matrices[k].0 && IsMatrix(r.value[k].1, n, cells, columns[matrices[k].1])
  {
    var out: seq<(string, seq<real>)> := [];
    for k := 0 to |matrices|
      invariant |out| == k
      invariant forall q :: 0 <= q < k ==> matrices[q].1 in columns
      invariant forall q :: 0 <= q < k ==> out[q].0 == matrices[q].0 && IsMatrix(out[q].1, n, cells, columns[matrices[q].1])
    {
      var (name, col) := matrices[k];
      if col !in columns {
        assert matrices[k].1 !in columns;
        return Err(col);
      }
      var mat := Matrix(n, cells, columns[col]);
      out := out + [(name, mat)];
    }
    return Ok(out);
  }

  /**
    The zone list and one output matrix per (matrix name, column) pair, or the
    first column the table lacks.
  */
  method DfToOmx(orig: seq<int>, dest: seq<int>, columns: map<string, seq<real>>, matrices: seq<(string, string)>)
    returns (r: Result<(seq<int>, seq<(string, seq<real>)>), string>)
    requires |orig| == |dest|
    requires forall col :: col in columns ==> |columns[col]| == |orig|
    ensures r.Err? <==> exists k :: 0 <= k < |matrices| && matrices[k].1 !in columns
    ensures r.Ok? ==> r.value.0 == ZoneIds(orig, dest) && |r.value.1| == |matrices|
    ensures r.Ok? ==> forall k :: 0 <= k < |matrices| ==>
      r.value.1[k].0 == matrices[k].0 &&
      IsMatrix(r.value.1[k].1, |ZoneIds(orig, dest)|, RowCells(orig, dest), columns[matrices[k].1])
  {
    var zs := ZoneIds(orig, dest);
    var cells := RowCells(orig, dest);
    RowCellsInMatrix(orig, dest);
    var built := BuildMatrices(|zs|, cells, columns, matrices);
    if built.Err? {
      return Err(built.error);
    }
    return Ok((zs, built.value));
  }
}
