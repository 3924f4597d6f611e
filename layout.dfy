/** Placement of histogram bins inside one FITS column.
    A GADF multi-dimensional column is stored with its first axis (x, the
    energy axis) varying fastest, which is the order declared by TDIM and the
    order in which the table builders push bins. Indices here are 0-based:
    bin (i, j, k) of the code's 1-based GetBinContent(i+1, j+1, k+1). */
module Layout {

  /** Offset of bin (i, j) in a column holding an nx-by-ny array. */
  function Flat2(i: int, j: int, nx: int): int
  {
    i + nx * j
  }

  /** Offset of bin (i, j, k) in a column holding an nx-by-ny-by-nz array. */
  function Flat3(i: int, j: int, k: int, nx: int, ny: int): int
  {
    Flat2(i, Flat2(j, k, ny), nx)
  }

  lemma MulMono(a: int, b: int, c: int)
    requires 0 <= a && b <= c
    ensures a * b <= a * c
  {
    assert a * c - a * b == a * (c - b);
  }

  /** A quotient by a positive divisor stays within the bound of the product. */
  lemma DivBound(n: int, a: int, b: int)
    requires 0 < a && 0 <= n < a * b
    ensures 0 <= n / a < b
  {
    assert n == a * (n / a) + n % a;
    if n / a >= b {
      MulMono(a, b, n / a);
    }
    if n / a < 0 {
      MulMono(a, n / a, -1);
    }
  }

  lemma Flat2Bound(i: int, j: int, nx: int, ny: int)
    requires 0 <= i < nx && 0 <= j < ny
    ensures 0 <= Flat2(i, j, nx) < nx * ny
  {
    MulMono(nx, 0, j);
    MulMono(nx, j + 1, ny);
  }

  lemma Flat2Injective(i: int, j: int, i2: int, j2: int, nx: int)
    requires 0 <= i < nx && 0 <= i2 < nx
    requires Flat2(i, j, nx) == Flat2(i2, j2, nx)
    ensures i == i2 && j == j2
  {
    if j < j2 {
      assert nx * j2 - nx * j == nx * (j2 - j);
      MulMono(nx, 1, j2 - j);
    } else if j2 < j {
      assert nx * j - nx * j2 == nx * (j - j2);
      MulMono(nx, 1, j - j2);
    }
  }

  /** The bin stored at offset n of an nx-by-ny column. */
  function Unflat2(n: int, nx: int, ny: int): (ij: (int, int))
    requires 0 < nx && 0 <= n < nx * ny
    ensures 0 <= ij.0 < nx && 0 <= ij.1 < ny
    ensures Flat2(ij.0, ij.1, nx) == n
  {
    DivBound(n, nx, ny);
    (n % nx, n / nx)
  }

  /** The bin stored at offset n of an nx-by-ny-by-nz column. */
  function Unflat3(n: int, nx: int, ny: int, nz: int): (ijk: (int, int, int))
    requires 0 < nx && 0 < ny && 0 <= n < nx * ny * nz
    ensures 0 <= ijk.0 < nx && 0 <= ijk.1 < ny && 0 <= ijk.2 < nz
    ensures Flat3(ijk.0, ijk.1, ijk.2, nx, ny) == n
  {
    assert nx * ny * nz == nx * (ny * nz);
    DivBound(n, nx, ny * nz);
    DivBound(n / nx, ny, nz);
    (n % nx, (n / nx) % ny, (n / nx) / ny)
  }

  /** Every bin of an nx-by-ny array has its own offset inside the column,
      and decoding that offset gives the bin back. */
  lemma Flat2RoundTrip(i: int, j: int, nx: int, ny: int)
    requires 0 <= i < nx && 0 <= j < ny
    ensures 0 <= Flat2(i, j, nx) < nx * ny
    ensures Unflat2(Flat2(i, j, nx), nx, ny) == (i, j)
  {
    Flat2Bound(i, j, nx, ny);
    var ij := Unflat2(Flat2(i, j, nx), nx, ny);
    Flat2Injective(ij.0, ij.1, i, j, nx);
  }

  /** The same for an nx-by-ny-by-nz array: the offset
      i + nx * (j + ny * k) is inside the column of nx * ny * nz entries and
      decodes to (i, j, k). */
  lemma Flat3RoundTrip(i: int, j: int, k: int, nx: int, ny: int, nz: int)
    requires 0 <= i < nx && 0 <= j < ny && 0 <= k < nz
    ensures Flat3(i, j, k, nx, ny) == i + nx * (j + ny * k)
    ensures 0 <= Flat3(i, j, k, nx, ny) < nx * ny * nz
    ensures Unflat3(Flat3(i, j, k, nx, ny), nx, ny, nz) == (i, j, k)
  {
    Flat2Bound(j, k, ny, nz);
    Flat2Bound(i, Flat2(j, k, ny), nx, ny * nz);
    assert nx * ny * nz == nx * (ny * nz);
    var ijk := Unflat3(Flat3(i, j, k, nx, ny), nx, ny, nz);
    Flat2Injective(ijk.0, Flat2(ijk.1, ijk.2, ny), i, Flat2(j, k, ny), nx);
    Flat2Injective(ijk.1, ijk.2, j, k, ny);
  }
  /** The column of a 2D array given as its rows: the rows laid end to end,
      so that the first index varies fastest. */
  function Flatten<T>(rows: seq<seq<T>>): seq<T>
  {
    if rows == [] then [] else Flatten(rows[..|rows| - 1]) + rows[|rows| - 1]
  }

  /** Rows of nx entries each flatten to nx * |rows| entries. */
  lemma {:induction false} FlattenLength<T>(rows: seq<seq<T>>, nx: nat)
    requires forall r | 0 <= r < |rows| :: |rows[r]| == nx
    ensures |Flatten(rows)| == nx * |rows|
  {
    if rows != [] {
      var last := |rows| - 1;
      FlattenLength(rows[..last], nx);
      assert nx * last + nx == nx * |rows|;
    }
  }

  /** Entry i of row j lands at offset Flat2(i, j, nx) of the flattened rows. */
  lemma {:induction false} FlattenAt<T>(rows: seq<seq<T>>, nx: nat, i: int, j: int)
    requires forall r | 0 <= r < |rows| :: |rows[r]| == nx
    requires 0 <= i < nx && 0 <= j < |rows|
    ensures |Flatten(rows)| == nx * |rows|
    ensures 0 <= Flat2(i, j, nx) < |Flatten(rows)|
    ensures Flatten(rows)[Flat2(i, j, nx)] == rows[j][i]
  {
    FlattenLength(rows, nx);
    Flat2Bound(i, j, nx, |rows|);
    var last := |rows| - 1;
    FlattenLength(rows[..last], nx);
    if j < last {
      FlattenAt(rows[..last], nx, i, j);
    } else {
      assert Flat2(i, j, nx) == nx * last + i;
    }
  }

  /** Conversely, every offset n of the flattened rows holds the entry of the
      bin that n decodes to. */
  lemma FlattenEntry<T>(rows: seq<seq<T>>, nx: nat, n: int)
    requires forall r | 0 <= r < |rows| :: |rows[r]| == nx
    requires 0 < nx && 0 <= n < nx * |rows|
    ensures |Flatten(rows)| == nx * |rows|
    ensures var ij := Unflat2(n, nx, |rows|); Flatten(rows)[n] == rows[ij.1][ij.0]
  {
    var ij := Unflat2(n, nx, |rows|);
    FlattenAt(rows, nx, ij.0, ij.1);
  }
}
