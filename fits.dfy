/** The FITS output file, seen only through the CFITSIO routines the IRF
    writer calls on it. The library itself is not modelled: the file records
    every call made on it, and which calls the library rejects with a
    non-zero status is fixed by the environment. */
module Fits {

  /** One column of a binary table as declared to fits_create_tbl: its name
      (TTYPE), unit (TUNIT) and the repeat count of its "<repeat>E" format
      (TFORM, single-precision floats). */
  datatype ColumnSpec = ColumnSpec(ttype: string, tunit: string, repeat: nat)

  datatype Call =
    /** fits_create_tbl(BINARY_TBL, nrows, ..., extname). */
    | CreateTable(extname: string, nrows: nat, columns: seq<ColumnSpec>)
    /** fits_write_tdim(colnum, |naxes|, naxes). */
    | WriteTdim(colnum: nat, naxes: seq<nat>)
    /** fits_write_col(TFLOAT, colnum, firstrow, firstelem, |values|, values). */
    | WriteCol(colnum: nat, firstrow: nat, firstelem: nat, values: seq<real>)

  class FitsFile {
    /** The calls made on this file so far, in order. */
    var calls: seq<Call>
    /** The positions in `calls` at which the library reports a non-zero
        status. */
    const failing: set<nat>

    /** Makes one library call; ok is false when the library reports an
        error status. The call is recorded either way. */
    method Issue(c: Call) returns (ok: bool)
      modifies this
      ensures calls == old(calls) + [c]
      ensures ok <==> |old(calls)| !in failing
    {
      ok := |calls| !in failing;
      calls := calls + [c];
    }
  }

  /** Writing a table column by column: column i + 1 gets table[i] from row 1,
      element 1. */
  function ColumnWrites(table: seq<seq<real>>): (cs: seq<Call>)
    ensures |cs| == |table|
  {
    seq(|table|, i requires 0 <= i < |table| => WriteCol(i + 1, 1, 1, table[i]))
  }

  /** Among n calls made from position start of the log on, the index of the
      first one the library rejects, or n when it rejects none. */
  function FirstFailure(start: nat, n: nat, failing: set<nat>): (r: nat)
    ensures r <= n
    ensures r < n ==> start + r in failing
    ensures forall p | start <= p < start + r :: p !in failing
    decreases n
  {
    if n == 0 || start in failing then 0
    else 1 + FirstFailure(start + 1, n - 1, failing)
  }

  /** The code's pattern for a sequence of library calls: make them in order,
      stop right after the first one that fails, and report success only
      when none failed. Starting from the log `before`, the planned calls
      `plan` leave the log `after` and the result ok. */
  ghost predicate RanUntilFailure(before: seq<Call>, after: seq<Call>, plan: seq<Call>, failing: set<nat>, ok: bool)
  {
    var stop := FirstFailure(|before|, |plan|, failing);
    && ok == (stop == |plan|)
    && after == before + plan[..if ok then stop else stop + 1]
  }

  /** FirstFailure is determined by its contract. */
  lemma FirstFailureUnique(start: nat, n: nat, failing: set<nat>, r: nat)
    requires r <= n
    requires r < n ==> start + r in failing
    requires forall p | start <= p < start + r :: p !in failing
    ensures r == FirstFailure(start, n, failing)
  {
  }

  /** Making no call leaves the log alone and succeeds. */
  lemma RanNothing(log: seq<Call>, failing: set<nat>)
    ensures RanUntilFailure(log, log, [], failing, true)
  {
  }

  /** After a successful run of p, one more call c extends the run to p + [c],
      which succeeds exactly when c does. */
  lemma RanOneMore(before: seq<Call>, mid: seq<Call>, p: seq<Call>, c: Call, failing: set<nat>, ok: bool)
    requires RanUntilFailure(before, mid, p, failing, true)
    requires ok <==> |mid| !in failing
    ensures RanUntilFailure(before, mid + [c], p + [c], failing, ok)
  {
    var n := |p|;
    assert FirstFailure(|before|, n, failing) == n;
    assert |mid| == |before| + n;
    if ok {
      FirstFailureUnique(|before|, n + 1, failing, n + 1);
      assert (p + [c])[..n + 1] == p + [c];
    } else {
      FirstFailureUnique(|before|, n + 1, failing, n);
      assert (p + [c])[..n + 1] == p + [c];
    }
  }

  /** A failed run of p is also a failed run of any plan that continues p. */
  lemma RanFailureStops(before: seq<Call>, after: seq<Call>, p: seq<Call>, q: seq<Call>, failing: set<nat>)
    requires RanUntilFailure(before, after, p, failing, false)
    ensures RanUntilFailure(before, after, p + q, failing, false)
  {
    var stop := FirstFailure(|before|, |p|, failing);
    FirstFailureUnique(|before|, |p + q|, failing, stop);
    assert (p + q)[..stop + 1] == p[..stop + 1];
  }

  /** Runs compose: a successful run of p followed by a run of q is a run of
      p + q with q's outcome. */
  lemma {:induction false} RanConcat(before: seq<Call>, mid: seq<Call>, after: seq<Call>, p: seq<Call>, q: seq<Call>, failing: set<nat>, ok: bool)
    requires RanUntilFailure(before, mid, p, failing, true)
    requires RanUntilFailure(mid, after, q, failing, ok)
    ensures RanUntilFailure(before, after, p + q, failing, ok)
  {
    var n := |p|;
    assert FirstFailure(|before|, n, failing) == n;
    assert mid == before + p;
    var s := FirstFailure(|mid|, |q|, failing);
    FirstFailureUnique(|before|, n + |q|, failing, n + s);
    if ok {
      assert (p + q)[..n + s] == p + q;
    } else {
      assert (p + q)[..n + s + 1] == p + q[..s + 1];
    }
  }
  /** The meaning of a run: it succeeds exactly when no planned call fails;
      a failed run made the planned calls up to and including the first
      failing one, which is the last call in the log, and none after it. */
  lemma RanUntilFailureMeans(before: seq<Call>, after: seq<Call>, plan: seq<Call>, failing: set<nat>, ok: bool)
    requires RanUntilFailure(before, after, plan, failing, ok)
    ensures ok <==> forall p | |before| <= p < |before| + |plan| :: p !in failing
    ensures ok ==> after == before + plan
    ensures !ok ==> |before| < |after| <= |before| + |plan| && |after| - 1 in failing
    ensures !ok ==> after == before + plan[..|after| - |before|]
    ensures forall p | |before| <= p < |after| - 1 :: p !in failing
  {
    var stop := FirstFailure(|before|, |plan|, failing);
    if !ok {
      assert |before| + stop in failing;
    }
  }

  /** The product of a TDIM's axis lengths. */
  function Product(naxes: seq<nat>): nat
  {
    if naxes == [] then 1 else Product(naxes[..|naxes| - 1]) * naxes[|naxes| - 1]
  }

  lemma ProductOfTwo(a: nat, b: nat)
    ensures Product([a, b]) == a * b
  {
    assert [a, b][..1] == [a];
    assert [a][..0] == [];
    assert Product([a]) == a;
  }

  lemma ProductOfThree(a: nat, b: nat, c: nat)
    ensures Product([a, b, c]) == a * b * c
  {
    assert [a, b, c][..2] == [a, b];
    ProductOfTwo(a, b);
  }

  /** A table-writing plan agrees with itself: it starts by creating the
      table, creates nothing else, gives TDIMs only to declared columns and
      with as many entries as the column's repeat count, and then writes
      every declared column once, in order, from row 1, element 1, with as
      many values as the column's repeat count. */
  predicate AgreesWithDeclaration(plan: seq<Call>)
  {
    && |plan| >= 1
    && plan[0].CreateTable?
    && var cols := plan[0].columns;
    && |plan| >= 1 + |cols|
    && (forall n | 1 <= n < |plan| - |cols| ::
          plan[n].WriteTdim? && 1 <= plan[n].colnum <= |cols|
          && Product(plan[n].naxes) == cols[plan[n].colnum - 1].repeat)
    && (forall c | 0 <= c < |cols| ::
          && plan[|plan| - |cols| + c].WriteCol?
          && plan[|plan| - |cols| + c] == WriteCol(c + 1, 1, 1, plan[|plan| - |cols| + c].values)
          && |plan[|plan| - |cols| + c].values| == cols[c].repeat)
  }
}
