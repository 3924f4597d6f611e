/** VDL3IRFs's table writers: each creates a GADF binary table in the FITS
    file, declares the dimensions of its multi-dimensional columns, builds
    the table's columns from a histogram and writes them. Every library
    call that reports an error ends the writer, which then returns false. */
module Writers {
  import opened Histograms
  import opened Fits
  import opened Pdf
  import opened Tables

  /** The calls write_edisp makes on a valid 3D histogram whose rows are
      already normalised. */
  ghost function EdispPlan(h: Histogram, pow10: real -> real): seq<Call>
    reads h.bins
    requires h.Valid()
  {
    var nx, ny, nz := h.NbinsX(), h.NbinsY(), h.NbinsZ();
    [ CreateTable("ENERGY DISPERSION", 0, EdispSchema(nx, ny, nz)),
      WriteTdim(7, [nx, ny, nz]) ]
    + ColumnWrites(EdispTable(h, pow10))
  }

  /** The columns that get a TDIM {nx, ny} in write_psf_gauss. */
  const PsfTdimColumns: seq<nat> := [5, 6, 7, 8, 9, 10]

  function PsfTdims(nx: nat, ny: nat): (cs: seq<Call>)
    ensures |cs| == |PsfTdimColumns|
  {
    seq(|PsfTdimColumns|, n requires 0 <= n < |PsfTdimColumns| => WriteTdim(PsfTdimColumns[n], [nx, ny]))
  }

  /** The calls write_psf_gauss makes on a valid 2D histogram. */
  ghost function PsfPlan(h: Histogram, pow10: real -> real): seq<Call>
    reads h.bins
    requires h.Valid()
  {
    var nx, ny := h.NbinsX(), h.NbinsY();
    [ CreateTable("POINT SPREAD FUNCTION", 0, PsfSchema(nx, ny)) ]
    + PsfTdims(nx, ny)
    + ColumnWrites(PsfTable(h, pow10))
  }

  /** The calls write_histo2D makes on a valid 2D histogram. */
  ghost function Histo2DPlan(h: Histogram, name: string, colName: string, colUnit: string,
                             mevBackgroundUnit: bool, pow10: real -> real): seq<Call>
    reads h.bins
    requires h.Valid() && (mevBackgroundUnit ==> Increasing(pow10))
  {
    var nx, ny := h.NbinsX(), h.NbinsY();
    [ CreateTable(name, 0, Histo2DSchema(nx, ny, colName, colUnit)),
      WriteTdim(5, [nx, ny]) ]
    + ColumnWrites(Histo2DTable(h, mevBackgroundUnit, pow10))
  }

  /** write_edisp declares exactly the columns it writes: 7 columns of the
      declared lengths, and a TDIM on MATRIX that multiplies out to its
      length. */
  lemma EdispPlanAgrees(h: Histogram, pow10: real -> real)
    requires h.Valid() && h.dim == 3
    ensures AgreesWithDeclaration(EdispPlan(h, pow10))
  {
    var nx, ny, nz := h.NbinsX(), h.NbinsY(), h.NbinsZ();
    EdispTableMatchesSchema(h, pow10);
    ProductOfThree(nx, ny, nz);
  }

  /** write_psf_gauss declares exactly the columns it writes: 10 columns of
      the declared lengths, and TDIMs on columns 5 to 10 that multiply out to
      their lengths. */
  lemma PsfPlanAgrees(h: Histogram, pow10: real -> real)
    requires h.Valid() && h.dim == 2
    ensures AgreesWithDeclaration(PsfPlan(h, pow10))
  {
    var nx, ny := h.NbinsX(), h.NbinsY();
    PsfTableMatchesSchema(h, pow10);
    ProductOfTwo(nx, ny);
  }

  /** write_histo2D declares exactly the columns it writes: 5 columns of the
      declared lengths, and a TDIM on the data column that multiplies out to
      its length. */
  lemma Histo2DPlanAgrees(h: Histogram, name: string, colName: string, colUnit: string,
                          mevBackgroundUnit: bool, pow10: real -> real)
    requires h.Valid() && h.dim == 2 && (mevBackgroundUnit ==> Increasing(pow10))
    ensures AgreesWithDeclaration(Histo2DPlan(h, name, colName, colUnit, mevBackgroundUnit, pow10))
  {
    var nx, ny := h.NbinsX(), h.NbinsY();
    Histo2DTableMatchesSchema(h, mevBackgroundUnit, pow10, colName, colUnit);
    ProductOfTwo(nx, ny);
  }

  /** The writer of the IRF file: VDL3IRFs with its FITS file pointer. */
  class IrfWriter {
    const fptr: FitsFile

    constructor(file: FitsFile)
      ensures fptr == file
    {
      fptr := file;
    }

    /** write_table: writes column i + 1 from table[i], in order, and stops
        at the first write the library rejects. */
    method WriteTable(table: seq<seq<real>>) returns (ok: bool)
      modifies fptr
      ensures RanUntilFailure(old(fptr.calls), fptr.calls, ColumnWrites(table), fptr.failing, ok)
    {
      ghost var before := fptr.calls;
      ghost var plan := ColumnWrites(table);
      RanNothing(before, fptr.failing);
      for i := 0 to |table|
        invariant RanUntilFailure(before, fptr.calls, plan[..i], fptr.failing, true)
      {
        ghost var mid := fptr.calls;
        var written := fptr.Issue(WriteCol(i + 1, 1, 1, table[i]));
        RanOneMore(before, mid, plan[..i], plan[i], fptr.failing, written);
        assert plan[..i] + [plan[i]] == plan[..i + 1];
        if !written {
          RanFailureStops(before, fptr.calls, plan[..i + 1], plan[i + 1..], fptr.failing);
          assert plan[..i + 1] + plan[i + 1..] == plan;
          return false;
        }
      }
      assert plan[..|table|] == plan;
      return true;
    }

    /** write_edisp: normalises the histogram's rows, then creates the
        ENERGY DISPERSION table, declares MATRIX as nx x ny x nz and writes
        the seven columns. A null histogram makes no call and fails. */
    method WriteEdisp(h: Histogram?, pow10: real -> real) returns (ok: bool)
      requires h != null ==> h.Valid() && h.dim == 3
      modifies fptr
      modifies if h == null then {} else {h.bins}
      ensures h == null ==> !ok && fptr.calls == old(fptr.calls)
      ensures h != null ==>
        forall x, y, z | 0 <= x < h.NbinsX() && 0 <= y < h.NbinsY() && 0 <= z < h.NbinsZ() ::
          h.bins[x, y, z] == NormaliseRow(old(Row(h, x, z)))[y]
      ensures h != null ==> RanUntilFailure(old(fptr.calls), fptr.calls, EdispPlan(h, pow10), fptr.failing, ok)
    {
      if h == null {
        return false;
      }
      // make sure that the pdfs are normalised
      NormalisePdf(h);
      var nx, ny, nz := h.NbinsX(), h.NbinsY(), h.NbinsZ();
      ghost var before := fptr.calls;
      ghost var plan := EdispPlan(h, pow10);
      ghost var header := plan[..2];
      assert plan == header + plan[2..];
      RanNothing(before, fptr.failing);
      // create the empty table
      ok := fptr.Issue(CreateTable("ENERGY DISPERSION", 0, EdispSchema(nx, ny, nz)));
      RanOneMore(before, before, [], plan[0], fptr.failing, ok);
      if !ok {
        RanFailureStops(before, fptr.calls, [plan[0]], plan[1..], fptr.failing);
        return;
      }
      // set dimensions
      ghost var mid := fptr.calls;
      ok := fptr.Issue(WriteTdim(7, [nx, ny, nz]));
      RanOneMore(before, mid, [plan[0]], plan[1], fptr.failing, ok);
      assert [plan[0]] + [plan[1]] == header;
      if !ok {
        RanFailureStops(before, fptr.calls, header, plan[2..], fptr.failing);
        return;
      }
      // write data
      var table := EdispTableData(h, pow10);
      mid := fptr.calls;
      ok := WriteTable(table);
      RanConcat(before, mid, fptr.calls, header, ColumnWrites(table), fptr.failing, ok);
    }

    /** write_psf_gauss: creates the POINT SPREAD FUNCTION table, declares
        columns 5 to 10 as nx x ny, and writes the ten columns. A null
        histogram makes no call and fails. */
    method WritePsfGauss(h: Histogram?, pow10: real -> real) returns (ok: bool)
      requires h != null ==> h.Valid() && h.dim == 2
      modifies fptr
      ensures h == null ==> !ok && fptr.calls == old(fptr.calls)
      ensures h != null ==> RanUntilFailure(old(fptr.calls), fptr.calls, PsfPlan(h, pow10), fptr.failing, ok)
    {
      if h == null {
        return false;
      }
      var nx, ny := h.NbinsX(), h.NbinsY();
      ghost var before := fptr.calls;
      ghost var header := [CreateTable("POINT SPREAD FUNCTION", 0, PsfSchema(nx, ny))] + PsfTdims(nx, ny);
      ghost var rest := ColumnWrites(PsfTable(h, pow10));
      assert PsfPlan(h, pow10) == header + rest;
      ok := CreatePsfTable(nx, ny);
      if !ok {
        RanFailureStops(before, fptr.calls, header, rest, fptr.failing);
        return;
      }
      // write data
      var table := PsfTableData(h, pow10);
      ghost var mid := fptr.calls;
      ok := WriteTable(table);
      RanConcat(before, mid, fptr.calls, header, rest, fptr.failing, ok);
    }

    /** The first part of write_psf_gauss: the empty table is created, then
        each of columns 5 to 10 gets the TDIM {nx, ny}, stopping at the first
        call the library rejects. */
    method CreatePsfTable(nx: nat, ny: nat) returns (ok: bool)
      modifies fptr
      ensures RanUntilFailure(old(fptr.calls), fptr.calls,
        [CreateTable("POINT SPREAD FUNCTION", 0, PsfSchema(nx, ny))] + PsfTdims(nx, ny), fptr.failing, ok)
    {
      ghost var before := fptr.calls;
      var create := CreateTable("POINT SPREAD FUNCTION", 0, PsfSchema(nx, ny));
      RanNothing(before, fptr.failing);
      // create the empty table
      ok := fptr.Issue(create);
      RanOneMore(before, before, [], create, fptr.failing, ok);
      if !ok {
        RanFailureStops(before, fptr.calls, [create], PsfTdims(nx, ny), fptr.failing);
        return;
      }
      // set dimensions
      ghost var mid := fptr.calls;
      ok := WritePsfTdims(nx, ny);
      RanConcat(before, mid, fptr.calls, [create], PsfTdims(nx, ny), fptr.failing, ok);
    }

    /** The TDIM loop of write_psf_gauss. */
    method WritePsfTdims(nx: nat, ny: nat) returns (ok: bool)
      modifies fptr
      ensures RanUntilFailure(old(fptr.calls), fptr.calls, PsfTdims(nx, ny), fptr.failing, ok)
    {
      ghost var before := fptr.calls;
      ghost var plan := PsfTdims(nx, ny);
      RanNothing(before, fptr.failing);
      var naxes := [nx, ny];
      for i := 0 to 6
        invariant RanUntilFailure(before, fptr.calls, plan[..i], fptr.failing, true)
      {
        ghost var mid := fptr.calls;
        var written := fptr.Issue(WriteTdim(PsfTdimColumns[i], naxes));
        RanOneMore(before, mid, plan[..i], plan[i], fptr.failing, written);
        assert plan[..i] + [plan[i]] == plan[..i + 1];
        if !written {
          RanFailureStops(before, fptr.calls, plan[..i + 1], plan[i + 1..], fptr.failing);
          assert plan[..i + 1] + plan[i + 1..] == plan;
          return false;
        }
      }
      assert plan[..6] == plan;
      return true;
    }

    /** write_histo2D: creates the table `name` with the four bin-edge
        columns and one nx x ny data column, scaled to a rate per MeV and per
        steradian when mevBackgroundUnit is set. A null histogram makes no
        call and fails. */
    method WriteHisto2D(h: Histogram?, name: string, colName: string, colUnit: string,
                        mevBackgroundUnit: bool, pow10: real -> real) returns (ok: bool)
      requires h != null ==> h.Valid() && h.dim == 2
      requires mevBackgroundUnit ==> Increasing(pow10)
      modifies fptr
      ensures h == null ==> !ok && fptr.calls == old(fptr.calls)
      ensures h != null ==>
        RanUntilFailure(old(fptr.calls), fptr.calls, Histo2DPlan(h, name, colName, colUnit, mevBackgroundUnit, pow10), fptr.failing, ok)
    {
      if h == null {
        return false;
      }
      var nx, ny := h.NbinsX(), h.NbinsY();
      ghost var before := fptr.calls;
      ghost var plan := Histo2DPlan(h, name, colName, colUnit, mevBackgroundUnit, pow10);
      ghost var header := plan[..2];
      assert plan == header + plan[2..];
      RanNothing(before, fptr.failing);
      // create the empty table
      ok := fptr.Issue(CreateTable(name, 0, Histo2DSchema(nx, ny, colName, colUnit)));
      RanOneMore(before, before, [], plan[0], fptr.failing, ok);
      if !ok {
        RanFailureStops(before, fptr.calls, [plan[0]], plan[1..], fptr.failing);
        return;
      }
      // set dimensions
      ghost var mid := fptr.calls;
      ok := fptr.Issue(WriteTdim(5, [nx, ny]));
      RanOneMore(before, mid, [plan[0]], plan[1], fptr.failing, ok);
      assert [plan[0]] + [plan[1]] == header;
      if !ok {
        RanFailureStops(before, fptr.calls, header, plan[2..], fptr.failing);
        return;
      }
      // write data
      var table := Histo2DTableData(h, mevBackgroundUnit, pow10);
      mid := fptr.calls;
      ok := WriteTable(table);
      RanConcat(before, mid, fptr.calls, header, ColumnWrites(table), fptr.failing, ok);
    }

    /** write_background: the BACKGROUND table, data column BKG in
        s^-1 MeV^-1 sr^-1. */
    method WriteBackground(h: Histogram?, pow10: real -> real) returns (ok: bool)
      requires h != null ==> h.Valid() && h.dim == 2
      requires Increasing(pow10)
      modifies fptr
      ensures h == null ==> !ok && fptr.calls == old(fptr.calls)
      ensures h != null ==>
        RanUntilFailure(old(fptr.calls), fptr.calls, Histo2DPlan(h, "BACKGROUND", "BKG", "s^-1 MeV^-1 sr^-1", true, pow10), fptr.failing, ok)
    {
      ok := WriteHisto2D(h, "BACKGROUND", "BKG", "s^-1 MeV^-1 sr^-1", true, pow10);
    }

    /** write_effarea: the EFFECTIVE AREA table, data column EFFAREA in m**2,
        the histogram contents unscaled. */
    method WriteEffArea(h: Histogram?, pow10: real -> real) returns (ok: bool)
      requires h != null ==> h.Valid() && h.dim == 2
      modifies fptr
      ensures h == null ==> !ok && fptr.calls == old(fptr.calls)
      ensures h != null ==>
        RanUntilFailure(old(fptr.calls), fptr.calls, Histo2DPlan(h, "EFFECTIVE AREA", "EFFAREA", "m**2", false, pow10), fptr.failing, ok)
    {
      ok := WriteHisto2D(h, "EFFECTIVE AREA", "EFFAREA", "m**2", false, pow10);
    }
  }
}
