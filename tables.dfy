/** The data of the GADF binary tables: the bin-edge columns every IRF table
    starts with, and the data columns derived from the histogram contents.
    A table is a sequence of columns, each the sequence of values written to
    it; single-precision rounding is not modelled (values are reals). */
module Tables {
  import opened Histograms
  import opened Layout
  import opened Fits

  /** TMath::Pi(). */
  const Pi: real := 3.14159265358979323846
  /** TMath::DegToRad(). */
  const DegToRad: real := Pi / 180.0
  /** Converts a 68% containment radius into the sigma of a 2D Gaussian. */
  const Sigma68ToSigma: real := 0.6624305
  /** MeV per TeV. */
  const TeVToMeV: real := 1000000.0

  /** What the model assumes of TMath::Power(10., x), which it takes as a
      parameter: it grows strictly with x. */
  ghost predicate Increasing(pow10: real -> real)
  {
    forall a: real, b: real | a < b :: pow10(a) < pow10(b)
  }

  // ---------------------------------------------------------------------
  // Bin-edge columns (get_baseline_axes)
  // ---------------------------------------------------------------------

  /** Ten to the power of each entry. */
  function Powers(s: seq<real>, pow10: real -> real): (p: seq<real>)
    ensures |p| == |s|
    ensures forall n | 0 <= n < |s| :: p[n] == pow10(s[n])
  {
    seq(|s|, n requires 0 <= n < |s| => pow10(s[n]))
  }

  /** The columns get_baseline_axes returns for a histogram: low and high
      edges of the x axis, given in log10 and written as powers of ten, then
      the raw low and high edges of the y axis and, for a 3D histogram, of
      the z axis. */
  function BaselineAxes(h: Histogram, pow10: real -> real): seq<seq<real>>
    requires h.Valid()
  {
    [ Powers(h.xAxis.LowEdges(), pow10), Powers(h.xAxis.UpEdges(), pow10),
      h.yAxis.LowEdges(), h.yAxis.UpEdges() ]
    + if h.dim == 3 then [ h.zAxis.LowEdges(), h.zAxis.UpEdges() ] else []
  }

  /** Four bin-edge columns for a 2D histogram and six for a 3D one, of
      lengths nx, nx, ny, ny[, nz, nz]; x columns hold 10 to the power of the
      edges, y and z columns the edges themselves. */
  lemma BaselineAxesShape(h: Histogram, pow10: real -> real)
    requires h.Valid()
    ensures var t := BaselineAxes(h, pow10);
      && |t| == (if h.dim == 3 then 6 else 4)
      && |t[0]| == |t[1]| == h.NbinsX()
      && |t[2]| == |t[3]| == h.NbinsY()
      && (h.dim == 3 ==> |t[4]| == |t[5]| == h.NbinsZ())
      && (forall i | 0 <= i < h.NbinsX() ::
            t[0][i] == pow10(h.xAxis.BinLowEdge(i + 1)) && t[1][i] == pow10(h.xAxis.BinUpEdge(i + 1)))
      && (forall i | 0 <= i < h.NbinsY() ::
            t[2][i] == h.yAxis.BinLowEdge(i + 1) && t[3][i] == h.yAxis.BinUpEdge(i + 1))
      && (h.dim == 3 ==> forall i | 0 <= i < h.NbinsZ() ::
            t[4][i] == h.zAxis.BinLowEdge(i + 1) && t[5][i] == h.zAxis.BinUpEdge(i + 1))
  {
  }

  /** The bin edges of an axis from a loop over its bins, as
      get_baseline_axes collects them; the x axis goes through pow10. */
  method EdgeColumns(axis: Axis, n: nat, exponentiate: bool, pow10: real -> real) returns (low: seq<real>, high: seq<real>)
    requires axis.Valid() && n == axis.NBins()
    ensures low == (if exponentiate then Powers(axis.LowEdges(), pow10) else axis.LowEdges())
    ensures high == (if exponentiate then Powers(axis.UpEdges(), pow10) else axis.UpEdges())
  {
    low, high := [], [];
    for i := 0 to n
      invariant |low| == |high| == i
      invariant forall m | 0 <= m < i ::
        && low[m] == (if exponentiate then pow10(axis.BinLowEdge(m + 1)) else axis.BinLowEdge(m + 1))
        && high[m] == (if exponentiate then pow10(axis.BinUpEdge(m + 1)) else axis.BinUpEdge(m + 1))
    {
      if exponentiate {
        low := low + [pow10(axis.BinLowEdge(i + 1))];
        high := high + [pow10(axis.BinUpEdge(i + 1))];
      } else {
        low := low + [axis.BinLowEdge(i + 1)];
        high := high + [axis.BinUpEdge(i + 1)];
      }
    }
  }

  /** get_baseline_axes(h): an empty table for a null histogram. */
  method GetBaselineAxes(h: Histogram?, pow10: real -> real) returns (table: seq<seq<real>>)
    requires h != null ==> h.Valid()
    ensures h == null ==> table == []
    ensures h != null ==> table == BaselineAxes(h, pow10)
  {
    table := [];
    if h == null {
      return;
    }
    // x axis (always expected to be the energy axis, in log10)
    var xLow, xHigh := EdgeColumns(h.xAxis, h.NbinsX(), true, pow10);
    table := table + [xLow, xHigh];
    // y axis
    var yLow, yHigh := EdgeColumns(h.yAxis, h.NbinsY(), false, pow10);
    table := table + [yLow, yHigh];
    if h.dim == 3 {
      // z axis
      var zLow, zHigh := EdgeColumns(h.zAxis, h.NbinsZ(), false, pow10);
      table := table + [zLow, zHigh];
    }
  }

  // ---------------------------------------------------------------------
  // Energy dispersion (EDISP_2D)
  // ---------------------------------------------------------------------

  /** The x-rows of layer k of a histogram: row j holds bins (1..nx, j+1, k+1). */
  ghost function XRows(h: Histogram, k: int): (rows: seq<seq<real>>)
    reads h.bins
    requires 0 <= k < h.NbinsZ()
    ensures |rows| == h.NbinsY()
    ensures forall j | 0 <= j < |rows| :: |rows[j]| == h.NbinsX()
  {
    var nx, ny := h.NbinsX(), h.NbinsY();
    seq(ny, j requires 0 <= j < ny reads h.bins =>
      seq(nx, i requires 0 <= i < nx reads h.bins => h.bins[i, j, k]))
  }

  /** The layers of a 3D histogram, each flattened x fastest. */
  ghost function Layers(h: Histogram): (layers: seq<seq<real>>)
    reads h.bins
    ensures |layers| == h.NbinsZ()
  {
    seq(h.NbinsZ(), k requires 0 <= k < h.NbinsZ() reads h.bins => Flatten(XRows(h, k)))
  }

  /** The MATRIX column: all bins of the 3D histogram, x fastest, then y,
      then z. */
  ghost function MatrixColumn(h: Histogram): seq<real>
    reads h.bins
  {
    Flatten(Layers(h))
  }

  /** The MATRIX column has nx * ny * nz entries, and the entry at
      i + nx * (j + ny * k) is bin (i+1, j+1, k+1). */
  lemma MatrixColumnAt(h: Histogram, i: int, j: int, k: int)
    requires 0 <= i < h.NbinsX() && 0 <= j < h.NbinsY() && 0 <= k < h.NbinsZ()
    ensures |MatrixColumn(h)| == h.NbinsX() * h.NbinsY() * h.NbinsZ()
    ensures 0 <= i + h.NbinsX() * (j + h.NbinsY() * k) < |MatrixColumn(h)|
    ensures MatrixColumn(h)[i + h.NbinsX() * (j + h.NbinsY() * k)] == h.GetBinContent(i + 1, j + 1, k + 1)
  {
    var nx, ny := h.NbinsX(), h.NbinsY();
    var layers := Layers(h);
    forall k' | 0 <= k' < |layers|
      ensures |layers[k']| == nx * ny
    {
      FlattenLength(XRows(h, k'), nx);
    }
    var rows := XRows(h, k);
    FlattenAt(rows, nx, i, j);
    assert layers[k][Flat2(i, j, nx)] == h.bins[i, j, k];
    FlattenAt(layers, nx * ny, Flat2(i, j, nx), k);
    Flat3Offset(i, j, k, nx, ny);
  }

  lemma Flat3Offset(i: int, j: int, k: int, nx: int, ny: int)
    ensures Flat2(Flat2(i, j, nx), k, nx * ny) == i + nx * (j + ny * k)
  {
    assert nx * (j + ny * k) == nx * j + nx * (ny * k);
    assert nx * ny * k == nx * (ny * k);
  }

  /** The MATRIX column has one entry per bin. */
  lemma MatrixColumnLength(h: Histogram)
    ensures |MatrixColumn(h)| == h.NbinsX() * h.NbinsY() * h.NbinsZ()
  {
    var nx, ny := h.NbinsX(), h.NbinsY();
    var layers := Layers(h);
    forall k | 0 <= k < |layers|
      ensures |layers[k]| == nx * ny
    {
      FlattenLength(XRows(h, k), nx);
    }
    FlattenLength(layers, nx * ny);
  }

  /** Conversely, every entry of the MATRIX column is the bin its offset
      decodes to. */
  lemma MatrixColumnEntry(h: Histogram, n: int)
    requires 0 < h.NbinsX() && 0 < h.NbinsY()
    requires 0 <= n < h.NbinsX() * h.NbinsY() * h.NbinsZ()
    ensures |MatrixColumn(h)| == h.NbinsX() * h.NbinsY() * h.NbinsZ()
    ensures var b := Unflat3(n, h.NbinsX(), h.NbinsY(), h.NbinsZ());
      MatrixColumn(h)[n] == h.GetBinContent(b.0 + 1, b.1 + 1, b.2 + 1)
  {
    var b := Unflat3(n, h.NbinsX(), h.NbinsY(), h.NbinsZ());
    MatrixColumnAt(h, b.0, b.1, b.2);
  }

  /** The data loop of write_edisp. */
  method EdispMatrix(h: Histogram) returns (data: seq<real>)
    ensures data == MatrixColumn(h)
  {
    var nx, ny, nz := h.NbinsX(), h.NbinsY(), h.NbinsZ();
    ghost var layers := Layers(h);
    data := [];
    for k := 0 to nz
      invariant data == Flatten(layers[..k])
    {
      ghost var rows := XRows(h, k);
      for j := 0 to ny
        invariant data == Flatten(layers[..k]) + Flatten(rows[..j])
      {
        for i := 0 to nx
          invariant data == Flatten(layers[..k]) + Flatten(rows[..j]) + rows[j][..i]
        {
          assert rows[j][..i + 1] == rows[j][..i] + [h.GetBinContent(i + 1, j + 1, k + 1)];
          data := data + [h.GetBinContent(i + 1, j + 1, k + 1)];
        }
        assert rows[j][..nx] == rows[j];
        assert rows[..j + 1][..j] == rows[..j];
      }
      assert rows[..ny] == rows;
      assert layers[..k + 1][..k] == layers[..k];
    }
    assert layers[..nz] == layers;
  }

  /** The EDISP table: six bin-edge columns, then MATRIX. */
  ghost function EdispTable(h: Histogram, pow10: real -> real): seq<seq<real>>
    reads h.bins
    requires h.Valid()
  {
    BaselineAxes(h, pow10) + [MatrixColumn(h)]
  }

  /** The table write_edisp writes: the bin-edge columns, then MATRIX. */
  method EdispTableData(h: Histogram, pow10: real -> real) returns (table: seq<seq<real>>)
    requires h.Valid()
    ensures table == EdispTable(h, pow10)
  {
    table := GetBaselineAxes(h, pow10);
    var data := EdispMatrix(h);
    table := table + [data];
  }

  /** The columns write_edisp declares (names, units, "%dE" repeat counts). */
  function EdispSchema(nx: nat, ny: nat, nz: nat): seq<ColumnSpec>
  {
    [ ColumnSpec("ENERG_LO", "TeV", nx), ColumnSpec("ENERG_HI", "TeV", nx),
      ColumnSpec("MIGRA_LO", "", ny), ColumnSpec("MIGRA_HI", "", ny),
      ColumnSpec("THETA_LO", "deg", nz), ColumnSpec("THETA_HI", "deg", nz),
      ColumnSpec("MATRIX", "", nx * nz * ny) ]
  }

  /** The EDISP table agrees with what write_edisp declares: 7 columns, each
      as long as its declared repeat count, and the TDIM of MATRIX
      {nx, ny, nz} multiplies out to MATRIX's repeat count. */
  lemma EdispTableMatchesSchema(h: Histogram, pow10: real -> real)
    requires h.Valid() && h.dim == 3
    ensures var t, s := EdispTable(h, pow10), EdispSchema(h.NbinsX(), h.NbinsY(), h.NbinsZ());
      && |t| == |s| == 7
      && (forall c | 0 <= c < 7 :: |t[c]| == s[c].repeat)
      && h.NbinsX() * h.NbinsY() * h.NbinsZ() == s[6].repeat
  {
    BaselineAxesShape(h, pow10);
    MatrixColumnLength(h);
    assert h.NbinsX() * h.NbinsZ() * h.NbinsY() == h.NbinsX() * h.NbinsY() * h.NbinsZ();
  }

  // ---------------------------------------------------------------------
  // Point-spread function (PSF_3GAUSS)
  // ---------------------------------------------------------------------

  /** The SCALE value for a first-Gaussian width: 1 / (2 pi sigma) when the
      width is positive, 0 otherwise. */
  function ScaleOf(sigma: real): (scale: real)
    ensures scale > 0.0 <==> sigma > 0.0
    ensures sigma > 0.0 ==> scale * (2.0 * Pi * sigma) == 1.0
    ensures sigma <= 0.0 ==> scale == 0.0
  {
    if sigma > 0.0 then 1.0 / (2.0 * Pi * sigma) else 0.0
  }

  /** The x-rows of the SIGMA_1 values: each bin's 68% containment radius
      converted into a 2D Gaussian sigma. */
  ghost function SigmaRows(h: Histogram): (rows: seq<seq<real>>)
    reads h.bins
    requires 0 < h.NbinsZ()
    ensures |rows| == h.NbinsY()
    ensures forall j | 0 <= j < |rows| :: |rows[j]| == h.NbinsX()
  {
    var nx, ny := h.NbinsX(), h.NbinsY();
    seq(ny, j requires 0 <= j < ny reads h.bins =>
      seq(nx, i requires 0 <= i < nx reads h.bins => h.bins[i, j, 0] * Sigma68ToSigma))
  }

  /** The SIGMA_1 column, x fastest. */
  ghost function SigmaColumn(h: Histogram): seq<real>
    reads h.bins
    requires 0 < h.NbinsZ()
  {
    Flatten(SigmaRows(h))
  }

  /** The SCALE entries for a column of widths, entry by entry. */
  function Scales(sigma: seq<real>): (scale: seq<real>)
    ensures |scale| == |sigma|
    ensures forall n | 0 <= n < |sigma| :: scale[n] == ScaleOf(sigma[n])
  {
    seq(|sigma|, n requires 0 <= n < |sigma| => ScaleOf(sigma[n]))
  }

  /** The SCALE column. */
  ghost function ScaleColumn(h: Histogram): seq<real>
    reads h.bins
    requires 0 < h.NbinsZ()
  {
    Scales(SigmaColumn(h))
  }

  function ZeroColumn(n: nat): (z: seq<real>)
    ensures |z| == n
  {
    seq(n, _ => 0.0)
  }

  /** Entry i + nx * j of SIGMA_1 is bin (i+1, j+1) times 0.6624305; the SCALE
      entry beside it is positive exactly when that width is, and then is
      1 / (2 pi sigma); it is 0 otherwise. */
  lemma PsfColumnsAt(h: Histogram, i: int, j: int)
    requires 0 < h.NbinsZ()
    requires 0 <= i < h.NbinsX() && 0 <= j < h.NbinsY()
    ensures |SigmaColumn(h)| == |ScaleColumn(h)| == h.NbinsX() * h.NbinsY()
    ensures 0 <= i + h.NbinsX() * j < h.NbinsX() * h.NbinsY()
    ensures var n, sigma := i + h.NbinsX() * j, h.GetBinContent(i + 1, j + 1, 1) * Sigma68ToSigma;
      && SigmaColumn(h)[n] == sigma
      && (ScaleColumn(h)[n] > 0.0 <==> sigma > 0.0)
      && (sigma > 0.0 ==> ScaleColumn(h)[n] * (2.0 * Pi * sigma) == 1.0)
      && (sigma <= 0.0 ==> ScaleColumn(h)[n] == 0.0)
  {
    FlattenAt(SigmaRows(h), h.NbinsX(), i, j);
  }

  /** The data loop of write_psf_gauss: SCALE, SIGMA_1 and the all-zero
      column used for SIGMA_2, SIGMA_3, AMPL_2 and AMPL_3. */
  method PsfData(h: Histogram) returns (scale: seq<real>, data: seq<real>, empty: seq<real>)
    requires 0 < h.NbinsZ()
    ensures scale == ScaleColumn(h)
    ensures data == SigmaColumn(h)
    ensures empty == ZeroColumn(h.NbinsX() * h.NbinsY())
  {
    var nx, ny := h.NbinsX(), h.NbinsY();
    ghost var rows := SigmaRows(h);
    data, scale, empty := [], [], [];
    for j := 0 to ny
      invariant data == Flatten(rows[..j])
      invariant scale == Scales(data) && empty == ZeroColumn(|data|)
    {
      for i := 0 to nx
        invariant data == Flatten(rows[..j]) + rows[j][..i]
        invariant scale == Scales(data) && empty == ZeroColumn(|data|)
      {
        assert rows[j][..i + 1] == rows[j][..i] + [h.GetBinContent(i + 1, j + 1, 1) * Sigma68ToSigma];
        // convert 68% to 2D sigma
        data := data + [h.GetBinContent(i + 1, j + 1, 1) * Sigma68ToSigma];
        if data[|data| - 1] > 0.0 {
          scale := scale + [1.0 / (2.0 * Pi * data[|data| - 1])];
        } else {
          scale := scale + [0.0];
        }
        empty := empty + [0.0];
      }
      assert rows[j][..nx] == rows[j];
      assert rows[..j + 1][..j] == rows[..j];
    }
    assert rows[..ny] == rows;
    FlattenLength(rows, nx);
  }

  /** The PSF table: four bin-edge columns, SCALE, SIGMA_1, then zeros for
      SIGMA_2, SIGMA_3, AMPL_2 and AMPL_3. */
  ghost function PsfTable(h: Histogram, pow10: real -> real): seq<seq<real>>
    reads h.bins
    requires h.Valid()
  {
    var empty := ZeroColumn(h.NbinsX() * h.NbinsY());
    BaselineAxes(h, pow10) + [ScaleColumn(h), SigmaColumn(h)] + [empty, empty, empty, empty]
  }

  /** The table write_psf_gauss writes: the bin-edge columns, SCALE,
      SIGMA_1, and the zero column four times. */
  method PsfTableData(h: Histogram, pow10: real -> real) returns (table: seq<seq<real>>)
    requires h.Valid()
    ensures table == PsfTable(h, pow10)
  {
    table := GetBaselineAxes(h, pow10);
    var scale, data, empty := PsfData(h);
    table := table + [scale, data];
    for i := 0 to 4
      invariant table == BaselineAxes(h, pow10) + [scale, data] + seq(i, _ => empty)
    {
      table := table + [empty];
    }
  }

  /** The columns write_psf_gauss declares. */
  function PsfSchema(nx: nat, ny: nat): seq<ColumnSpec>
  {
    [ ColumnSpec("ENERG_LO", "TeV", nx), ColumnSpec("ENERG_HI", "TeV", nx),
      ColumnSpec("THETA_LO", "deg", ny), ColumnSpec("THETA_HI", "deg", ny),
      ColumnSpec("SCALE", "sr^(-1)", nx * ny),
      ColumnSpec("SIGMA_1", "deg", nx * ny), ColumnSpec("SIGMA_2", "deg", nx * ny),
      ColumnSpec("SIGMA_3", "deg", nx * ny),
      ColumnSpec("AMPL_2", "", nx * ny), ColumnSpec("AMPL_3", "", nx * ny) ]
  }

  /** The PSF table agrees with what write_psf_gauss declares: 10 columns,
      each as long as its declared repeat count, and the TDIM {nx, ny} of
      columns 5 to 10 multiplies out to their repeat count. */
  lemma PsfTableMatchesSchema(h: Histogram, pow10: real -> real)
    requires h.Valid() && h.dim == 2
    ensures var t, s := PsfTable(h, pow10), PsfSchema(h.NbinsX(), h.NbinsY());
      && |t| == |s| == 10
      && (forall c | 0 <= c < 10 :: |t[c]| == s[c].repeat)
      && (forall c | 4 <= c < 10 :: h.NbinsX() * h.NbinsY() == s[c].repeat)
  {
    BaselineAxesShape(h, pow10);
    FlattenLength(SigmaRows(h), h.NbinsX());
  }

  // ---------------------------------------------------------------------
  // 2D tables: effective area (AEFF_2D) and background (BKG_2D)
  // ---------------------------------------------------------------------

  /** Whether the energy-edge columns of the table cover energy bin i (the
      guard of write_histo2D's normalisation loop). */
  predicate CoversEnergyBin(table: seq<seq<real>>, i: nat)
  {
    |table| > 1 && i < |table[0]| && i < |table[1]|
  }

  /** The per-energy-bin factors of write_histo2D: all 1 without the
      background flag; with it, 1/deg^2 is turned into 1/sr by dividing by
      DegToRad^2, and the count per energy bin into a count per MeV by
      dividing by the bin width (high minus low edge, TeV, times 1e6). */
  method MevBackgroundNorm(table: seq<seq<real>>, nx: nat, mevBackgroundUnit: bool) returns (norm: seq<real>)
    requires mevBackgroundUnit ==>
      forall i | 0 <= i < nx && CoversEnergyBin(table, i) :: table[1][i] != table[0][i]
    ensures |norm| == nx
    ensures !mevBackgroundUnit ==> forall i | 0 <= i < nx :: norm[i] == 1.0
    ensures mevBackgroundUnit ==> forall i | 0 <= i < nx && !CoversEnergyBin(table, i) ::
      norm[i] == 1.0 / (DegToRad * DegToRad)
    ensures mevBackgroundUnit ==> forall i | 0 <= i < nx && CoversEnergyBin(table, i) ::
      norm[i] == 1.0 / (DegToRad * DegToRad) / ((table[1][i] - table[0][i]) * TeVToMeV)
  {
    norm := seq(nx, _ => 1.0);
    if mevBackgroundUnit {
      for i := 0 to nx
        invariant |norm| == nx
        invariant forall m | i <= m < nx :: norm[m] == 1.0
        invariant forall m | 0 <= m < i && !CoversEnergyBin(table, m) :: norm[m] == 1.0 / (DegToRad * DegToRad)
        invariant forall m | 0 <= m < i && CoversEnergyBin(table, m) ::
          norm[m] == 1.0 / (DegToRad * DegToRad) / ((table[1][m] - table[0][m]) * TeVToMeV)
      {
        norm := norm[i := norm[i] / (DegToRad * DegToRad)];
        // first two columns are the low and high energy edges, TeV --> MeV
        if CoversEnergyBin(table, i) {
          var dE := (table[1][i] - table[0][i]) * TeVToMeV;
          norm := norm[i := norm[i] / dE];
        }
      }
    }
  }

  /** The factor applied to energy bin i of a background histogram. */
  ghost function BackgroundFactor(h: Histogram, i: int, pow10: real -> real): real
    requires h.Valid() && Increasing(pow10) && 0 <= i < h.NbinsX()
  {
    1.0 / (DegToRad * DegToRad)
      / ((pow10(h.xAxis.BinUpEdge(i + 1)) - pow10(h.xAxis.BinLowEdge(i + 1))) * TeVToMeV)
  }

  /** The background factor is positive and undoes exactly the solid angle of
      a square degree (DegToRad^2 sr) and the width of the energy bin in MeV:
      a rate per square degree per bin becomes a rate per sr per MeV. */
  lemma BackgroundFactorConverts(h: Histogram, i: int, pow10: real -> real)
    requires h.Valid() && Increasing(pow10) && 0 <= i < h.NbinsX()
    ensures var widthMeV := (pow10(h.xAxis.BinUpEdge(i + 1)) - pow10(h.xAxis.BinLowEdge(i + 1))) * TeVToMeV;
      && widthMeV > 0.0
      && BackgroundFactor(h, i, pow10) > 0.0
      && BackgroundFactor(h, i, pow10) * (DegToRad * DegToRad) * widthMeV == 1.0
  {
  }

  /** The factors write_histo2D computes from the bin-edge columns of h. */
  ghost function MevNorm(h: Histogram, mevBackgroundUnit: bool, pow10: real -> real): (norm: seq<real>)
    requires h.Valid() && (mevBackgroundUnit ==> Increasing(pow10))
    ensures |norm| == h.NbinsX()
  {
    seq(h.NbinsX(), i requires 0 <= i < h.NbinsX() =>
      if mevBackgroundUnit then BackgroundFactor(h, i, pow10) else 1.0)
  }

  /** The x-rows of write_histo2D's data: every bin, multiplied by the factor
      of its energy bin when the background flag is set. */
  ghost function Histo2DRows(h: Histogram, norm: seq<real>, mevBackgroundUnit: bool): (rows: seq<seq<real>>)
    reads h.bins
    requires 0 < h.NbinsZ() && |norm| == h.NbinsX()
    ensures |rows| == h.NbinsY()
    ensures forall j | 0 <= j < |rows| :: |rows[j]| == h.NbinsX()
  {
    var nx, ny := h.NbinsX(), h.NbinsY();
    seq(ny, j requires 0 <= j < ny reads h.bins =>
      seq(nx, i requires 0 <= i < nx reads h.bins =>
        if mevBackgroundUnit then h.bins[i, j, 0] * norm[i] else h.bins[i, j, 0]))
  }

  /** The data column of write_histo2D, x fastest. */
  ghost function Histo2DColumn(h: Histogram, norm: seq<real>, mevBackgroundUnit: bool): seq<real>
    reads h.bins
    requires 0 < h.NbinsZ() && |norm| == h.NbinsX()
  {
    Flatten(Histo2DRows(h, norm, mevBackgroundUnit))
  }

  /** Entry i + nx * j of the data column is bin (i+1, j+1), multiplied by the
      factor of energy bin i in background mode and copied unchanged
      otherwise; the factor depends on i alone. */
  lemma Histo2DColumnAt(h: Histogram, norm: seq<real>, mevBackgroundUnit: bool, i: int, j: int)
    requires 0 < h.NbinsZ() && |norm| == h.NbinsX()
    requires 0 <= i < h.NbinsX() && 0 <= j < h.NbinsY()
    ensures |Histo2DColumn(h, norm, mevBackgroundUnit)| == h.NbinsX() * h.NbinsY()
    ensures 0 <= i + h.NbinsX() * j < h.NbinsX() * h.NbinsY()
    ensures Histo2DColumn(h, norm, mevBackgroundUnit)[i + h.NbinsX() * j] ==
      if mevBackgroundUnit then h.GetBinContent(i + 1, j + 1, 1) * norm[i] else h.GetBinContent(i + 1, j + 1, 1)
  {
    FlattenAt(Histo2DRows(h, norm, mevBackgroundUnit), h.NbinsX(), i, j);
  }

  /** The data loop of write_histo2D. */
  method Histo2DData(h: Histogram, norm: seq<real>, mevBackgroundUnit: bool) returns (data: seq<real>)
    requires 0 < h.NbinsZ() && |norm| == h.NbinsX()
    ensures data == Histo2DColumn(h, norm, mevBackgroundUnit)
  {
    var nx, ny := h.NbinsX(), h.NbinsY();
    ghost var rows := Histo2DRows(h, norm, mevBackgroundUnit);
    data := [];
    for j := 0 to ny
      invariant data == Flatten(rows[..j])
    {
      for i := 0 to nx
        invariant data == Flatten(rows[..j]) + rows[j][..i]
      {
        var content := h.GetBinContent(i + 1, j + 1, 1);
        assert rows[j][..i + 1] == rows[j][..i] + [rows[j][i]];
        // background normalisation
        if mevBackgroundUnit {
          assert content * norm[i] == rows[j][i];
          data := data + [content * norm[i]];
        } else {
          data := data + [content];
        }
      }
      assert rows[j][..nx] == rows[j];
      assert rows[..j + 1][..j] == rows[..j];
    }
    assert rows[..ny] == rows;
  }

  /** The table write_histo2D writes: four bin-edge columns and the data. */
  ghost function Histo2DTable(h: Histogram, mevBackgroundUnit: bool, pow10: real -> real): seq<seq<real>>
    reads h.bins
    requires h.Valid() && (mevBackgroundUnit ==> Increasing(pow10))
  {
    BaselineAxes(h, pow10) + [Histo2DColumn(h, MevNorm(h, mevBackgroundUnit, pow10), mevBackgroundUnit)]
  }

  /** The table write_histo2D writes: the bin-edge columns and the data
      column, whose background factors come from the energy-edge columns. */
  method Histo2DTableData(h: Histogram, mevBackgroundUnit: bool, pow10: real -> real) returns (table: seq<seq<real>>)
    requires h.Valid() && (mevBackgroundUnit ==> Increasing(pow10))
    ensures table == Histo2DTable(h, mevBackgroundUnit, pow10)
  {
    table := GetBaselineAxes(h, pow10);
    BaselineAxesShape(h, pow10);
    if mevBackgroundUnit {
      forall i | 0 <= i < h.NbinsX()
        ensures table[1][i] != table[0][i]
      {
        BackgroundFactorConverts(h, i, pow10);
      }
    }
    var norm := MevBackgroundNorm(table, h.NbinsX(), mevBackgroundUnit);
    assert norm == MevNorm(h, mevBackgroundUnit, pow10);
    var data := Histo2DData(h, norm, mevBackgroundUnit);
    table := table + [data];
  }

  /** The columns write_histo2D declares, with the data column's name and
      unit supplied by the caller. */
  function Histo2DSchema(nx: nat, ny: nat, colName: string, colUnit: string): seq<ColumnSpec>
  {
    [ ColumnSpec("ENERG_LO", "TeV", nx), ColumnSpec("ENERG_HI", "TeV", nx),
      ColumnSpec("THETA_LO", "deg", ny), ColumnSpec("THETA_HI", "deg", ny),
      ColumnSpec(colName, colUnit, nx * ny) ]
  }

  /** The 2D table agrees with what write_histo2D declares: 5 columns, each
      as long as its declared repeat count, and the TDIM {nx, ny} of the data
      column multiplies out to its repeat count. */
  lemma Histo2DTableMatchesSchema(h: Histogram, mevBackgroundUnit: bool, pow10: real -> real, colName: string, colUnit: string)
    requires h.Valid() && h.dim == 2 && (mevBackgroundUnit ==> Increasing(pow10))
    ensures var t, s := Histo2DTable(h, mevBackgroundUnit, pow10), Histo2DSchema(h.NbinsX(), h.NbinsY(), colName, colUnit);
      && |t| == |s| == 5
      && (forall c | 0 <= c < 5 :: |t[c]| == s[c].repeat)
      && h.NbinsX() * h.NbinsY() == s[4].repeat
  {
    BaselineAxesShape(h, pow10);
    FlattenLength(Histo2DRows(h, MevNorm(h, mevBackgroundUnit, pow10), mevBackgroundUnit), h.NbinsX());
  }
}
