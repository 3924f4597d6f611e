# DL3-IRFs table writer, modelled in Dafny

This project models the core of `VDL3IRFs` from DL3-IRFs. That class writes
Eventdisplay's instrument response functions (IRFs) as binary tables of a
FITS file in the gamma-astro-data-formats (GADF) full-enclosure layout:

- energy dispersion (EDISP_2D);
- a point-spread function of three Gaussians (PSF_3GAUSS);
- effective area (AEFF_2D);
- background rates (BKG_2D).

The model covers what the class computes and the order of its calls:

- **Histograms** (`histograms.dfy`). ROOT's TH2F/TH3F is a class with three
  binned axes, as edge sequences, and a 3D array of bin contents, read
  1-based as `GetBinContent(i, j, k)` does. A 2D histogram has one z layer.
- **`normalise_pdf`** (`pdf.dfy`). It rewrites the array in place. Every
  (true energy, offset) row along the migration axis becomes its old
  contents divided by the row total when that total exceeds 10. Otherwise
  the row is cleared. The method is proved against the pure `NormaliseRow`.
  Lemmas then show that a normalised row sums to one, that a sparse row is
  all zeros, and that entries are probabilities.
- **Column layout** (`layout.dfy`). A multi-dimensional column stores its
  bins with x varying fastest. `Flatten` lays rows end to end. Offsets
  `i + nx*j` and `i + nx*(j + ny*k)` are proved to be bijections onto the
  column, with div/mod decoding as the inverse.
- **Table contents** (`tables.dfy`):
  - `get_baseline_axes` gives the bin-edge columns, with x edges as powers
    of ten.
  - The MATRIX column of the energy dispersion table.
  - The SCALE, SIGMA_1 and zero columns of the PSF table.
  - The effective area or background column, with the background's
    per-energy-bin unit factor.

  Each loop that builds a column is a method proved equal to a
  specification function. Index lemmas state which bin lands where, and
  shape lemmas state that column counts and lengths match the declared
  TFORM repeat counts and TDIMs.
- **CFITSIO calls** (`fits.dfy`). The FITS file is a log of the library
  calls made on it (create table, write TDIM, write column). Which log
  positions the library rejects is fixed by the environment.
  `RanUntilFailure` states the code's error discipline: make the planned
  calls in order, stop right after the first rejected one, and report
  success only if none was rejected.
- **Writers** (`writers.dfy`):
  - `write_table`, `write_edisp`, `write_psf_gauss`, `write_histo2D`,
    `write_background` and `write_effarea` are methods of a class holding
    the file pointer.
  - Each is proved to run its plan of calls until the first failure.
  - Lemmas show that each plan writes exactly the columns its
    `fits_create_tbl` declares, with the declared lengths and TDIMs.
- **HDUCLAS2** (`header.dfy`). This maps the IRF type to the header value,
  with its inverse.

`TMath::Power(10, x)` is a parameter `pow10` of the model. The background
factor assumes it is strictly increasing, so that energy bins have
positive width. `TMath::Pi()` is the constant 3.14159265358979323846 and
`TMath::DegToRad()` is Pi/180.

## Model

| member | source | states |
|---|---|---|
| Histograms.Histogram.SetBinContent | DL3-IRFs/src/VDL3IRFs.cpp:178-179 | setting one bin changes that bin and no other |
| Pdf.NormalisePdf | DL3-IRFs/src/VDL3IRFs.cpp:156-192 | every (x, z) row of the histogram becomes NormaliseRow of its old contents, each row depending only on its own old row; a null histogram is left alone (empty frame) |
| Pdf.NormaliseRowInPlace | DL3-IRFs/src/VDL3IRFs.cpp:166-189 | the row at (i, j) becomes NormaliseRow of its old contents and every other bin is unchanged |
| Pdf.NormalisedRowSumsToOne | DL3-IRFs/src/VDL3IRFs.cpp:174-181 | a row whose total exceeds 10 becomes each bin over the total, and the new row sums to exactly 1 |
| Pdf.SparseRowCleared | DL3-IRFs/src/VDL3IRFs.cpp:183-189 | a row whose total is at most 10 becomes all zeros, summing to 0 |
| Pdf.NormalisedEntriesAreProbabilities | DL3-IRFs/src/VDL3IRFs.cpp:166-189 | for non-negative counts every normalised bin lies in [0, 1] |
| Pdf.NormaliseTwiceClears | DL3-IRFs/src/VDL3IRFs.cpp:174-189 | normalising an already normalised row clears it, since its total (1 or 0) is not above 10 |
| Pdf.SumScaled | DL3-IRFs/src/VDL3IRFs.cpp:176-180 | dividing every bin by c divides the row total by c |
| Layout.Flat2RoundTrip | DL3-IRFs/src/VDL3IRFs.cpp:528-545 | offset i + nx*j of bin (i, j) lies inside the nx*ny column and decodes back to (i, j) |
| Layout.Flat3RoundTrip | DL3-IRFs/src/VDL3IRFs.cpp:281-290 | offset i + nx*(j + ny*k) lies inside the nx*ny*nz column and decodes back to (i, j, k) |
| Layout.Unflat2 | DL3-IRFs/src/VDL3IRFs.cpp:528-545 | every offset of an nx*ny column decodes to an in-range bin whose offset it is |
| Layout.Unflat3 | DL3-IRFs/src/VDL3IRFs.cpp:281-290 | every offset of an nx*ny*nz column decodes to an in-range bin whose offset it is |
| Layout.FlattenLength | DL3-IRFs/src/VDL3IRFs.cpp:383-398 | rows of nx entries pushed one after another give nx times as many entries as rows |
| Layout.FlattenAt | DL3-IRFs/src/VDL3IRFs.cpp:383-398 | entry i of row j is found at offset i + nx*j of the pushed sequence |
| Layout.FlattenEntry | DL3-IRFs/src/VDL3IRFs.cpp:528-545 | every offset of the pushed sequence holds the entry of the bin it decodes to |
| Tables.BaselineAxesShape | DL3-IRFs/src/VDL3IRFs.cpp:579-624 | 4 columns for a 2D and 6 for a 3D histogram, of lengths nx, nx, ny, ny[, nz, nz]; x columns hold 10^(low edge) and 10^(up edge) of bin i+1, y and z columns the raw edges |
| Tables.EdgeColumns | DL3-IRFs/src/VDL3IRFs.cpp:586-603 | the edge loop collects the low and up edge of every bin of an axis, in order, through pow10 for the x axis |
| Tables.GetBaselineAxes | DL3-IRFs/src/VDL3IRFs.cpp:579-624 | an empty table for a null histogram, otherwise the bin-edge columns of BaselineAxes |
| Tables.MatrixColumnLength | DL3-IRFs/src/VDL3IRFs.cpp:280-291 | MATRIX holds nx*ny*nz entries |
| Tables.MatrixColumnAt | DL3-IRFs/src/VDL3IRFs.cpp:280-291 | MATRIX entry i + nx*(j + ny*k) is bin (i+1, j+1, k+1) |
| Tables.MatrixColumnEntry | DL3-IRFs/src/VDL3IRFs.cpp:280-291 | every MATRIX entry is the bin its offset decodes to |
| Tables.EdispMatrix | DL3-IRFs/src/VDL3IRFs.cpp:280-290 | the triple loop, z outermost and x innermost, pushes exactly the MATRIX column |
| Tables.EdispTableData | DL3-IRFs/src/VDL3IRFs.cpp:277-291 | the energy dispersion table is the bin-edge columns followed by MATRIX |
| Tables.EdispTableMatchesSchema | DL3-IRFs/src/VDL3IRFs.cpp:209-248 | 7 columns, each as long as its declared "%dE" count, and MATRIX's count nx*nz*ny equals the product of its TDIM {nx, ny, nz} |
| Tables.ScaleOf | DL3-IRFs/src/VDL3IRFs.cpp:389-396 | SCALE is positive exactly when sigma is, then it is the inverse of 2 pi sigma; otherwise it is 0 |
| Tables.PsfColumnsAt | DL3-IRFs/src/VDL3IRFs.cpp:383-398 | SIGMA_1 entry i + nx*j is bin (i+1, j+1) times 0.6624305, and the SCALE entry beside it is its ScaleOf |
| Tables.PsfData | DL3-IRFs/src/VDL3IRFs.cpp:380-398 | the loop pushes exactly the SCALE and SIGMA_1 columns, and the all-zero column of nx*ny entries |
| Tables.PsfTableData | DL3-IRFs/src/VDL3IRFs.cpp:377-405 | the PSF table is the bin-edge columns, SCALE, SIGMA_1, then the zero column four times |
| Tables.PsfTableMatchesSchema | DL3-IRFs/src/VDL3IRFs.cpp:308-346 | 10 columns, each as long as its declared count, and columns 5 to 10 hold nx*ny entries, the product of their TDIM {nx, ny} |
| Tables.MevBackgroundNorm | DL3-IRFs/src/VDL3IRFs.cpp:506-524 | without the flag every factor is 1; with it, factor i is 1/DegToRad^2, further divided by (high - low edge)*1e6 when the edge columns cover bin i |
| Tables.BackgroundFactorConverts | DL3-IRFs/src/VDL3IRFs.cpp:510-522 | the background factor of energy bin i is positive, and multiplied by the square degree in sr and by the bin width in MeV it gives exactly 1 |
| Tables.Histo2DColumnAt | DL3-IRFs/src/VDL3IRFs.cpp:526-546 | data entry i + nx*j is bin (i+1, j+1) times norm[i] in background mode and bin (i+1, j+1) unchanged otherwise |
| Tables.Histo2DData | DL3-IRFs/src/VDL3IRFs.cpp:526-546 | the loop, y outer and x inner, pushes exactly the data column |
| Tables.Histo2DTableData | DL3-IRFs/src/VDL3IRFs.cpp:502-546 | the 2D table is the bin-edge columns and the data column, whose factors are BackgroundFactor of each energy bin in background mode |
| Tables.Histo2DTableMatchesSchema | DL3-IRFs/src/VDL3IRFs.cpp:452-475 | 5 columns, each as long as its declared count, and the data column holds nx*ny entries, the product of its TDIM {nx, ny} |
| Fits.FitsFile.Issue | DL3-IRFs/src/VDL3IRFs.cpp:558-569 | a library call is appended to the file's log and succeeds exactly when its position is not one the library rejects |
| Fits.FirstFailure | DL3-IRFs/src/VDL3IRFs.cpp:556-570 | the index of the first rejected call among the planned ones, or their number when none is rejected |
| Fits.RanUntilFailureMeans | DL3-IRFs/src/VDL3IRFs.cpp:552-573 | a run succeeds exactly when no planned call is rejected and then made every call; a failed run ends with the first rejected call and made none after it |
| Fits.RanOneMore | DL3-IRFs/src/VDL3IRFs.cpp:556-570 | after a successful run, one more call extends the run and decides its outcome |
| Fits.RanFailureStops | DL3-IRFs/src/VDL3IRFs.cpp:566-569 | after a failure, the remaining planned calls are not made |
| Fits.RanConcat | DL3-IRFs/src/VDL3IRFs.cpp:293-296 | a successful run followed by a run of the next calls is one run of both, with the second run's outcome |
| Fits.ProductOfThree | DL3-IRFs/src/VDL3IRFs.cpp:264-270 | the TDIM {nx, ny, nz} describes nx*ny*nz entries |
| Writers.IrfWriter.WriteTable | DL3-IRFs/src/VDL3IRFs.cpp:552-573 | column i+1 is written from table[i], in order, stopping at the first rejected write; true only when every column was written |
| Writers.IrfWriter.WriteEdisp | DL3-IRFs/src/VDL3IRFs.cpp:199-297 | null: false and no call; otherwise the rows are normalised, then ENERGY DISPERSION is created, MATRIX gets TDIM {nx, ny, nz} and the 7 columns are written, stopping at the first failure |
| Writers.IrfWriter.WritePsfGauss | DL3-IRFs/src/VDL3IRFs.cpp:303-411 | null: false and no call; otherwise POINT SPREAD FUNCTION is created, its TDIMs set and its 10 columns written, stopping at the first failure |
| Writers.IrfWriter.CreatePsfTable | DL3-IRFs/src/VDL3IRFs.cpp:349-374 | creates the PSF table and then sets the TDIMs, stopping at the first failure |
| Writers.IrfWriter.WritePsfTdims | DL3-IRFs/src/VDL3IRFs.cpp:362-374 | columns 5 to 10 get TDIM {nx, ny} in order, stopping at the first failure |
| Writers.IrfWriter.WriteHisto2D | DL3-IRFs/src/VDL3IRFs.cpp:443-549 | null: false and no call; otherwise the table `name` is created, its data column gets TDIM {nx, ny} and the 5 columns are written, stopping at the first failure |
| Writers.IrfWriter.WriteBackground | DL3-IRFs/src/VDL3IRFs.cpp:417-425 | write_histo2D as BACKGROUND, column BKG in s^-1 MeV^-1 sr^-1, with the background factors |
| Writers.IrfWriter.WriteEffArea | DL3-IRFs/src/VDL3IRFs.cpp:432-440 | write_histo2D as EFFECTIVE AREA, column EFFAREA in m**2, contents unscaled |
| Writers.EdispPlanAgrees | DL3-IRFs/src/VDL3IRFs.cpp:209-291 | write_edisp's calls create one table, give TDIMs matching declared counts, and write every declared column once, in order, with its declared length |
| Writers.PsfPlanAgrees | DL3-IRFs/src/VDL3IRFs.cpp:308-405 | the same agreement for write_psf_gauss |
| Writers.Histo2DPlanAgrees | DL3-IRFs/src/VDL3IRFs.cpp:452-546 | the same agreement for write_histo2D |
| Header.HduClas2 | DL3-IRFs/src/VDL3IRFs.cpp:116-139 | HDUCLAS2 is written exactly for PSF_3GAUSS, BKG_2D, AEFF_2D and EDISP_2D, as one of PSF, BKG, EFF_AREA and EDISP |
| Header.HduClas2RoundTrip | DL3-IRFs/src/VDL3IRFs.cpp:116-139 | the HDUCLAS2 value of a known IRF type reads back as that type |
| Header.HduClas2Injective | DL3-IRFs/src/VDL3IRFs.cpp:116-139 | distinct IRF types never get the same HDUCLAS2 value |

## Left out

- CFITSIO internals are not modelled: what the library writes into the file, and why it rejects a call. A call is recorded with its arguments, and which calls fail is an input, `FitsFile.failing`.
- `open_fits_file`, `write_fits_file`, `write_fits_header` and `write_fits_keyword` are not modelled. They are thin wrappers of one or two library calls around the core, each stopping at the first error, and they are not part of the call log.
- `write_fits_table_header` is modelled only through its HDUCLAS2 choice (`Header.HduClas2`). Its keyword calls are not part of the call log, and neither is the wall-clock DATE keyword. Its outcome never affects a writer's result.
- `printerror` is modelled only as its result, which is always false. The error report on stderr is left out.
- Console output (`cout`) is left out.
- Floating point is left out: bins, edges and factors are reals. Single- and double-precision rounding, and narrowing to float on `push_back`, are not modelled, so a normalised row sums to exactly 1 only in this model.
- `TMath::Power(10, x)` is a parameter `pow10`, not 10^x itself. The model assumes only that it is strictly increasing, and only in background mode.
- The `sprintf`-built "%dE" forms are modelled as the repeat count of each column (`ColumnSpec.repeat`). Their text is not modelled.
- The unused `nRows` product is not modelled. The code overwrites it with 0 before `fits_create_tbl`, and the model passes 0.
- ROOT's under- and overflow bins, and TAxis internals beyond the bin edges, are not modelled. The code never reads under- or overflow bins.
- `&table[i][0]` for an empty column is not modelled. Every modelled axis has at least one bin, so no column is empty.
- Tables.MevBackgroundNorm: requires every covered energy bin to have non-zero width. The code would divide by zero there and write an infinite factor, which reals cannot express. Widths computed from a valid axis through an increasing `pow10` are always positive.
- Writers.IrfWriter.WriteEdisp: the histogram must be a valid 3D histogram (`dim == 3`), as the `TH3F*` argument type ensures. The write methods for PSF and 2D tables likewise take valid 2D histograms (`TH2F*`).
