/** normalise_pdf: every (true energy, offset) row of an energy-dispersion
    histogram is turned into a probability distribution over the migration
    axis, or cleared when it holds too few entries to be useful. */
module Pdf {
  import opened Histograms

  /** A row whose total is at most this is cleared rather than normalised. */
  const MinEntries: real := 10.0

  /** Sum of a row, accumulated from the first bin on as the code's loop does. */
  function Sum(s: seq<real>): real
  {
    if s == [] then 0.0 else Sum(s[..|s| - 1]) + s[|s| - 1]
  }

  /** What normalise_pdf makes of one row: each bin divided by the row total
      when that total exceeds MinEntries, every bin zero otherwise. */
  function NormaliseRow(r: seq<real>): (n: seq<real>)
    ensures |n| == |r|
  {
    var total := Sum(r);
    if total > MinEntries then Scaled(r, total) else seq(|r|, k => 0.0)
  }

  /** Each entry of r divided by c. */
  function Scaled(r: seq<real>, c: real): (s: seq<real>)
    requires c != 0.0
    ensures |s| == |r|
  {
    seq(|r|, k requires 0 <= k < |r| => r[k] / c)
  }

  lemma {:induction false} SumScaled(r: seq<real>, c: real)
    requires c != 0.0
    ensures Sum(Scaled(r, c)) == Sum(r) / c
  {
    if r != [] {
      var n := |r| - 1;
      assert Scaled(r, c)[..n] == Scaled(r[..n], c);
      SumScaled(r[..n], c);
      assert Sum(r) == Sum(r[..n]) + r[n];
    }
  }

  lemma {:induction false} SumOfZeros(n: nat)
    ensures Sum(seq(n, k => 0.0)) == 0.0
  {
    if n > 0 {
      assert seq(n, k => 0.0)[..n - 1] == seq(n - 1, k => 0.0);
      SumOfZeros(n - 1);
    }
  }

  /** In a row of non-negative contents no single bin exceeds the total. */
  lemma {:induction false} EntryAtMostSum(r: seq<real>, k: int)
    requires forall m | 0 <= m < |r| :: r[m] >= 0.0
    requires 0 <= k < |r|
    ensures 0.0 <= r[k] <= Sum(r)
  {
    var n := |r| - 1;
    SumNonNegative(r[..n]);
    if k < n {
      EntryAtMostSum(r[..n], k);
    }
  }

  lemma {:induction false} SumNonNegative(r: seq<real>)
    requires forall m | 0 <= m < |r| :: r[m] >= 0.0
    ensures Sum(r) >= 0.0
  {
    if r != [] {
      SumNonNegative(r[..|r| - 1]);
    }
  }

  /** A row with more than MinEntries entries becomes a probability
      distribution: each bin is its old content over the old total, and the
      new bins add up to one. */
  lemma NormalisedRowSumsToOne(r: seq<real>)
    requires Sum(r) > MinEntries
    ensures forall k | 0 <= k < |r| :: NormaliseRow(r)[k] == r[k] / Sum(r)
    ensures Sum(NormaliseRow(r)) == 1.0
  {
    SumScaled(r, Sum(r));
    assert Sum(r) / Sum(r) == 1.0;
  }

  /** A row with at most MinEntries entries is cleared. */
  lemma SparseRowCleared(r: seq<real>)
    requires Sum(r) <= MinEntries
    ensures forall k | 0 <= k < |r| :: NormaliseRow(r)[k] == 0.0
    ensures Sum(NormaliseRow(r)) == 0.0
  {
    SumOfZeros(|r|);
  }

  /** Histogram contents are non-negative counts; their normalised row holds
      probabilities. */
  lemma NormalisedEntriesAreProbabilities(r: seq<real>)
    requires forall m | 0 <= m < |r| :: r[m] >= 0.0
    ensures forall k | 0 <= k < |r| :: 0.0 <= NormaliseRow(r)[k] <= 1.0
  {
    forall k | 0 <= k < |r|
      ensures 0.0 <= NormaliseRow(r)[k] <= 1.0
    {
      if Sum(r) > MinEntries {
        EntryAtMostSum(r, k);
        assert NormaliseRow(r)[k] == r[k] / Sum(r);
      }
    }
  }

  /** Normalising is not idempotent: a normalised row totals 1 (or 0), which
      is below the threshold, so a second pass clears every row. */
  lemma NormaliseTwiceClears(r: seq<real>)
    ensures forall k | 0 <= k < |r| :: NormaliseRow(NormaliseRow(r))[k] == 0.0
  {
    if Sum(r) > MinEntries {
      NormalisedRowSumsToOne(r);
    } else {
      SparseRowCleared(r);
    }
    SparseRowCleared(NormaliseRow(r));
  }

  /** normalise_pdf(h): rewrites every migration row of h in place; a null
      histogram is left alone (the frame is empty then). */
  method NormalisePdf(h: Histogram?)
    modifies if h == null then {} else {h.bins}
    ensures h != null ==>
      forall x, y, z | 0 <= x < h.NbinsX() && 0 <= y < h.NbinsY() && 0 <= z < h.NbinsZ() ::
        h.bins[x, y, z] == NormaliseRow(old(Row(h, x, z)))[y]
  {
    if h == null {
      return;
    }
    var nx, ny, nz := h.NbinsX(), h.NbinsY(), h.NbinsZ();
    // off-axis bins
    for j := 0 to nz
      invariant forall x, y, z | 0 <= x < nx && 0 <= y < ny && 0 <= z < j ::
        h.bins[x, y, z] == NormaliseRow(old(Row(h, x, z)))[y]
      invariant forall x, y, z | 0 <= x < nx && 0 <= y < ny && j <= z < nz ::
        h.bins[x, y, z] == old(h.bins[x, y, z])
    {
      // true-energy bins
      for i := 0 to nx
        invariant forall x, y, z | 0 <= x < nx && 0 <= y < ny && 0 <= z < nz && (z < j || (z == j && x < i)) ::
          h.bins[x, y, z] == NormaliseRow(old(Row(h, x, z)))[y]
        invariant forall x, y, z | 0 <= x < nx && 0 <= y < ny && 0 <= z < nz && (z > j || (z == j && x >= i)) ::
          h.bins[x, y, z] == old(h.bins[x, y, z])
      {
        assert Row(h, i, j) == old(Row(h, i, j));
        NormaliseRowInPlace(h, i, j);
      }
    }
  }

  /** One pass of normalise_pdf's loop body: the row at true-energy bin i and
      offset bin j is summed, then divided by its total or cleared; no other
      bin changes. */
  method NormaliseRowInPlace(h: Histogram, i: int, j: int)
    requires 0 <= i < h.NbinsX() && 0 <= j < h.NbinsZ()
    modifies h.bins
    ensures forall y | 0 <= y < h.NbinsY() :: h.bins[i, y, j] == NormaliseRow(old(Row(h, i, j)))[y]
    ensures forall x, y, z | 0 <= x < h.NbinsX() && 0 <= y < h.NbinsY() && 0 <= z < h.NbinsZ() && (x != i || z != j) ::
      h.bins[x, y, z] == old(h.bins[x, y, z])
  {
    var nx, ny, nz := h.NbinsX(), h.NbinsY(), h.NbinsZ();
    ghost var r := Row(h, i, j);
    var sum := 0.0;
    for k := 0 to ny
      invariant sum == Sum(r[..k])
    {
      assert r[..k + 1][..k] == r[..k];
      sum := sum + h.GetBinContent(i + 1, k + 1, j + 1);
    }
    assert r[..ny] == r;
    // require more than MinEntries entries to be useful
    if sum > MinEntries {
      for k := 0 to ny
        invariant forall y | 0 <= y < k :: h.bins[i, y, j] == r[y] / sum
        invariant forall y | k <= y < ny :: h.bins[i, y, j] == r[y]
        invariant forall x, y, z | 0 <= x < nx && 0 <= y < ny && 0 <= z < nz && (x != i || z != j) ::
          h.bins[x, y, z] == old(h.bins[x, y, z])
      {
        h.SetBinContent(i + 1, k + 1, j + 1, h.GetBinContent(i + 1, k + 1, j + 1) / sum);
      }
    } else {
      // otherwise set all bins to zero
      for k := 0 to ny
        invariant forall y | 0 <= y < k :: h.bins[i, y, j] == 0.0
        invariant forall x, y, z | 0 <= x < nx && 0 <= y < ny && 0 <= z < nz && (x != i || z != j) ::
          h.bins[x, y, z] == old(h.bins[x, y, z])
      {
        h.SetBinContent(i + 1, k + 1, j + 1, 0.0);
      }
    }
  }
}
