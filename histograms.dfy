/** The instrument-response histograms handed to the writer: ROOT's TH2F and
    TH3F reduced to what the conversion reads and writes, namely three binned
    axes and a dense block of bin contents. */
module Histograms {

  /** A binned axis as ROOT's TAxis keeps it: bin b (1 <= b <= NBins())
      spans [edges[b-1], edges[b]], and the edges are strictly increasing. */
  datatype Axis = Axis(edges: seq<real>)
  {
    predicate Valid()
    {
      && |edges| >= 2
      && forall a, b | 0 <= a < b < |edges| :: edges[a] < edges[b]
    }

    function NBins(): nat
    {
      if |edges| == 0 then 0 else |edges| - 1
    }

    /** TAxis::GetBinLowEdge(b). */
    function BinLowEdge(b: int): (low: real)
      requires Valid() && 1 <= b <= NBins()
      ensures low < BinUpEdge(b)
    {
      edges[b - 1]
    }

    /** TAxis::GetBinUpEdge(b). */
    function BinUpEdge(b: int): real
      requires Valid() && 1 <= b <= NBins()
    {
      edges[b]
    }

    /** The low edges of bins 1..NBins(), in order. */
    function LowEdges(): (lows: seq<real>)
      requires Valid()
      ensures |lows| == NBins()
      ensures forall b | 1 <= b <= NBins() :: lows[b - 1] == BinLowEdge(b)
    {
      edges[..NBins()]
    }

    /** The up edges of bins 1..NBins(), in order. */
    function UpEdges(): (ups: seq<real>)
      requires Valid()
      ensures |ups| == NBins()
      ensures forall b | 1 <= b <= NBins() :: ups[b - 1] == BinUpEdge(b)
    {
      edges[1..]
    }
  }

  /** A 2D or 3D histogram. The content of bin (i, j, k), 1-based as in
      GetBinContent(i, j, k), is bins[i-1, j-1, k-1]. A 2D histogram has a
      single z bin, as a TH2 does, and its bin (i, j) is bins[i-1, j-1, 0].
      Under- and overflow bins are not part of the model. */
  class Histogram {
    const dim: nat
    const xAxis: Axis
    const yAxis: Axis
    const zAxis: Axis
    const bins: array3<real>

    /** The axes describe the bin block, and a 2D histogram has one z layer. */
    predicate Valid()
    {
      && (dim == 2 || dim == 3)
      && xAxis.Valid() && yAxis.Valid() && zAxis.Valid()
      && xAxis.NBins() == bins.Length0
      && yAxis.NBins() == bins.Length1
      && zAxis.NBins() == bins.Length2
      && (dim == 2 ==> bins.Length2 == 1)
    }

    function NbinsX(): nat { bins.Length0 }
    function NbinsY(): nat { bins.Length1 }
    function NbinsZ(): nat { bins.Length2 }

    /** TH3::GetBinContent(i, j, k), 1-based. */
    function GetBinContent(i: int, j: int, k: int): real
      reads bins
      requires 1 <= i <= NbinsX() && 1 <= j <= NbinsY() && 1 <= k <= NbinsZ()
    {
      bins[i - 1, j - 1, k - 1]
    }

    /** TH3::SetBinContent(i, j, k, v), 1-based: only that bin changes. */
    method SetBinContent(i: int, j: int, k: int, v: real)
      requires 1 <= i <= NbinsX() && 1 <= j <= NbinsY() && 1 <= k <= NbinsZ()
      modifies bins
      ensures bins[i - 1, j - 1, k - 1] == v
      ensures forall x, y, z | 0 <= x < NbinsX() && 0 <= y < NbinsY() && 0 <= z < NbinsZ()
                && (x, y, z) != (i - 1, j - 1, k - 1) :: bins[x, y, z] == old(bins[x, y, z])
    {
      bins[i - 1, j - 1, k - 1] := v;
    }
  }

  /** The migration row of a 3D histogram at true-energy bin x and offset bin
      z (0-based): the contents along the y axis. */
  ghost function Row(h: Histogram, x: int, z: int): (r: seq<real>)
    reads h.bins
    requires 0 <= x < h.NbinsX() && 0 <= z < h.NbinsZ()
    ensures |r| == h.NbinsY()
    ensures forall y | 0 <= y < h.NbinsY() :: r[y] == h.bins[x, y, z]
  {
    seq(h.NbinsY(), y requires 0 <= y < h.NbinsY() reads h.bins => h.bins[x, y, z])
  }
}
