/**
 * Index bookkeeping of the one-sided spectrum drawn for each component: how many
 * frequency points the axis has and which transform coefficients are kept. The
 * values themselves (transform, magnitudes, frequencies in Hz) are not modelled;
 * a point or a coefficient is represented by its index.
 */
module Spectrum {
  import opened Outcome
  import Demultiplexer

  /** `length // 2`: the number of bins drawn per component. */
  function HalfBins(length: nat): (bins: nat)
    ensures 2 * bins <= length < 2 * bins + 2
  {
    length / 2
  }

  /** The positions 0 .. count - 1. */
  function Indices(count: nat): (r: seq<nat>)
    ensures |r| == count
    ensures forall k :: 0 <= k < count ==> r[k] == k
  {
    seq(count, k => k)
  }

  /** The frequency axis `np.linspace(0, f_s/2, length // 2)`, one index per point. */
  function FrequencyAxis(length: nat): (axis: seq<nat>)
    ensures 2 * |axis| <= length < 2 * |axis| + 2
  {
    Indices(HalfBins(length))
  }

  /** Python's slice `xs[:m]`: the first m elements, or all of them when there are fewer. */
  function Take<T>(xs: seq<T>, m: nat): (r: seq<T>)
    ensures r <= xs
    ensures |r| == if m <= |xs| then m else |xs|
  {
    if m <= |xs| then xs[..m] else xs
  }

  /** `np.abs(np.fft.fft(series)[:bins])`, as the indices of the coefficients kept:
      the transform has one coefficient per sample and refuses an empty series;
      taking absolute values keeps the count. */
  function HalfSpectrum(series: seq<int>, bins: nat): (r: Result<seq<nat>>)
    ensures r.Err? <==> series == []
    ensures r.Err? ==> r.error == EmptyTransform
    ensures r.Ok? ==> |r.value| == (if bins <= |series| then bins else |series|)
    ensures r.Ok? ==> forall k :: 0 <= k < |r.value| ==> r.value[k] == k && k < |series|
  {
    if series == [] then Err(EmptyTransform) else Ok(Take(Indices(|series|), bins))
  }

  /** Some bin is drawn exactly when the buffer holds at least two full rounds of c samples. */
  lemma BinsExist(n: nat, c: nat)
    requires c >= 1
    ensures HalfBins(n / c) >= 1 <==> n >= 2 * c
  {
    var q := n / c;
    assert n == q * c + n % c;
    if q >= 2 {
      Demultiplexer.MultipleAtLeast(q - 1, c);
      assert q * c == (q - 1) * c + c;
    } else if q == 1 {
      assert n == c + n % c;
    }
  }

  /** The slice `[:length // 2]` of every component's transform is in bounds, because
      length // 2 <= length <= the component's length; so a non-empty component keeps
      exactly the coefficients 0 .. length // 2 - 1, as many as the frequency axis has
      points, and every kept coefficient k lies strictly below half the component's
      length (the mirrored upper half and the Nyquist coefficient are discarded). */
  lemma HalfSpectrumInBounds(data: seq<int>, c: nat, i: nat)
    requires 1 <= c && i < c
    ensures HalfBins(|data| / c) <= |data| / c <= |Demultiplexer.Demultiplex(data, c)[i]|
    ensures Demultiplexer.Demultiplex(data, c)[i] != [] ==>
              var r := HalfSpectrum(Demultiplexer.Demultiplex(data, c)[i], HalfBins(|data| / c));
              && r == Ok(Indices(HalfBins(|data| / c)))
              && |r.value| == |FrequencyAxis(|data| / c)|
              && forall k :: 0 <= k < |r.value| ==> 2 * r.value[k] < |Demultiplexer.Demultiplex(data, c)[i]|
  {
    Demultiplexer.ComponentLengthsBalanced(data, c);
    var series, bins := Demultiplexer.Demultiplex(data, c)[i], HalfBins(|data| / c);
    assert Indices(|series|)[..bins] == Indices(bins);
  }
}
