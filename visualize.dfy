/**
 * The computational path of `visualize_data`: reject an empty buffer, split it
 * into components, then for each component in turn take the time series, the
 * colour and the one-sided spectrum that are drawn. The drawing itself is not
 * modelled; a component's drawing is represented by what it is given.
 */
module Visualize {
  import opened Outcome
  import opened Demultiplexer
  import opened Spectrum
  import opened Palette

  /** The component counts the component selector can produce (1..4). Every theme
      has a colour for each of them, so `colors[i]` is in range for every i < c. */
  predicate ValidComponentCount(c: int)
    ensures ValidComponentCount(c) ==> forall t: Theme :: 0 < c <= |Colors(t)|
  {
    1 <= c <= MaxComponents
  }

  /** What is drawn for one component: its time series with its colour (top row) and
      its spectrum, a frequency axis against the kept coefficients (bottom row). */
  datatype Panel = Panel(series: seq<int>, color: string, axis: seq<nat>, kept: seq<nat>)

  /** The drawing loop from component i on. Each component's transform is sliced to
      `length // 2` coefficients; taking the maximum of an empty slice (for the
      y-axis limit) raises, which ends the whole loop. For parts produced by
      `Demultiplex` these are the only ways it stops: a non-empty component is
      never shorter than `length // 2` (`HalfSpectrumInBounds`), so plotting the
      axis against the kept coefficients, which would raise on unequal lengths,
      always gets two sequences of the same length. */
  function DrawFrom(parts: seq<seq<int>>, colors: seq<string>, length: nat, i: nat): (r: Result<seq<Panel>>)
    requires i <= |parts| <= |colors|
    ensures r.Err? ==> r.error in {EmptyTransform, EmptyReduction}
    ensures r.Ok? ==> |r.value| == |parts| - i
    decreases |parts| - i
  {
    if i == |parts| then Ok([])
    else
      match HalfSpectrum(parts[i], HalfBins(length))
      case Err(e) => Err(e)
      case Ok(kept) =>
        if kept == [] then Err(EmptyReduction)
        else
          match DrawFrom(parts, colors, length, i + 1)
          case Err(e) => Err(e)
          case Ok(rest) => Ok([Panel(parts[i], colors[i], FrequencyAxis(length), kept)] + rest)
  }

  /** When some bin is drawn and every remaining component is at least `length` long,
      every remaining component is drawn, in order, with its own colour, the full
      frequency axis and exactly the coefficients 0 .. length // 2 - 1. */
  lemma {:induction false} DrawFromAll(parts: seq<seq<int>>, colors: seq<string>, length: nat, i: nat)
    requires i <= |parts| <= |colors|
    requires HalfBins(length) >= 1
    requires forall j :: i <= j < |parts| ==> |parts[j]| >= length
    ensures DrawFrom(parts, colors, length, i).Ok?
    ensures forall j :: i <= j < |parts| ==>
              DrawFrom(parts, colors, length, i).value[j - i]
                == Panel(parts[j], colors[j], FrequencyAxis(length), Indices(HalfBins(length)))
    decreases |parts| - i
  {
    if i < |parts| {
      DrawFromAll(parts, colors, length, i + 1);
      DrawFromStep(parts, colors, length, i);
      var all, rest := DrawFrom(parts, colors, length, i).value, DrawFrom(parts, colors, length, i + 1).value;
      forall j | i < j < |parts|
        ensures all[j - i] == Panel(parts[j], colors[j], FrequencyAxis(length), Indices(HalfBins(length)))
      {
        assert all[j - i] == rest[j - (i + 1)];
      }
    }
  }

  /** One step of the loop: a component at least `length` long, with some bin to draw,
      is drawn in front of the components after it. */
  lemma DrawFromStep(parts: seq<seq<int>>, colors: seq<string>, length: nat, i: nat)
    requires i < |parts| <= |colors|
    requires HalfBins(length) >= 1 && |parts[i]| >= length
    requires DrawFrom(parts, colors, length, i + 1).Ok?
    ensures DrawFrom(parts, colors, length, i)
              == Ok([Panel(parts[i], colors[i], FrequencyAxis(length), Indices(HalfBins(length)))]
                    + DrawFrom(parts, colors, length, i + 1).value)
  {
    var bins := HalfBins(length);
    assert Indices(|parts[i]|)[..bins] == Indices(bins);
  }

  /** When no bin is drawn, the first component that holds a sample stops the loop. */
  lemma DrawFromNoBins(parts: seq<seq<int>>, colors: seq<string>, length: nat, i: nat)
    requires i < |parts| <= |colors|
    requires HalfBins(length) == 0 && parts[i] != []
    ensures DrawFrom(parts, colors, length, i) == Err(EmptyReduction)
  {
  }

  /** `visualize_data` from the emptiness check on, for a component count allowed by the
      selector and a theme picked by the theme selector. */
  function VisualizeData(data: seq<int>, c: nat, theme: Theme): (r: Result<seq<Panel>>)
    requires ValidComponentCount(c)
    ensures r == Err(EmptyFile) <==> data == []
  {
    if data == [] then Err(EmptyFile)
    else DrawFrom(Demultiplex(data, c), Colors(theme), |data| / c, 0)
  }

  /** A buffer shorter than two rounds of c samples gives no bin: the loop stops at the
      maximum of the first component's empty spectrum slice. */
  lemma VisualizeShortBuffer(data: seq<int>, c: nat, theme: Theme)
    requires ValidComponentCount(c) && 0 < |data| < 2 * c
    ensures VisualizeData(data, c, theme) == Err(EmptyReduction)
  {
    var parts, length := Demultiplex(data, c), |data| / c;
    assert VisualizeData(data, c, theme) == DrawFrom(parts, Colors(theme), length, 0);
    BinsExist(|data|, c);
    PositionFound(data, c, 0);
    DrawFromNoBins(parts, Colors(theme), length, 0);
  }

  /** A buffer of at least two rounds of c samples draws every component: component i
      with colour i, a frequency axis of length // 2 points and as many coefficients. */
  lemma VisualizeFullBuffer(data: seq<int>, c: nat, theme: Theme)
    requires ValidComponentCount(c) && |data| >= 2 * c
    ensures VisualizeData(data, c, theme).Ok?
    ensures var panels := VisualizeData(data, c, theme).value;
              && |panels| == c
              && forall i :: 0 <= i < c ==>
                   && panels[i].series == Demultiplex(data, c)[i]
                   && panels[i].color == Colors(theme)[i]
                   && |panels[i].axis| == |panels[i].kept| == HalfBins(|data| / c)
                   && panels[i].kept == Indices(HalfBins(|data| / c))
  {
    var parts, length := Demultiplex(data, c), |data| / c;
    assert VisualizeData(data, c, theme) == DrawFrom(parts, Colors(theme), length, 0);
    BinsExist(|data|, c);
    ComponentLengthsBalanced(data, c);
    DrawFromAll(parts, Colors(theme), length, 0);
    var panels := VisualizeData(data, c, theme).value;
    forall i | 0 <= i < c
      ensures panels[i] == Panel(parts[i], Colors(theme)[i], FrequencyAxis(length), Indices(HalfBins(length)))
    {
      assert panels[i - 0] == panels[i];
    }
  }

  /** The outcome of a visualisation: an empty buffer is rejected before any split;
      a buffer shorter than two rounds of c samples stops at the first spectrum's
      maximum (so an empty component is never transformed); otherwise exactly c
      components are drawn, component i showing the samples at positions congruent
      to i modulo c, colour i of the theme, a frequency axis of length // 2 points
      and exactly as many coefficients. */
  lemma VisualizeOutcome(data: seq<int>, c: nat, theme: Theme)
    requires ValidComponentCount(c)
    ensures VisualizeData(data, c, theme) == Err(EmptyFile) <==> data == []
    ensures VisualizeData(data, c, theme) == Err(EmptyReduction) <==> 0 < |data| < 2 * c
    ensures VisualizeData(data, c, theme).Ok? <==> |data| >= 2 * c
    ensures VisualizeData(data, c, theme) != Err(EmptyTransform)
    ensures VisualizeData(data, c, theme).Ok? ==>
              var panels := VisualizeData(data, c, theme).value;
              && |panels| == c
              && forall i :: 0 <= i < c ==>
                   && panels[i].series == Demultiplex(data, c)[i]
                   && panels[i].color == Colors(theme)[i]
                   && |panels[i].axis| == |panels[i].kept| == HalfBins(|data| / c)
                   && panels[i].kept == Indices(HalfBins(|data| / c))
  {
    if |data| >= 2 * c {
      VisualizeFullBuffer(data, c, theme);
    } else if data != [] {
      VisualizeShortBuffer(data, c, theme);
    }
  }
}
