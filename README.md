# dat_plot core: demultiplexing and spectrum bookkeeping

`read.py` is a desktop tool that loads a raw file of interleaved integer samples,
splits it into 1 to 4 component streams and draws each component's waveform and
one-sided magnitude spectrum. This project models the integer and sequence logic
of `DataVisualizationApp.visualize_data` as pure Dafny functions and proves what
it guarantees:

- `outcome.dfy` (module `Outcome`): `Option`, `Result` and the three ways the
  computation stops (an empty file, a transform of an empty component, a maximum
  over an empty spectrum slice).
- `demultiplex.dfy` (module `Demultiplexer`): the strided slice `data[i::c]`
  (`Component`) and the list of all c of them (`Demultiplex`); their lengths,
  element positions, the partition of the buffer, and round-robin
  re-interleaving (`Interleave`, an independent definition) as the inverse.
- `spectrum.dfy` (module `Spectrum`): the bin count `length // 2`, the frequency
  axis and the slice `[:length // 2]` of each component's transform, as indices.
- `palette.dfy` (module `Palette`): the five selectable themes, the label lookup
  and each theme's four colours.
- `visualize.dfy` (module `Visualize`): the path from the emptiness check through
  the per-component drawing loop, as a `Result` of the panels drawn.

Consequences of the code worth knowing:

- Components are not truncated to `len(data) // components` samples: component
  i holds ceil((n - i) / c) samples, so the first `n % c` components are one
  sample longer (`Demultiplexer.ComponentLengthsBalanced`).
- A buffer shorter than two rounds of c samples gives no bin: whenever
  `0 < n < 2c` the slice `[:length // 2]` is empty and `np.max` of it at
  read.py:508 raises. The generic handler at read.py:518
  reports it, and nothing more is drawn. The model returns `Err(EmptyReduction)`
  (`Visualize.VisualizeOutcome`).
- There is no check of the sampling rate; it only scales the axis values,
  which are not modelled.
- The axis is `np.linspace(0, f_s/2, length // 2)`, whose last point is f_s/2
  when it has two or more points (with one point it holds only 0, with none
  it is empty). Only its number of points is modelled.

## Model

| member | source | states |
|---|---|---|
| `Demultiplexer.Component` | read.py:460 | `data[i::c]` has ceil((n - i) / c) samples (none when i >= n), and its sample j is `data[i + j*c]`, a position inside the buffer |
| `Demultiplexer.Demultiplex` | read.py:460 | the comprehension yields exactly c components; component i has the stride count as length, and its sample j is `data[i + j*c]` |
| `Demultiplexer.ComponentLength` | read.py:459-460 | for i < c, component i has `n // c` samples, plus one exactly when i < `n % c` |
| `Demultiplexer.ComponentLengthsBalanced` | read.py:459-460 | every component has `length = n // c` or `length + 1` samples; lengths do not increase with i and differ by at most one |
| `Demultiplexer.SingleComponent` | read.py:460 | with one component the single component is the whole buffer |
| `Demultiplexer.ComponentReaches` | read.py:460 | a position i + j*c inside the buffer is reached: component i has an index j |
| `Demultiplexer.PositionFound` | read.py:460 | buffer position k is sample k // c of component k % c |
| `Demultiplexer.PositionOwner` | read.py:460 | the position i + j*c (i < c) gives back both the component i and the index j |
| `Demultiplexer.EveryPositionKept` | read.py:460 | no sample is dropped: every position k < n is found at index k // c of component k % c |
| `Demultiplexer.PositionDeterminesSlot` | read.py:460 | every sample of every component comes from one buffer position, and that position is held by no other component or index |
| `Demultiplexer.Interleave` | read.py:460 | round-robin re-interleaving emits as many samples as the parts hold |
| `Demultiplexer.ComponentShift` | read.py:460 | dropping the first c samples of a buffer (c <= n) shifts each strided slice by one stride |
| `Demultiplexer.InterleaveRound` | read.py:460 | one round over the components of a non-empty buffer emits its first min(c, n) samples and leaves the components of the rest of the buffer |
| `Demultiplexer.InterleaveDemultiplex` | read.py:460 | re-interleaving the c components round-robin reproduces the buffer exactly |
| `Demultiplexer.LengthsSumToBuffer` | read.py:459-460 | the component lengths add up to the buffer length |
| `Demultiplexer.TenSamplesTwoComponents` | read.py:460 | any 10-sample buffer over two components gives its even positions and its odd positions (so samples 0..9 give 0, 2, 4, 6, 8 and 1, 3, 5, 7, 9) |
| `Demultiplexer.ElevenSamplesThreeComponents` | read.py:459-460 | 11 samples over three components give lengths 4, 4 and 3 (not 11 // 3), with component 1 holding positions 1, 4, 7, 10 |
| `Spectrum.HalfBins` | read.py:463 | `length // 2` is the largest bin count whose double fits in `length` |
| `Spectrum.FrequencyAxis` | read.py:463 | the axis has `length // 2` points |
| `Spectrum.HalfSpectrum` | read.py:498 | the sliced transform of a non-empty component keeps coefficients 0, 1, ... in order, min(bins, component length) of them; an empty component is refused |
| `Spectrum.BinsExist` | read.py:459-463 | at least one bin is drawn exactly when n >= 2c |
| `Spectrum.HalfSpectrumInBounds` | read.py:498 | `length // 2 <= length <= len(component i)`, so the slice never clamps: a non-empty component keeps exactly coefficients 0 .. length//2 - 1. That is as many as the axis has points, each strictly below half the component's length |
| `Palette.ThemeLabels` | read.py:184 | the selector offers five distinct theme labels |
| `Palette.ThemeNamed` | read.py:441-450 | a label picks a theme exactly when it is one of the five offered, and then it picks the theme with that label |
| `Palette.LabelRoundTrip` | read.py:441-450 | every theme's label is offered and picks that theme back |
| `Palette.Colors` | read.py:441-450 | every theme has exactly four colours (the largest component count), each a `#rrggbb` colour |
| `Visualize.ValidComponentCount` | read.py:153 | the component selector bounds c to 1..4; that bound is what keeps `colors[i]` in range, since c is at most the length of `Colors(t)` for every theme t |
| `Visualize.DrawFrom` | read.py:482-509 | the drawing loop stops only on a transform or maximum of nothing (for components produced by `Demultiplex`, which are never shorter than `length // 2`), and on success draws one panel per remaining component |
| `Visualize.DrawFromAll` | read.py:482-509 | when some bin is drawn and the components are long enough, every component is drawn in order: its own series, colour i, the axis, and coefficients 0 .. length//2 - 1 |
| `Visualize.DrawFromStep` | read.py:482-509 | one iteration: a component at least `length` long, with some bin to draw, is drawn with its own series, colour i, the axis and coefficients 0 .. length//2 - 1, in front of the later components |
| `Visualize.DrawFromNoBins` | read.py:498-509 | with no bin, a non-empty component stops the loop at the maximum of its empty spectrum slice |
| `Visualize.VisualizeData` | read.py:422-424 | the result is the empty-file warning exactly when the buffer is empty, before anything is split |
| `Visualize.VisualizeShortBuffer` | read.py:498-509 | a non-empty buffer shorter than two rounds of c samples stops at the maximum of the first component's empty spectrum slice |
| `Visualize.VisualizeFullBuffer` | read.py:459-509 | a buffer of at least two rounds of c samples draws exactly c panels: component i, colour i, `length // 2` axis points and coefficients 0 .. length//2 - 1 |
| `Visualize.VisualizeOutcome` | read.py:422-509 | empty buffer: rejected; 0 < n < 2c: stops at the first spectrum maximum, so an empty component is never transformed; n >= 2c: exactly c panels, panel i with component i, colour i (in bounds since c <= 4), and `length // 2` axis points and coefficients |

## Left out

- The Qt window, widgets, style sheets, dialogs and message boxes (read.py:27-405, 521-551) are presentation. The two selectors appear only as their ranges: the component count 1..4 and the five theme labels.
- The check that a file was chosen (read.py:408-410) is a UI guard before any data exists.
- File loading (`np.fromfile`, `np.loadtxt`) and the 32-bit cast (read.py:414-419) are I/O and library calls. Samples are unbounded integers here.
- The parse of the sampling rate (read.py:428) is a library call. Its failure reaches the same generic handler; the rate affects only axis values, which are not modelled.
- Transform values, absolute magnitudes, `np.linspace` frequency values and the y-limit from `np.max` (read.py:463, 498, 508-509) are floating point in a foreign library. Only counts, kept indices and the failure of `np.max` on an empty slice are modelled.
- Plot styling, titles and label language, subplot layout and reshaping, `tight_layout`, drawing and export (read.py:19-24, 431-438, 452-456, 465-481, 485-497, 499-507, 511-516, 538-539) are rendering.
- Everything drawn before the loop stops is not modelled; the model returns only the error kind. The generic handler (read.py:518-519) is reduced to that kind.
