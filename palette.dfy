/**
 * The colour themes of the plot: the labels offered by the theme selector, the
 * lookup from the selected label to a theme, and each theme's fixed list of
 * four colours, one per possible component.
 */
module Palette {
  import opened Outcome

  /** The largest component count the component selector allows (its range is 1..4). */
  const MaxComponents: nat := 4

  datatype Theme = Default | Warm | Cool | Grayscale | Rainbow

  /** The labels of the theme selector, in the order it offers them. */
  function ThemeLabels(): (labels: seq<string>)
    ensures |labels| == 5
    ensures forall k, l :: 0 <= k < l < |labels| ==> labels[k] != labels[l]
  {
    ["默认", "暖色调", "冷色调", "灰度", "彩虹色"]
  }

  /** The selector label of a theme. */
  function Label(t: Theme): string
  {
    match t
    case Default => ThemeLabels()[0]
    case Warm => ThemeLabels()[1]
    case Cool => ThemeLabels()[2]
    case Grayscale => ThemeLabels()[3]
    case Rainbow => ThemeLabels()[4]
  }

  /** The if/elif chain over the selected label. A label outside the chain picks no
      theme (the colour list is then never bound). */
  function ThemeNamed(name: string): (r: Option<Theme>)
    ensures r.Some? <==> name in ThemeLabels()
    ensures r.Some? ==> Label(r.value) == name
  {
    if name == ThemeLabels()[0] then Some(Default)
    else if name == ThemeLabels()[1] then Some(Warm)
    else if name == ThemeLabels()[2] then Some(Cool)
    else if name == ThemeLabels()[3] then Some(Grayscale)
    else if name == ThemeLabels()[4] then Some(Rainbow)
    else None
  }

  /** Every theme is offered by the selector, and selecting its label picks it back. */
  lemma LabelRoundTrip(t: Theme)
    ensures Label(t) in ThemeLabels()
    ensures ThemeNamed(Label(t)) == Some(t)
  {
  }

  /** A `#rrggbb` colour written with lower-case hexadecimal digits. */
  predicate IsHexColor(s: string)
  {
    |s| == 7 && s[0] == '#' && forall k :: 1 <= k < 7 ==> s[k] in "0123456789abcdef"
  }

  /** The colours of a theme: one per possible component, so `colors[i]` is in bounds
      for every component index i below the largest component count. */
  function Colors(t: Theme): (colors: seq<string>)
    ensures |colors| == MaxComponents
    ensures forall k :: 0 <= k < |colors| ==> IsHexColor(colors[k])
  {
    match t
    case Default => ["#3498db", "#2ecc71", "#e74c3c", "#9b59b6"]
    case Warm => ["#e74c3c", "#f39c12", "#f1c40f", "#d35400"]
    case Cool => ["#3498db", "#2980b9", "#1abc9c", "#3498db"]
    case Grayscale => ["#2c3e50", "#7f8c8d", "#bdc3c7", "#34495e"]
    case Rainbow => ["#e74c3c", "#f1c40f", "#2ecc71", "#3498db"]
  }
}
