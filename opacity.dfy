/**
 * The opacity panel: a number input whose value is forwarded when it lies
 * in [0, 100], and a slider over [0, 100] that forwards its first value.
 */
module Opacity {
  import opened Wrappers
  import opened JsNumber

  /** A slider's declared bounds and step. */
  datatype SliderRange = SliderRange(min: real, max: real, step: real)

  const OpacitySlider := SliderRange(0.0, 100.0, 1.0)

  /** A typed text, or a slider report: the values array, never empty. */
  datatype OpacityEdit = Typed(text: string) | Slid(first: real, rest: seq<real>)

  /** The value handed to the throttled `onChange`, if any. There is no empty-text check. */
  function OnOpacityEdit(parse: Parser, e: OpacityEdit): (r: Option<real>)
    ensures e.Slid? ==> r == Some(e.first)
    ensures e.Typed? && e.text == "" ==> r == Some(0.0)
    ensures e.Typed? && e.text != "" ==>
      (r.Some? <==> parse(e.text).Num? && 0.0 <= parse(e.text).value <= 100.0)
    ensures e.Typed? && e.text != "" && r.Some? ==> r.value == parse(e.text).value
    ensures e.Typed? && r.Some? ==> OpacitySlider.min <= r.value <= OpacitySlider.max
  {
    match e
    case Typed(t) =>
      var newValue := Number(parse, t);
      if newValue.Num? && newValue.value >= 0.0 && newValue.value <= 100.0 then Some(newValue.value) else None
    case Slid(first, _) => Some(first)
  }
}
