/**
 * The outline panel: the border-width text input, which forwards a width
 * only when the text is a number in [0, 100], and the color picker, which
 * forwards every color it reports.
 */
module Outline {
  import opened Wrappers
  import opened JsNumber

  datatype OutlineEdit = WidthTyped(text: string) | ColorPicked(color: string)

  /** The value handed to the throttled border-width or border-color callback. */
  datatype OutlineChange = BorderWidth(width: real) | BorderColor(color: string)

  const MaxBorderWidth: real := 100.0

  /** The width input's test: empty text passes the first guard, but only non-empty text is forwarded. */
  function OnOutlineEdit(parse: Parser, e: OutlineEdit): (r: Option<OutlineChange>)
    ensures e.ColorPicked? ==> r == Some(BorderColor(e.color))
    ensures e.WidthTyped? ==>
      (r.Some? <==> e.text != "" && parse(e.text).Num? && 0.0 <= parse(e.text).value <= MaxBorderWidth)
    ensures e.WidthTyped? && r.Some? ==> r.value == BorderWidth(parse(e.text).value)
    ensures e.WidthTyped? && r.Some? ==> 0.0 <= r.value.width <= MaxBorderWidth
  {
    match e
    case ColorPicked(v) => Some(BorderColor(v))
    case WidthTyped(newValue) =>
      var n := Number(parse, newValue);
      if newValue == "" || (n.Num? && n.value >= 0.0 && n.value <= MaxBorderWidth) then
        if newValue != "" then Some(BorderWidth(n.value)) else None
      else None
  }
}
