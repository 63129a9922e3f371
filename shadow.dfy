/**
 * The shadow panel: edits of an `IBoxShadow` record. Each numeric input
 * forwards the record with one field replaced when its text is a
 * non-negative number; the color picker replaces the color.
 */
module Shadow {
  import opened Wrappers
  import opened JsNumber

  datatype BoxShadow = BoxShadow(color: string, x: real, y: real, blur: real)

  datatype ShadowEdit =
    | ColorPicked(color: string)
    | XTyped(text: string)
    | YTyped(text: string)
    | BlurTyped(text: string)

  /** What the three numeric inputs accept: non-empty text that converts to a number `>= 0`. */
  predicate Accepts(parse: Parser, text: string): (b: bool)
    ensures b <==> text != "" && Number(parse, text).Num? && Number(parse, text).value >= 0.0
  {
    text != "" && parse(text).Num? && parse(text).value >= 0.0
  }

  /** The guard the three numeric inputs share: the number to forward, if any. */
  function NonNegativeInput(parse: Parser, newValue: string): (r: Option<real>)
    ensures r.Some? <==> Accepts(parse, newValue)
    ensures r.Some? ==> r.value == parse(newValue).value && r.value >= 0.0
  {
    var n := Number(parse, newValue);
    if newValue == "" || (n.Num? && n.value >= 0.0) then
      if newValue != "" then Some(n.value) else None
    else None
  }

  /** The record handed to the throttled `onChange` for one edit of `value`, if any. */
  function OnShadowEdit(parse: Parser, value: BoxShadow, e: ShadowEdit): (r: Option<BoxShadow>)
    ensures e.ColorPicked? ==> r == Some(value.(color := e.color))
    ensures e.XTyped? ==> (r.Some? <==> Accepts(parse, e.text))
    ensures e.XTyped? && r.Some? ==> r.value == value.(x := parse(e.text).value)
    ensures e.YTyped? ==> (r.Some? <==> Accepts(parse, e.text))
    ensures e.YTyped? && r.Some? ==> r.value == value.(y := parse(e.text).value)
    ensures e.BlurTyped? ==> (r.Some? <==> Accepts(parse, e.text))
    ensures e.BlurTyped? && r.Some? ==> r.value == value.(blur := parse(e.text).value)
  {
    match e
    case ColorPicked(v) => Some(value.(color := v))
    case XTyped(t) =>
      var n := NonNegativeInput(parse, t);
      if n.Some? then Some(value.(x := n.value)) else None
    case YTyped(t) =>
      var n := NonNegativeInput(parse, t);
      if n.Some? then Some(value.(y := n.value)) else None
    case BlurTyped(t) =>
      var n := NonNegativeInput(parse, t);
      if n.Some? then Some(value.(blur := n.value)) else None
  }

  /** Applying an accepted edit to its own result forwards that result again. */
  lemma ShadowEditIdempotent(parse: Parser, value: BoxShadow, e: ShadowEdit)
    requires OnShadowEdit(parse, value, e).Some?
    ensures OnShadowEdit(parse, OnShadowEdit(parse, value, e).value, e) == OnShadowEdit(parse, value, e)
  {
  }

  /** Two accepted edits of different fields give the same record in either order. */
  lemma ShadowEditsCommute(parse: Parser, value: BoxShadow, e1: ShadowEdit, e2: ShadowEdit)
    requires e1.ColorPicked? != e2.ColorPicked? || e1.XTyped? != e2.XTyped?
          || e1.YTyped? != e2.YTyped? || e1.BlurTyped? != e2.BlurTyped?
    requires OnShadowEdit(parse, value, e1).Some? && OnShadowEdit(parse, value, e2).Some?
    ensures OnShadowEdit(parse, OnShadowEdit(parse, value, e1).value, e2).Some?
    ensures OnShadowEdit(parse, OnShadowEdit(parse, value, e2).value, e1).Some?
    ensures OnShadowEdit(parse, OnShadowEdit(parse, value, e1).value, e2).value
         == OnShadowEdit(parse, OnShadowEdit(parse, value, e2).value, e1).value
  {
  }
}
