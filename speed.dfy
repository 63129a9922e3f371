/**
 * The speed panel: a text input with separate guards for change, blur and
 * the Enter key, and a slider over [0, 4] that forwards its first value.
 * Blur and Enter forward `Number(text)` without a numeric check, so they
 * can forward NaN or a negative number.
 */
module Speed {
  import opened Wrappers
  import opened JsNumber
  import Opacity

  const SpeedSlider := Opacity.SliderRange(0.0, 4.0, 0.1)

  const EnterKey := "Enter"

  datatype SpeedEdit =
    | Changed(text: string)
    | Blurred(text: string)
    | KeyDown(key: string, text: string)
    | Slid(first: real, rest: seq<real>)

  /** `handleBlur` and the Enter branch of `handleKeyDown`: any non-empty text. */
  function Commit(parse: Parser, inputValue: string): (r: Option<JsNum>)
    ensures r.Some? <==> inputValue != ""
    ensures r.Some? ==> r.value == parse(inputValue)
  {
    if inputValue != "" then Some(Number(parse, inputValue)) else None
  }

  /** The value handed to the throttled `onChange`, if any. */
  function OnSpeedEdit(parse: Parser, e: SpeedEdit): (r: Option<JsNum>)
    ensures e.Changed? ==>
      (r.Some? <==> e.text != "" && parse(e.text).Num? && parse(e.text).value >= 0.0)
    ensures e.Changed? && r.Some? ==> r.value == parse(e.text)
    ensures e.Blurred? ==> (r.Some? <==> e.text != "")
    ensures e.KeyDown? ==> (r.Some? <==> e.key == EnterKey && e.text != "")
    ensures (e.Blurred? || e.KeyDown?) && r.Some? ==> r.value == parse(e.text)
    ensures e.Slid? ==> r == Some(Num(e.first))
  {
    match e
    case Changed(newValue) =>
      var n := Number(parse, newValue);
      if newValue == "" || (n.Num? && n.value >= 0.0) then
        if newValue != "" && n.Num? then Some(n) else None
      else None
    case Blurred(t) => Commit(parse, t)
    case KeyDown(key, t) => if key == EnterKey then Commit(parse, t) else None
    case Slid(first, _) => Some(Num(first))
  }

  /** The text of an edit made in the input box. */
  function TextOf(e: SpeedEdit): Option<string>
  {
    match e
    case Changed(t) => Some(t)
    case Blurred(t) => Some(t)
    case KeyDown(_, t) => Some(t)
    case Slid(_, _) => None
  }

  /** No path of the input box forwards empty text. */
  lemma EmptyNeverForwarded(parse: Parser, e: SpeedEdit)
    requires TextOf(e) == Some("")
    ensures OnSpeedEdit(parse, e).None?
  {
  }

  /** Enter forwards exactly what leaving the box forwards. */
  lemma EnterActsAsBlur(parse: Parser, text: string)
    ensures OnSpeedEdit(parse, KeyDown(EnterKey, text)) == OnSpeedEdit(parse, Blurred(text))
  {
  }

  /** What a change forwards, leaving the box forwards again, unchanged. */
  lemma BlurRepeatsChange(parse: Parser, text: string)
    requires OnSpeedEdit(parse, Changed(text)).Some?
    ensures OnSpeedEdit(parse, Blurred(text)) == OnSpeedEdit(parse, Changed(text))
  {
  }

  /** Non-empty text that a change rejects (NaN or negative) is still forwarded on blur. */
  lemma BlurForwardsRejectedText(parse: Parser, text: string)
    requires text != "" && OnSpeedEdit(parse, Changed(text)).None?
    ensures OnSpeedEdit(parse, Blurred(text)) == Some(parse(text))
    ensures parse(text).NaN? || parse(text).value < 0.0
  {
  }
}
