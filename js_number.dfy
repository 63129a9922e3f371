/**
 * The JavaScript number conversion the property panels apply to typed text.
 * How a non-empty string converts is left abstract (a `Parser` parameter);
 * the one quirk the panels depend on, `Number("") == 0`, is fixed here.
 */
module JsNumber {

  /** A JavaScript number: a finite value or NaN (infinities are not modelled). */
  datatype JsNum = Num(value: real) | NaN

  /** How `Number(text)` converts a non-empty string. */
  type Parser = string -> JsNum

  /** `Number(text)`: the empty string converts to 0, any other text as `parse` says. */
  function Number(parse: Parser, text: string): (n: JsNum)
    ensures text == "" ==> n == Num(0.0)
    ensures n.NaN? ==> text != ""
    ensures text != "" ==> n == parse(text)
  {
    if text == "" then Num(0.0) else parse(text)
  }
}
