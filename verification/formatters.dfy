/** The frontend's display formatters: the placeholder for missing values,
    the sign placed before percentages and P&L amounts, and the CSS classes
    chosen by trade type, status and sign. Number rendering (`Intl` and
    `toFixed`) is a parameter: `render` turns a number into its text. A
    missing value (`null` or `undefined`) is `None`. */
module Formatters {
  import opened Util

  /** What every formatter shows for a missing value */
  const Placeholder := "-"

  function Abs(x: real): (a: real)
    ensures a >= 0.0 && (a == x || a == -x)
  {
    if x < 0.0 then -x else x
  }

  /** `formatCurrency(value)`: the placeholder, or the currency rendering */
  function FormatCurrency(value: Option<real>, render: real -> string): (s: string)
    ensures value.None? ==> s == Placeholder
    ensures value.Some? ==> s == render(value.value)
  {
    match value
    case None => Placeholder
    case Some(x) => render(x)
  }

  /** `formatNumber(value)`: the placeholder, or the grouped rendering */
  function FormatNumber(value: Option<real>, render: real -> string): (s: string)
    ensures value.None? ==> s == Placeholder
    ensures value.Some? ==> s == render(value.value)
  {
    match value
    case None => Placeholder
    case Some(x) => render(x)
  }

  /** `formatPercentage(value, includeSign)`: the magnitude with two decimals
      (`fixed2`) and '%', preceded by '+' or '-' when signs are wanted and
      the value is not zero */
  function FormatPercentage(value: Option<real>, includeSign: bool, fixed2: real -> string): (s: string)
    ensures value.None? ==> s == Placeholder
    ensures value.Some? && (!includeSign || value.value == 0.0) ==> s == fixed2(Abs(value.value)) + "%"
    ensures value.Some? && includeSign && value.value > 0.0 ==> s == "+" + fixed2(Abs(value.value)) + "%"
    ensures value.Some? && includeSign && value.value < 0.0 ==> s == "-" + fixed2(Abs(value.value)) + "%"
  {
    match value
    case None => Placeholder
    case Some(x) =>
      var formatted := fixed2(Abs(x)) + "%";
      if !includeSign then formatted
      else if x > 0.0 then "+" + formatted
      else if x < 0.0 then "-" + formatted
      else formatted
  }

  /** With signs, a non-zero percentage is the unsigned text behind one sign
      character, and a value and its negation differ only in that sign. */
  lemma PercentageSign(x: real, fixed2: real -> string)
    requires x != 0.0
    ensures FormatPercentage(Some(x), true, fixed2) ==
            [if x > 0.0 then '+' else '-'] + FormatPercentage(Some(x), false, fixed2)
    ensures FormatPercentage(Some(-x), true, fixed2) ==
            [if x > 0.0 then '-' else '+'] + FormatPercentage(Some(x), false, fixed2)
  {
    assert Abs(-x) == Abs(x);
  }

  /** `formatPnL(value)`'s result */
  datatype PnLView = PnLView(value: string, className: string)

  const ProfitText := "text-profit font-medium"
  const LossText := "text-loss font-medium"
  const NeutralText := "text-gray-600"
  const MissingText := "text-gray-500"

  /** `formatPnL(value)`: a gain gets '+' before the currency text and the
      profit colour, a loss keeps the renderer's own text and gets the loss
      colour, zero is neutral, a missing value the placeholder in grey */
  function FormatPnL(value: Option<real>, render: real -> string): (v: PnLView)
    ensures value.None? ==> v == PnLView(Placeholder, MissingText)
    ensures value.Some? && value.value > 0.0 ==>
              v == PnLView("+" + FormatCurrency(value, render), ProfitText)
    ensures value.Some? && value.value < 0.0 ==> v == PnLView(FormatCurrency(value, render), LossText)
    ensures value == Some(0.0) ==> v == PnLView(FormatCurrency(value, render), NeutralText)
  {
    match value
    case None => PnLView(Placeholder, MissingText)
    case Some(x) =>
      var formatted := FormatCurrency(value, render);
      if x > 0.0 then PnLView("+" + formatted, ProfitText)
      else if x < 0.0 then PnLView(formatted, LossText)
      else PnLView(formatted, NeutralText)
  }

  /** `getPnLClass(pnl)`: a missing P&L compares as neither positive nor
      negative. */
  function GetPnLClass(pnl: Option<real>): (c: string)
    ensures c == "badge-profit" <==> pnl.Some? && pnl.value > 0.0
    ensures c == "badge-loss" <==> pnl.Some? && pnl.value < 0.0
    ensures c == "badge" <==> pnl.None? || pnl.value == 0.0
  {
    if pnl.Some? && pnl.value > 0.0 then "badge-profit"
    else if pnl.Some? && pnl.value < 0.0 then "badge-loss"
    else "badge"
  }

  /** The P&L text and the P&L badge always tell the same story: profit
      colour with the profit badge, loss colour with the loss badge. */
  lemma PnLColoursAgree(pnl: Option<real>, render: real -> string)
    ensures FormatPnL(pnl, render).className == ProfitText <==> GetPnLClass(pnl) == "badge-profit"
    ensures FormatPnL(pnl, render).className == LossText <==> GetPnLClass(pnl) == "badge-loss"
    ensures FormatPnL(pnl, render).className in {NeutralText, MissingText} <==> GetPnLClass(pnl) == "badge"
  {
  }

  /** `formatSymbol(symbol)`: the placeholder for a missing or empty symbol,
      otherwise the symbol upper-cased */
  function FormatSymbol(symbol: Option<string>): (s: string)
    ensures symbol.None? || symbol == Some("") ==> s == Placeholder
    ensures symbol.Some? && symbol.value != "" ==>
              |s| == |symbol.value| && forall i :: 0 <= i < |s| ==> !('a' <= s[i] <= 'z')
    ensures symbol.Some? && symbol.value != "" ==>
              forall i :: 0 <= i < |s| ==> s[i] == UpperChar(symbol.value[i])
  {
    if symbol.None? || symbol.value == "" then Placeholder else ToUpper(symbol.value)
  }

  /** Formatting a formatted symbol changes nothing. */
  lemma FormatSymbolIdempotent(symbol: Option<string>)
    ensures FormatSymbol(Some(FormatSymbol(symbol))) == FormatSymbol(symbol)
  {
    var s := FormatSymbol(symbol);
    assert s != "";
    assert forall i :: 0 <= i < |s| ==> UpperChar(s[i]) == s[i];
  }

  /** `getTradeTypeClass(tradeType)` */
  function GetTradeTypeClass(tradeType: string): (c: string)
    ensures c == "badge-long" <==> tradeType == "LONG"
    ensures c == "badge-long" || c == "badge-short"
  {
    if tradeType == "LONG" then "badge-long" else "badge-short"
  }

  /** `getStatusClass(status)` */
  function GetStatusClass(status: string): (c: string)
    ensures c == "badge-open" <==> status == "OPEN"
    ensures c == "badge-open" || c == "badge-closed"
  {
    if status == "OPEN" then "badge-open" else "badge-closed"
  }
}
