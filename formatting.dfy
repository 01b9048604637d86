/**
 * The per-type cell formatters (the `typeHandlers` table of DataGrid.mapRecordsToState) and
 * the per-cell fallback around them. Every handler receives the WHOLE parsed configuration,
 * not the entry of its own column, so `config?.trueLabel` reads the options of a field that is
 * itself named `trueLabel` (an object when present, `undefined` otherwise).
 */
module Formatting {
  import opened JsText
  import opened Values
  import opened FieldConfig

  /** What calling the table for one cell did: no handler for the type, a result, or an exception. */
  datatype Outcome = Unhandled | Returned(cell: Cell) | Threw

  /** The column types that have a handler. */
  const HandledTypes: set<string> := {"Currency", "DateAndTime.DateAndTime", "DateAndTime.DateOnly",
    "Decimal", "TwoOptions", "SingleLine.Email", "SingleLine.Phone", "SingleLine.URL", "Object"}

  /** `config?.[key]` on the parsed configuration: the option object of field `key`, or `undefined`. */
  function Lookup(config: Config, key: string): Value {
    if key in config then Obj(config[key]) else Undefined
  }

  /** JavaScript `a || b`. */
  function Or(a: Value, b: Value): (r: Value)
    ensures Truthy(a) ==> r == a
    ensures !Truthy(a) ==> r == b
  {
    if Truthy(a) then a else b
  }

  /**
   * A currency code the `Intl.NumberFormat` constructor accepts: three ASCII letters
   * (IsWellFormedCurrencyCode, section 6.3.1 of ECMA-402); any other code makes it throw a RangeError.
   */
  predicate WellFormedCurrencyCode(code: string) {
    |code| == 3 && forall i :: 0 <= i < 3 ==> ('a' <= code[i] <= 'z' || 'A' <= code[i] <= 'Z')
  }

  /** `parseInt(config?.decimalPlaces) || 2`. */
  function DecimalPlaces(config: Config): int {
    ParseIntOr(ToJsString(Lookup(config, "decimalPlaces")), 2)
  }

  /** `typeHandlers[dataType]`, applied to the cell value and the whole configuration. */
  function Handle(dataType: string, value: Value, config: Config): (r: Outcome)
    ensures r.Unhandled? <==> dataType !in HandledTypes
  {
    if dataType == "Currency" then
      var code := ToJsString(Or(Lookup(config, "currency"), Text("USD")));
      if WellFormedCurrencyCode(code) then Returned(Formatted(CurrencyFormat(code), value)) else Threw
    else if dataType == "DateAndTime.DateAndTime" then
      Returned(Formatted(DateFormat(Or(Lookup(config, "dateFormat"), Text("yyyy-MM-dd HH:mm:ss"))), value))
    else if dataType == "DateAndTime.DateOnly" then
      Returned(Formatted(DateFormat(Or(Lookup(config, "dateFormat"), Text("yyyy-MM-dd"))), value))
    else if dataType == "Decimal" then
      Returned(Formatted(DecimalFormat(DecimalPlaces(config)), value))
    else if dataType == "TwoOptions" then
      Returned(Plain(if Truthy(value) then Or(Lookup(config, "trueLabel"), Text("Yes"))
                     else Or(Lookup(config, "falseLabel"), Text("No"))))
    else if dataType == "SingleLine.Email" then
      Returned(Plain(Text("mailto:" + ToJsString(value))))
    else if dataType == "SingleLine.Phone" then
      Returned(Plain(Text("tel:" + ToJsString(value))))
    else if dataType == "SingleLine.URL" then
      var s := ToJsString(value);
      Returned(Plain(Text("<a href=\"" + s + "\">" + s + "</a>")))
    else if dataType == "Object" then
      Returned(Formatted(JsonFormat, value))
    else
      Unhandled
  }

  /**
   * The display cell of one value: a type without a handler passes the raw value through, and a
   * handler that throws is caught for this cell alone, which falls back to the raw value.
   */
  function FormatCell(dataType: string, value: Value, config: Config): (c: Cell)
    ensures dataType !in HandledTypes ==> c == Plain(value)
    ensures Handle(dataType, value, config).Threw? ==> c == Plain(value)
    ensures Handle(dataType, value, config).Returned? ==> c == Handle(dataType, value, config).cell
  {
    match Handle(dataType, value, config)
    case Unhandled => Plain(value)
    case Returned(cell) => cell
    case Threw => Plain(value)
  }

  /**
   * Currency: with no field named `currency` the code defaults to "USD"; with one, its option
   * object becomes the code "[object Object]", the constructor throws, and the raw value is shown.
   */
  lemma CurrencyCell(value: Value, config: Config)
    ensures FormatCell("Currency", value, config) ==
      if "currency" in config then Plain(value) else Formatted(CurrencyFormat("USD"), value)
  {
    if "currency" in config {
      assert !WellFormedCurrencyCode("[object Object]");
    } else {
      assert WellFormedCurrencyCode("USD");
    }
  }

  /** `parseInt` of an option object or of `undefined` is NaN, so the decimal places are always 2. */
  lemma DecimalPlacesTwo(config: Config)
    ensures DecimalPlaces(config) == 2
  {
    var text := ToJsString(Lookup(config, "decimalPlaces"));
    if "decimalPlaces" in config {
      assert text == "[object Object]";
      ParseIntOfBracket(text);
    } else {
      assert text == "undefined";
      ParseIntOfWord(text);
    }
  }

  /** Decimal: every cell is formatted with 2 decimal places. */
  lemma DecimalAlwaysTwo(value: Value, config: Config)
    ensures FormatCell("Decimal", value, config) == Formatted(DecimalFormat(2), value)
  {
    DecimalPlacesTwo(config);
    assert Handle("Decimal", value, config) == Returned(Formatted(DecimalFormat(DecimalPlaces(config)), value));
  }

  /**
   * TwoOptions: a truthy value shows the `trueLabel` field's option object when there is one and
   * "Yes" otherwise; a falsy value likewise `falseLabel` and "No".
   */
  lemma TwoOptionsCell(value: Value, config: Config)
    ensures "trueLabel" !in config && Truthy(value) ==> FormatCell("TwoOptions", value, config) == Plain(Text("Yes"))
    ensures "falseLabel" !in config && !Truthy(value) ==> FormatCell("TwoOptions", value, config) == Plain(Text("No"))
    ensures "trueLabel" in config && Truthy(value) ==>
      FormatCell("TwoOptions", value, config) == Plain(Obj(config["trueLabel"]))
    ensures "falseLabel" in config && !Truthy(value) ==>
      FormatCell("TwoOptions", value, config) == Plain(Obj(config["falseLabel"]))
  {
  }

  /** Email, Phone and URL wrap the value's text: `mailto:`, `tel:` and an unescaped anchor. */
  lemma LinkCells(s: string, config: Config)
    ensures FormatCell("SingleLine.Email", Text(s), config) == Plain(Text("mailto:" + s))
    ensures FormatCell("SingleLine.Phone", Text(s), config) == Plain(Text("tel:" + s))
    ensures FormatCell("SingleLine.URL", Text(s), config) == Plain(Text("<a href=\"" + s + "\">" + s + "</a>"))
  {
  }
}
