/** The JavaScript values that flow from the host's records into the grid's cells. */
module Values {
  import opened JsText

  /**
   * A raw cell value: `undefined`, `null`, a boolean, an integral number, a string, or a plain
   * object whose properties are strings (the shape of a parsed option map).
   */
  datatype Value = Undefined | Null | Bool(b: bool) | Number(n: int) | Text(s: string) | Obj(props: map<string, string>)

  /** JavaScript truthiness: `undefined`, `null`, `false`, `0` and `""` are falsy, every object is truthy. */
  predicate Truthy(v: Value) {
    match v
    case Undefined => false
    case Null => false
    case Bool(b) => b
    case Number(n) => n != 0
    case Text(s) => s != ""
    case Obj(_) => true
  }

  /** `String(v)`, the text a template literal `${v}` inserts. */
  function ToJsString(v: Value): string {
    match v
    case Undefined => "undefined"
    case Null => "null"
    case Bool(b) => if b then "true" else "false"
    case Number(n) => IntToString(n)
    case Text(s) => s
    case Obj(_) => "[object Object]"
  }

  /**
   * The formatters that live outside this model (`Intl.NumberFormat`, `formatDate`,
   * `JSON.stringify`), named by the arguments the grid passes them.
   */
  datatype Format = CurrencyFormat(code: string) | DecimalFormat(places: int) | DateFormat(pattern: Value) | JsonFormat

  /** A display cell: a value as is, or the text an outside formatter makes of an input value. */
  datatype Cell = Plain(value: Value) | Formatted(format: Format, input: Value)
}
