/** Decoded JSON values, the host's foreign conversions, and JavaScript's default
    string form of a value. */
module JsonValues {
  import opened Wrappers
  import opened JsText

  /** A value `JSON.parse` can return. Numbers are finite. */
  datatype Json =
    | JNull
    | JBool(b: bool)
    | JNum(n: real)
    | JStr(s: string)
    | JArr(items: seq<Json>)
    | JObj(fields: map<string, Json>)

  /** The conversions the transforms borrow from the JavaScript runtime:
      `JSON.parse` (`None` when it throws), `Number.prototype.toString`
      and `JSON.stringify`. */
  datatype Host = Host(
    parse: string -> Option<Json>,
    numberText: real -> string,
    stringify: Json -> string)

  /** The string a value takes inside `Array.prototype.join` (and so inside an array's
      `toString`): `null` becomes the empty string, an array joins its elements' strings
      with commas, any other object is `[object Object]`. */
  function Text(host: Host, j: Json): string {
    match j
    case JNull => ""
    case JBool(b) => if b then "true" else "false"
    case JNum(n) => host.numberText(n)
    case JStr(s) => s
    case JArr(items) => Join(seq(|items|, i requires 0 <= i < |items| => Text(host, items[i])), ',')
    case JObj(_) => "[object Object]"
  }
}
