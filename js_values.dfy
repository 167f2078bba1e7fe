/**
 * The JSON values the orders endpoint delivers, JavaScript property access on
 * them, and the two ways the page turns a value into text: `toString` and a template literal.
 */
module JsValues {

  /** A JSON value. Numbers are kept as reals; their decimal text is not modelled. */
  datatype Json =
    | Null
    | Bool(b: bool)
    | Num(n: real)
    | Str(s: string)
    | Arr(elems: seq<Json>)
    | Obj(fields: map<string, Json>)

  /** The result of reading a property: `None` is JavaScript's `undefined`. */
  datatype Option<T> = None | Some(value: T)

  /** The only exception the modelled code can raise. */
  datatype JsError = TypeError

  /** Either a value or the exception that aborted the computation. */
  datatype Result<T> = Ok(value: T) | Err(error: JsError)

  /** One order record: field name to value. */
  type Record = map<string, Json>

  /** `record[key]`: `undefined` when the key is missing. */
  function Get(record: Record, key: string): Option<Json> {
    if key in record then Some(record[key]) else None
  }

  /**
   * `value[key]` on a non-null value. Only objects have the properties the page
   * reads (`name`, `quantity`, `firstName`, `lastName`); on any other value the
   * read gives `undefined`.
   */
  function Prop(value: Json, key: string): Option<Json> {
    if value.Obj? then Get(value.fields, key) else None
  }

  /**
   * `value.toString()` on a non-null value. A string is its own text; the text
   * of every other value is given by `toStr`, which stands for JavaScript's
   * conversion of numbers, booleans, arrays and objects.
   */
  function ToStringOf(toStr: Json -> string, value: Json): string
    requires value != Null
  {
    if value.Str? then value.s else toStr(value)
  }

  /** `${value}` in a template literal. */
  function TemplateString(toStr: Json -> string, value: Option<Json>): string {
    match value
    case None => "undefined"
    case Some(Null) => "null"
    case Some(v) => ToStringOf(toStr, v)
  }

  /** JavaScript truthiness of a possibly undefined value. */
  predicate Truthy(value: Option<Json>) {
    match value
    case None => false
    case Some(Null) => false
    case Some(Bool(b)) => b
    case Some(Num(n)) => n != 0.0
    case Some(Str(s)) => s != ""
    case Some(_) => true
  }
}
