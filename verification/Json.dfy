/** A JSON document as its readers see it: gjson gives a number's literal and a string's text. */
module JsonValues {
  import opened JsonNumbers
  import opened Wrappers

  datatype Json =
    | Null | Bool(b: bool) | Num(literal: Literal) | Str(s: string)
    | Array(elems: seq<Json>) | Object(fields: seq<(string, Json)>)

  /** A gjson result: None when it does not exist. */
  type Found = Option<Json>
}
