/** Quote documents as the JSON store holds them. */
module Documents {

  /** The JSON values a quote's fields take: strings (author, title, text, urls),
      an integer (like_count), a list of strings (tags), or null. */
  datatype Value =
    | JStr(s: string)
    | JInt(n: int)
    | JList(items: seq<string>)
    | JNull

  /** A document maps field names to values; a field the quote lacks is not a key. */
  type Doc = map<string, Value>
}
