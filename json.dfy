/** The shape of a value produced by JSON.parse. Parsing itself is not modelled:
    the analysis client receives the parser as a parameter. */
module Json {

  datatype Value =
    | JNull
    | JBool(b: bool)
    | JNumber(n: real)
    | JString(s: string)
    | JArray(items: seq<Value>)
    | JObject(fields: map<string, Value>)

  /** The object that the text "{}" parses to. */
  const EmptyObject: Value := JObject(map[])
}
