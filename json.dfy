/** The part of Jackson's JsonNode tree that the client reads. */
module JsonNode {
  import opened Wrappers
  import opened JavaText

  /** A java.lang.Double value. */
  datatype Double = Finite(value: real) | NaN | PositiveInfinity | NegativeInfinity

  /**
   * A JSON number. How Jackson prints it, reads it as a boolean and converts it to a Double
   * is library behaviour, so a number is given by those three views.
   */
  datatype Number = Number(asText: string, asBoolean: bool, asDouble: Double)

  /** A parsed JSON value; an object maps each field name to its value. */
  datatype Json =
    | JNull
    | JBool(b: bool)
    | JNum(n: Number)
    | JStr(s: string)
    | JArr(items: seq<Json>)
    | JObj(fields: map<string, Json>)

  /** JsonNode.has(name): only an object has fields. */
  predicate Has(j: Json, name: string) {
    j.JObj? && name in j.fields
  }

  /** JsonNode.get(name) where has(name) holds. */
  function Get(j: Json, name: string): Json
    requires Has(j, name)
  {
    j.fields[name]
  }

  /** JsonNode.isArray(). */
  predicate IsArray(j: Json) {
    j.JArr?
  }

  /** has(name) && get(name).isArray(). */
  predicate HasArray(j: Json, name: string) {
    Has(j, name) && IsArray(Get(j, name))
  }

  /** The elements of the array under name. */
  function ArrayAt(j: Json, name: string): seq<Json>
    requires HasArray(j, name)
  {
    Get(j, name).items
  }

  /** JsonNode.get(index): null outside an array's bounds and on every other node. */
  function Element(j: Json, index: nat): (e: Option<Json>)
    ensures e.Some? <==> j.JArr? && index < |j.items|
    ensures e.Some? ==> e.value == j.items[index]
  {
    if j.JArr? && index < |j.items| then Some(j.items[index]) else None
  }

  /**
   * JsonNode.asText(""): a string's own text, a number's or boolean's printed form,
   * the default "" for null, and "" for arrays and objects.
   */
  function AsText(j: Json): string {
    match j
    case JStr(s) => s
    case JNum(n) => n.asText
    case JBool(b) => if b then "true" else "false"
    case _ => ""
  }

  /**
   * JsonNode.asBoolean(false): a boolean's value; a string whose trim is "true" or "false";
   * a number's boolean view; false for everything else.
   */
  function AsBoolean(j: Json): bool {
    match j
    case JBool(b) => b
    case JNum(n) => n.asBoolean
    case JStr(s) => Trim(s) == "true"
    case _ => false
  }

  /** What Jackson's conversion to a Double makes of one element: a value, null, or a failure. */
  datatype Conversion = Converted(element: Option<Double>) | Rejected

  /**
   * One element of ObjectMapper.convertValue(node, List<Double>): a number converts to its
   * double, null to a null element, a string through the library's coercion; anything else fails.
   */
  function ConvertElement(j: Json, coerce: string -> Conversion): Conversion {
    match j
    case JNum(n) => Converted(Some(n.asDouble))
    case JNull => Converted(None)
    case JStr(s) => coerce(s)
    case _ => Rejected
  }

  /** ObjectMapper.convertValue(array, List<Double>): null when any element fails. */
  function ConvertList(items: seq<Json>, coerce: string -> Conversion): (r: Option<seq<Option<Double>>>)
    ensures r.Some? <==> forall k :: 0 <= k < |items| ==> ConvertElement(items[k], coerce).Converted?
    ensures r.Some? ==> |r.value| == |items|
    ensures r.Some? ==> forall k :: 0 <= k < |items| ==> r.value[k] == ConvertElement(items[k], coerce).element
    decreases |items|
  {
    if |items| == 0 then Some([])
    else
      match (ConvertElement(items[0], coerce), ConvertList(items[1..], coerce))
      case (Converted(e), Some(rest)) => Some([e] + rest)
      case _ => None
  }
}
