/** The JSON values that `json.loads` produces, as the routers see them once
    they have been turned into Python objects. */
module JsonValues {

  /** A JSON value. Numbers are limited to integers (see README). */
  datatype Json =
    | JNull
    | JBool(b: bool)
    | JInt(n: int)
    | JString(s: string)
    | JArray(items: seq<Json>)
    | JObject(fields: map<string, Json>)

  /** A decoded JSON object: the planner's plan, or its error map. */
  type PlanMap = map<string, Json>

  /** Python's truth value of the object a JSON value decodes to:
      `None`, `False`, `0`, `""`, `[]` and `{}` are false, all else is true. */
  function Truthy(j: Json): (t: bool)
    ensures !t <==> j in {JNull, JBool(false), JInt(0), JString(""), JArray([]), JObject(map[])}
  {
    match j
    case JNull => false
    case JBool(b) => b
    case JInt(n) => n != 0
    case JString(s) => s != ""
    case JArray(items) => items != []
    case JObject(fields) => fields != map[]
  }

  /** Lists and dicts cannot be hashed in Python; every other decoded value can. */
  function Hashable(j: Json): (h: bool)
    ensures h <==> j.JNull? || j.JBool? || j.JInt? || j.JString?
  {
    !j.JArray? && !j.JObject?
  }

  /** `plan.get(key)`: the value stored under `key`, or `None` when it is
      missing. JSON `null` also decodes to `None`, so both read as `JNull`. */
  function Get(plan: PlanMap, key: string): (v: Json)
    ensures key in plan ==> v == plan[key]
    ensures key !in plan ==> v == JNull
  {
    if key in plan then plan[key] else JNull
  }
}
