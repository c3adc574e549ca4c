/** Already-parsed JSON, as Gson hands it to the driver, and the few Gson
    conversions the driver relies on. Parsing text into these values is not
    part of this model. */
module Json {
  import opened Errors

  /** A Gson `JsonElement`. A number keeps the text it was written as. */
  datatype JValue =
    | JNull
    | JBool(b: bool)
    | JNumber(text: string)
    | JString(s: string)
    | JArray(elems: seq<JValue>)
    | JObject(members: map<string, JValue>)

  function LowerAscii(c: char): char
  {
    if 'A' <= c <= 'Z' then (c as int + 32) as char else c
  }

  /** `java.lang.Boolean.parseBoolean`: true exactly when the text is "true"
      in any mix of upper and lower case. */
  predicate ParseBoolean(s: string)
  {
    |s| == 4 && LowerAscii(s[0]) == 't' && LowerAscii(s[1]) == 'r'
    && LowerAscii(s[2]) == 'u' && LowerAscii(s[3]) == 'e'
  }

  /** `JsonElement.getAsBoolean`: a primitive that is not a boolean goes
      through `parseBoolean` of its text; a one-element array delegates to
      its element; everything else throws. */
  function AsBoolean(v: JValue): (r: Result<bool>)
    ensures r.Err? ==> r.error.JsonConversion?
    ensures v.JBool? ==> r == Ok(v.b)
    ensures v.JString? ==> r == Ok(ParseBoolean(v.s))
    ensures v.JNumber? ==> r == Ok(ParseBoolean(v.text))
    ensures v.JNull? || v.JObject? ==> r.Err?
  {
    match v
    case JBool(b) => Ok(b)
    case JString(s) => Ok(ParseBoolean(s))
    case JNumber(t) => Ok(ParseBoolean(t))
    case JArray(es) => if |es| == 1 then AsBoolean(es[0]) else Err(JsonConversion("JsonArray"))
    case JNull => Err(JsonConversion("JsonNull"))
    case JObject(_) => Err(JsonConversion("JsonObject"))
  }

  /** `JsonElement.getAsString`: a boolean is spelled "true" or "false", a
      number keeps its text; a one-element array delegates; everything else
      throws. */
  function AsString(v: JValue): (r: Result<string>)
    ensures r.Err? ==> r.error.JsonConversion?
    ensures v.JString? ==> r == Ok(v.s)
    ensures v.JNull? || v.JObject? ==> r.Err?
  {
    match v
    case JBool(b) => Ok(if b then "true" else "false")
    case JString(s) => Ok(s)
    case JNumber(t) => Ok(t)
    case JArray(es) => if |es| == 1 then AsString(es[0]) else Err(JsonConversion("JsonArray"))
    case JNull => Err(JsonConversion("JsonNull"))
    case JObject(_) => Err(JsonConversion("JsonObject"))
  }

  /** `JsonObject.getString(name)`: the member converted to a string; an
      absent member is an error. */
  function GetString(obj: map<string, JValue>, name: string): (r: Result<string>)
    ensures name !in obj ==> r == Err(MissingMember(name))
    ensures name in obj && obj[name].JString? ==> r == Ok(obj[name].s)
    ensures r.Err? ==> r.error.MissingMember? || r.error.JsonConversion?
    ensures r.Ok? ==> name in obj && AsString(obj[name]) == r
  {
    if name in obj then AsString(obj[name]) else Err(MissingMember(name))
  }

  /** `JsonObject.getAsJsonObject(name)`: null (None) for an absent member,
      the object for an object member, a failed cast otherwise. */
  function GetAsJsonObject(obj: map<string, JValue>, name: string): (r: Result<Option<JValue>>)
    ensures r == Ok(None) <==> name !in obj
    ensures r.Ok? && r.value.Some? ==> name in obj && r.value.value == obj[name] && obj[name].JObject?
    ensures r.Err? <==> name in obj && !obj[name].JObject?
    ensures r.Err? ==> r.error == NotAnObject(name)
  {
    if name !in obj then Ok(None)
    else if obj[name].JObject? then Ok(Some(obj[name]))
    else Err(NotAnObject(name))
  }
}
