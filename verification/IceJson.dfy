/** The JSON form of an ICE candidate: encoding, decoding and the errors decoding raises. */
module IceJson {

  datatype JsonValue = JString(text: string) | JInt(number: int)

  type Json = map<string, JsonValue>

  datatype Result<T> = Ok(value: T) | Err(error: string)

  datatype Ice = Ice(candidate: string, sdpMid: string, sdpMLineIndex: int)

  function Digits(n: nat): string {
    if n < 10 then [('0' as int + n) as char] else Digits(n / 10) + [('0' as int + n % 10) as char]
  }

  function AsString(v: JsonValue): string {
    match v
    case JString(text) => text
    case JInt(n) => if n < 0 then "-" + Digits(-n) else Digits(n)
  }

  /** `json.get(key, "").asString()`. */
  function GetString(json: Json, key: string): string {
    if key in json then AsString(json[key]) else ""
  }

  /** `json.get(key, -1).asInt()`; a string value is not convertible. */
  function GetInt(json: Json, key: string): Result<int> {
    if key !in json then Ok(-1)
    else if json[key].JInt? then Ok(json[key].number)
    else Err("Value is not convertible to Int.")
  }

  function ToJson(ice: Ice): Json {
    map["type" := JString("ice"), "candidate" := JString(ice.candidate),
        "sdpMid" := JString(ice.sdpMid), "sdpMLineIndex" := JInt(ice.sdpMLineIndex)]
  }

  function FromJson(json: Json): Result<Ice> {
    var kind := GetString(json, "type");
    if kind == "ice" then
      match GetInt(json, "sdpMLineIndex")
      case Err(e) => Err(e)
      case Ok(index) =>
        var ice := Ice(GetString(json, "candidate"), GetString(json, "sdpMid"), index);
        if ice.candidate == "" || ice.sdpMid == "" || ice.sdpMLineIndex == -1
        then Err("Invalid json string for ICE.")
        else Ok(ice)
    else Err("Unkown json message type: " + kind)
  }

  predicate Transmissible(ice: Ice) {
    ice.candidate != "" && ice.sdpMid != "" && ice.sdpMLineIndex != -1
  }

  /** A candidate survives encoding and decoding if and only if its text and media id are not empty
      and its index is not -1; the others are refused. */
  lemma RoundTripIffTransmissible(ice: Ice)
    ensures FromJson(ToJson(ice)) == Ok(ice) <==> Transmissible(ice)
    ensures FromJson(ToJson(ice)).Err? <==> !Transmissible(ice)
  {
    assert ToJson(ice)["type"] == JString("ice") && ToJson(ice)["sdpMLineIndex"] == JInt(ice.sdpMLineIndex);
    assert ToJson(ice)["candidate"] == JString(ice.candidate) && ToJson(ice)["sdpMid"] == JString(ice.sdpMid);
  }

  /** Whatever decodes successfully encodes to something that decodes to the same candidate. */
  lemma DecodedIsTransmissible(json: Json)
    ensures FromJson(json).Ok? ==> FromJson(ToJson(FromJson(json).value)) == FromJson(json)
  {
    if FromJson(json).Ok? {
      RoundTripIffTransmissible(FromJson(json).value);
    }
  }

  /** The names of the members of an encoded candidate. */
  lemma EncodesByName(ice: Ice)
    ensures ToJson(ice).Keys == {"type", "candidate", "sdpMid", "sdpMLineIndex"}
    ensures GetString(ToJson(ice), "type") == "ice" && GetString(ToJson(ice), "candidate") == ice.candidate
    ensures GetString(ToJson(ice), "sdpMid") == ice.sdpMid
    ensures GetInt(ToJson(ice), "sdpMLineIndex") == Ok(ice.sdpMLineIndex)
  {
    assert ToJson(ice)["type"] == JString("ice") && ToJson(ice)["sdpMLineIndex"] == JInt(ice.sdpMLineIndex);
    assert ToJson(ice)["candidate"] == JString(ice.candidate) && ToJson(ice)["sdpMid"] == JString(ice.sdpMid);
  }

  /** What is decoded comes from members of those names; anything else, and an object without one of them,
      is refused. */
  lemma DecodesByName(json: Json)
    ensures FromJson(json).Ok? ==>
              var ice := FromJson(json).value;
              && GetString(json, "type") == "ice" && ice.candidate == GetString(json, "candidate")
              && ice.sdpMid == GetString(json, "sdpMid") && GetInt(json, "sdpMLineIndex") == Ok(ice.sdpMLineIndex)
              && {"type", "candidate", "sdpMid", "sdpMLineIndex"} <= json.Keys
    ensures FromJson(json).Err? <==>
            || GetString(json, "type") != "ice" || GetString(json, "candidate") == "" || GetString(json, "sdpMid") == ""
            || GetInt(json, "sdpMLineIndex").Err? || GetInt(json, "sdpMLineIndex").value == -1
  {}
}
