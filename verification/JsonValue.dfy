/** The values a request and its result are made of (serde_json::Value). */
module JsonValues {
  /** A number is kept as the token its printer writes. Object members are listed in the
      map's iteration order, which carries no meaning. */
  datatype Json =
    | Null
    | Bool(value: bool)
    | Number(token: string)
    | Str(text: string)
    | Array(items: seq<Json>)
    | Object(members: seq<Member>)

  datatype Member = Member(key: string, value: Json)
}
