/** JSON values as the backend serialises them and the mock server receives them. */
module Json {

  /** Numbers are integers here: fractional JSON numbers are not part of this model. */
  datatype Json =
    | JNull
    | JBool(b: bool)
    | JNum(n: int)
    | JStr(s: string)
    | JArr(items: seq<Json>)
    | JObj(fields: map<string, Json>)
}
