/** The body of `POST /query` and the check that every required field is present. */
module Request {

  /** A field of the parsed JSON body; `JsUndefined` is a field the body does not have. */
  datatype JsValue =
    | JsUndefined
    | JsNull
    | JsBool(b: bool)
    | JsNumber(n: int)
    | JsString(s: string)
    | JsComposite  // an array or an object

  /** JavaScript truthiness of a JSON value: the falsy ones are a missing
      field, null, false, zero and the empty string. */
  function Truthy(v: JsValue): (t: bool)
    ensures !t <==> v in [JsUndefined, JsNull, JsBool(false), JsNumber(0), JsString("")]
  {
    match v
    case JsUndefined => false
    case JsNull => false
    case JsBool(b) => b
    case JsNumber(n) => n != 0
    case JsString(s) => s != ""
    case JsComposite => true
  }

  /** The four fields the handler reads from the body. */
  datatype QueryRequest = QueryRequest(user: JsValue, password: JsValue, connectString: JsValue, query: JsValue)

  /** The guard of the handler: each of the four fields is truthy. */
  predicate HasRequiredFields(req: QueryRequest) {
    Truthy(req.user) && Truthy(req.password) && Truthy(req.connectString) && Truthy(req.query)
  }
}
