/** The `POST /query` handler: reject a request missing a required field with
    400, otherwise run the query and answer 200 with the rows or 500 with the
    error. */
module Handler {
  import opened Wrappers
  import opened Rows
  import opened Request
  import opened Gateway

  /** The JSON bodies the handler sends. */
  datatype ResponseBody =
    | MissingParameters(error: string)
    | QuerySucceeded(success: bool, data: seq<Row>)
    | QueryFailed(success: bool, query: JsValue, error: string)

  datatype Response = Response(status: int, body: ResponseBody)

  const MissingParametersMessage: string :=
    "Parâmetros obrigatórios faltando: user, password, connectString, query"

  /** The response to one request, given the driver's answers for it. */
  function QueryResponse(req: QueryRequest, driver: Script): (resp: Response)
    ensures resp.status in {200, 400, 500}
    ensures resp.status == 400 <==> !HasRequiredFields(req)
    ensures resp.status == 400 ==> resp.body == MissingParameters(MissingParametersMessage)
    ensures resp.status == 200 <==>
      HasRequiredFields(req) && driver.connect.Succeeds? && driver.execute.Succeeds? &&
      driver.execute.value.Some?
    ensures resp.status == 200 ==>
      resp.body == QuerySucceeded(true, NormaliseRows(driver.execute.value.value))
    ensures resp.status == 500 ==> resp.body.QueryFailed? && !resp.body.success
    ensures resp.status == 500 ==> resp.body.query == req.query
    ensures resp.status == 500 ==>
      resp.body.error ==
        (if driver.connect.Throws? then driver.connect.message
         else if driver.execute.Throws? then driver.execute.message
         else RowsUndefinedMessage)
  {
    if !HasRequiredFields(req) then
      Response(400, MissingParameters(MissingParametersMessage))
    else
      match QueryOutcome(driver)
      case Returned(rows) => Response(200, QuerySucceeded(true, rows))
      case Threw(message) => Response(500, QueryFailed(false, req.query, message))
  }

  /** The handler itself. A rejected request makes no driver call at all; an
      accepted one hands the request's own fields to `executeOracleQuery`. */
  method HandleQuery(req: QueryRequest, session: Session) returns (resp: Response)
    modifies session
    ensures resp == QueryResponse(req, session.driver)
    ensures !HasRequiredFields(req) ==> unchanged(session)
    ensures HasRequiredFields(req) ==>
      session.connectedWith ==
        old(session.connectedWith) + [Credentials(req.user, req.password, req.connectString)]
    ensures HasRequiredFields(req) ==>
      session.executed ==
        old(session.executed) + (if session.driver.connect.Succeeds? then [req.query] else [])
    ensures HasRequiredFields(req) ==>
      session.closeCalls == old(session.closeCalls) + (if session.driver.connect.Succeeds? then 1 else 0)
    ensures HasRequiredFields(req) ==> session.connection == ConnectionAfter(session.driver)
  {
    if !HasRequiredFields(req) {
      return Response(400, MissingParameters(MissingParametersMessage));
    }
    var result := session.ExecuteOracleQuery(req.user, req.password, req.connectString, req.query);
    match result
    case Returned(rows) =>
      resp := Response(200, QuerySucceeded(true, rows));
    case Threw(message) =>
      resp := Response(500, QueryFailed(false, req.query, message));
  }
}
