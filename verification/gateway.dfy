/** `executeOracleQuery`: acquire one connection, run one statement, process
    the rows, and close the connection in a `finally` block whenever it was
    acquired. The driver is not modelled; each of its three calls either
    succeeds or throws, as a per-request script decides. */
module Gateway {
  import opened Wrappers
  import opened Rows
  import opened Request

  /** What one call into the driver does: succeed with a value, or throw an error carrying a message. */
  datatype Attempt<T> = Succeeds(value: T) | Throws(message: string)

  /** The driver's answers for one request: to `getConnection`, to
      `connection.execute` (the `rows` of its result, undefined for a
      statement that fetches nothing) and to `connection.close`. */
  datatype Script = Script(connect: Attempt<()>, execute: Attempt<Option<seq<Row>>>, close: Attempt<()>)

  /** The `config` object given to `getConnection`. */
  datatype Credentials = Credentials(user: JsValue, password: JsValue, connectString: JsValue)

  /** How a call of `executeOracleQuery` ends: it returns the processed rows or it throws. */
  datatype Outcome = Returned(rows: seq<Row>) | Threw(message: string)

  /** The `connection` variable: never set, holding an open connection, or closed. */
  datatype ConnState = NotOpened | Open | Closed

  /** The message of the TypeError that `result.rows.map` throws, in the
      wording of the V8 engine, when the statement fetched no rows. */
  const RowsUndefinedMessage: string := "Cannot read properties of undefined (reading 'map')"

  /** The end of `executeOracleQuery` for a given script. The answer to `close`
      never enters: a failed close neither replaces the rows nor the error. */
  function QueryOutcome(driver: Script): (out: Outcome)
    ensures out.Returned? <==>
      driver.connect.Succeeds? && driver.execute.Succeeds? && driver.execute.value.Some?
    ensures out.Returned? ==> out.rows == NormaliseRows(driver.execute.value.value)
    ensures driver.connect.Throws? ==> out == Threw(driver.connect.message)
    ensures driver.connect.Succeeds? && driver.execute.Throws? ==> out == Threw(driver.execute.message)
    ensures driver.connect.Succeeds? && driver.execute == Succeeds(None) ==> out == Threw(RowsUndefinedMessage)
  {
    match driver.connect
    case Throws(m) => Threw(m)
    case Succeeds(_) =>
      match driver.execute
      case Throws(m) => Threw(m)
      case Succeeds(None) => Threw(RowsUndefinedMessage)
      case Succeeds(Some(rows)) => Returned(NormaliseRows(rows))
  }

  /** Whatever `close` answers, the call ends the same way. */
  lemma QueryOutcomeIgnoresClose(connect: Attempt<()>, execute: Attempt<Option<seq<Row>>>, x: Attempt<()>, y: Attempt<()>)
    ensures QueryOutcome(Script(connect, execute, x)) == QueryOutcome(Script(connect, execute, y))
  {
  }

  /** The `connection` variable after `executeOracleQuery`: never set if
      `getConnection` threw, otherwise closed unless `close` threw. */
  function ConnectionAfter(driver: Script): ConnState
  {
    if driver.connect.Throws? then NotOpened
    else if driver.close.Succeeds? then Closed
    else Open
  }

  /** The state one request works on: its `connection` variable and the
      driver it talks to, with ghost logs of the driver calls made. */
  class Session {
    const driver: Script
    var connection: ConnState
    ghost var connectedWith: seq<Credentials>  // one entry per `getConnection` call
    ghost var executed: seq<JsValue>           // one entry per `execute` call
    ghost var closeCalls: nat

    constructor (driver: Script)
      ensures this.driver == driver && connection == NotOpened
      ensures connectedWith == [] && executed == [] && closeCalls == 0
    {
      this.driver := driver;
      connection := NotOpened;
      connectedWith, executed, closeCalls := [], [], 0;
    }

    /** `oracledb.getConnection({user, password, connectString})`. */
    method GetConnection(config: Credentials) returns (r: Attempt<()>)
      requires connection == NotOpened
      modifies this
      ensures r == driver.connect
      ensures connection == if r.Succeeds? then Open else NotOpened
      ensures connectedWith == old(connectedWith) + [config]
      ensures executed == old(executed) && closeCalls == old(closeCalls)
    {
      r := driver.connect;
      connectedWith := connectedWith + [config];
      if r.Succeeds? {
        connection := Open;
      }
    }

    /** `connection.execute(query, [], options)`: the statement runs with no bind values. */
    method Execute(query: JsValue) returns (r: Attempt<Option<seq<Row>>>)
      requires connection == Open
      modifies this
      ensures r == driver.execute
      ensures executed == old(executed) + [query]
      ensures connection == Open
      ensures connectedWith == old(connectedWith) && closeCalls == old(closeCalls)
    {
      r := driver.execute;
      executed := executed + [query];
    }

    /** `connection.close()`: a failed close leaves the connection open. */
    method Close() returns (r: Attempt<()>)
      requires connection == Open
      modifies this
      ensures r == driver.close
      ensures connection == if r.Succeeds? then Closed else Open
      ensures closeCalls == old(closeCalls) + 1
      ensures connectedWith == old(connectedWith) && executed == old(executed)
    {
      r := driver.close;
      closeCalls := closeCalls + 1;
      if r.Succeeds? {
        connection := Closed;
      }
    }

    /** `executeOracleQuery(user, password, connectString, query)`.
        One connection attempt with the caller's credentials; the caller's
        statement runs only on an acquired connection; `close` is attempted
        exactly once when, and only when, the connection was acquired, on the
        returning and the throwing path alike; and the result is the
        processed rows or the original error, whatever `close` does. */
    method ExecuteOracleQuery(user: JsValue, password: JsValue, connectString: JsValue, query: JsValue)
      returns (out: Outcome)
      modifies this
      ensures out == QueryOutcome(driver)
      ensures connectedWith == old(connectedWith) + [Credentials(user, password, connectString)]
      ensures executed == old(executed) + (if driver.connect.Succeeds? then [query] else [])
      ensures closeCalls == old(closeCalls) + (if driver.connect.Succeeds? then 1 else 0)
      ensures connection == ConnectionAfter(driver)
    {
      var config := Credentials(user, password, connectString);
      connection := NotOpened;  // `let connection;`
      var pending: Outcome;     // how the `try` block ends
      var acquired := GetConnection(config);
      if acquired.Throws? {
        pending := Threw(acquired.message);
      } else {
        var result := Execute(query);
        match result
        case Throws(m) =>
          pending := Threw(m);
        case Succeeds(None) =>
          pending := Threw(RowsUndefinedMessage);  // `result.rows.map` on undefined
        case Succeeds(Some(rows)) =>
          pending := Returned(NormaliseRows(rows));
      }
      // `finally`: close only a connection that was acquired
      if connection != NotOpened {
        var closed := Close();
        // a failed close is only logged; `pending` stands
      }
      out := pending;
    }
  }
}
