# Oracle query endpoint: a verified model

The plugin `insomnia-plugin-oracle` starts a small HTTP server inside the
Insomnia API client. Its `POST /query` endpoint takes `user`, `password`,
`connectString` and `query` in a JSON body. It opens one Oracle connection,
runs the statement, turns every binary (RAW) value of the fetched rows into
upper-case hexadecimal text, closes the connection and answers with the rows.

This project models that logic in Dafny and proves what it promises:

- `wrappers.dfy` (module `Wrappers`): the `Option` type used by the other modules.
- `hex.dfy` (module `Hex`): Node's `buffer.toString('hex')` followed by
  `toUpperCase()`. It is proved equal to the base16 encoding of section 8 of
  RFC 4648. It has twice as many characters as bytes, uses only `0-9A-F`,
  and a base16 decoder gives the bytes back. The decoder is not in the
  program; it is there to state that the encoding is lossless and exactly
  invertible.
- `rows.dfy` (module `Rows`): column values as a closed datatype, a row as
  the ordered list of its own properties (`Object.entries`), JavaScript
  property assignment, and the processing of rows. `result.rows.map(...)`
  is the function `NormaliseRows`. The callback, which fills a fresh object
  property by property, is the loop method `ProcessRow`. That method is
  proved to compute `NormaliseRow`.
- `request.dfy` (module `Request`): JSON body fields, JavaScript
  truthiness, and the guard that all four required fields are truthy.
- `gateway.dfy` (module `Gateway`): `executeOracleQuery`. The class
  `Session` holds the function's `connection` variable as a three-state
  field (`NotOpened`, `Open`, `Closed`). It also keeps three ghost records:
  a log of the credentials passed to each `getConnection` call, a log of
  the statements executed, and a count of `close` calls. The
  driver is a per-request `Script`: `getConnection`, `execute` and `close`
  each succeed or throw. A successful `execute` either fetches rows or
  leaves `result.rows` undefined, as a statement that fetches nothing does.
- `handler.dfy` (module `Handler`): the `POST /query` handler, with the 400,
  200 and 500 responses.

A row's entries have distinct names because they are the entries of a
JavaScript object. The type `Rows.Row` carries this as a subset-type
constraint, so every row the driver can return has it. On such rows the
assignment loop `ProcessRow` and the function `NormaliseRow` agree on every
input.

## Model

| member | source | states |
|---|---|---|
| `Hex.EncodeLower` | main.js:38 | `toString('hex')` gives exactly two characters per byte, all from `0-9a-f` |
| `Hex.EncodeUpper` | main.js:38 | the RFC 4648 base16 text has length 2·n and uses only `0-9A-F` |
| `Hex.UpperChar` | main.js:38 | `toUpperCase` on one character: a lower-case ASCII letter becomes the same upper-case letter, a lower-case hex digit becomes an upper-case hex digit, any other character is unchanged |
| `Hex.ToUpperCase` | main.js:38 | `.toUpperCase()` keeps the length, turns every lower-case hex digit into an upper-case one, leaves non-letters unchanged and leaves no lower-case ASCII letter |
| `Hex.UpperOfLowerIsBase16` | main.js:38 | upper-casing Node's lower-case hex text gives exactly the RFC 4648 base16 text of the same bytes |
| `Hex.BufferToUpperHex` | main.js:38 | the text a buffer becomes is the base16 text: length 2·n (so even), only `0-9A-F`, no lower-case letter, and it decodes back to the buffer |
| `Hex.DecodeEncode` | main.js:38 | round trip: decoding the hex text of any bytes gives those bytes |
| `Hex.EncodeDecode` | main.js:38 | converse: any text the decoder accepts is the hex text of the bytes it decodes to, so text and bytes determine each other |
| `Hex.DecodeAcceptsBase16` | main.js:38 | the decoder accepts every even-length text of upper-case hex digits; with `EncodeDecode`, every such text is the hex text of exactly one buffer |
| `Rows.Assign` | main.js:38-40 | `processedRow[key] = v` makes `key` read `v`, leaves every other property as it was, and appends a new key at the end |
| `Rows.AssignKeepsDistinct` | main.js:38-40 | assigning a property never makes a name occur twice, so the object being filled stays a valid row |
| `Rows.NormaliseValue` | main.js:36-41 | a non-buffer value is unchanged; a buffer becomes text of length 2·n in `0-9A-F` that decodes back to the bytes; no buffer comes out |
| `Rows.NormaliseRow` | main.js:33-44 | the `rows.map` callback gives a row with the same property names in the same order and no buffer value |
| `Rows.LookupNormalised` | main.js:34-43 | reading any property of the processed row gives the normalised value of that property of the input row; an absent property stays absent |
| `Rows.NormaliseRowContents` | main.js:34-43 | a processed row has the same property names in the same order, no name added or dropped, non-buffer values copied to the same name, buffers replaced by their hex text, and no buffer left |
| `Rows.NormaliseRows` | main.js:33-45 | `rows.map(...)` gives as many rows as it is given |
| `Rows.NormaliseRowsContents` | main.js:33-45 | row i of the output comes from row i of the input: same count and order, same names, each value normalised, no buffer left |
| `Rows.NormaliseRowsIdempotent` | main.js:33-44 | processing the processed rows again changes nothing, since they hold no buffer |
| `Rows.NormaliseExample` | main.js:36-38 | the row `{ID: 1, DATA: <AB CD>}` becomes `{ID: 1, DATA: "ABCD"}` |
| `Rows.ProcessRow` | main.js:34-43 | the `for…of` loop over `Object.entries(row)` builds exactly `NormaliseRow(row)`; its invariant says the processed prefix is the normalised input prefix |
| `Request.Truthy` | main.js:63 | a field is falsy exactly when it is missing, null, false, 0 or the empty string |
| `Request.HasRequiredFields` | main.js:61-63 | true exactly when all four fields are truthy; the 400 decision built on it is stated in `Handler.QueryResponse` |
| `Gateway.QueryOutcome` | main.js:18-56 | the call returns the processed rows exactly when connecting and executing both succeed and `result.rows` is defined; otherwise it throws the connect error, the execute error, or the TypeError of `result.rows.map` on undefined, in that order; the answer of `close` never enters |
| `Gateway.QueryOutcomeIgnoresClose` | main.js:47-55 | two scripts that differ only in the answer to `close` end the call the same way: a failing `close` never replaces the rows or the error |
| `Gateway.Session.constructor` | main.js:19-20 | a request starts with no connection and no driver call made |
| `Gateway.Session.GetConnection` | main.js:19-23 | one connection attempt, logged with the `config` it was given; the state becomes `Open` only if it succeeds |
| `Gateway.Session.Execute` | main.js:24-30 | runs the statement on an open connection and logs it; the connection stays open |
| `Gateway.Session.Close` | main.js:50 | one close attempt, counted whether it succeeds or throws; only a successful close reaches `Closed` |
| `Gateway.Session.ExecuteOracleQuery` | main.js:18-56 | exactly one connection attempt, made with the caller's user, password and connectString; the caller's statement runs only on an acquired connection; the final connection state is `NotOpened` if acquisition failed, else `Closed` unless `close` threw; `close` is attempted exactly once if the connection was acquired and never otherwise, on the return and the throw path alike; the result is `QueryOutcome`, so a failing `close` never replaces the rows or the original error |
| `Handler.QueryResponse` | main.js:59-80 | 400 with the fixed message exactly when a required field is falsy; 200 with `{success: true, data: rows}` exactly when the query returns; otherwise 500 with `success: false`, the request's `query` and the message of the error thrown |
| `Handler.HandleQuery` | main.js:59-80 | the handler answers `QueryResponse`; a rejected request leaves the session untouched (no connection attempt, no statement, no close); an accepted one makes one connection attempt with the request's user, password and connectString, runs the request's `query` if connected, closes exactly what it opened, and leaves the connection state `ConnectionAfter` the driver's answers |

## Left out

- The `oracledb` driver is not modelled: thin-mode initialisation, the connection itself, SQL execution, `outFormat` and the `fetchInfo` type coercions (main.js:11-15, 23-30). Each driver call is an answer from a `Script`: success with a value, or a throw with a message.
- Express and body-parser setup, routing, `app.listen` on port 3000 and the shutdown on `process.on('exit')` (main.js:2-8, 92-100, 137-142) are I/O and process lifecycle.
- `GET /status` (main.js:83-89) is not modelled. It only reports a wall-clock timestamp.
- The template tag (main.js:103-135) is not modelled. Its `run` calls `executeOracleQuery` with the same four arguments and no required-field check, then returns `JSON.stringify(rows, null, 2)`. The rows it serialises are the ones `Gateway.Session.ExecuteOracleQuery` returns.
- Logging (`console.error`) and the `details: err.stack` field of the 500 body are not modelled. A thrown error carries only its message.
- Inside the `try` block, three things can throw in the model: `getConnection`, `execute`, and `result.rows.map` when the statement fetched no rows (`result.rows` undefined, after the statement ran). The conversion of a single row never throws.
- `Rows.Value`: numbers are integers and dates are milliseconds. Both are only passed through, so floating point never matters. A LOB or any other object value is not distinguished from these.
- `Hex.UpperChar`: upper-cases only the ASCII letters. Full Unicode case mapping is not needed, because it is applied only to hex digits.
- `Rows.Assign`: property names are plain keys. The special `__proto__` setter and the ordering of integer-like names ahead of other names are not modelled. Rows arrive in `Object.entries` order and are rebuilt in that same order.
- `Request.JsValue`: a JSON number is an integer. JSON cannot carry `NaN`, and `-0` is falsy like `0`.
- The JSON body parser installed at main.js:8 passes only objects and arrays to the handler. An array body reads as four `JsUndefined` fields and gets the handler's 400 answer, which the model covers. Bodies the parser rejects itself, and what a missing body becomes, are framework behaviour and are not modelled.
