/** The response envelope (`buildResponse`) and the store operations whose
    outcome is the same in src/index.js and in class Document of
    src/document.js: listing a table, the create decision, update, delete. */
module Responses {
  import opened JsValues
  import opened Store

  /** `{statusCode, headers, body}`; `body` is the value `JSON.stringify` is
      applied to. */
  datatype Response = Response(statusCode: int, headers: seq<(string, string)>, body: JsValue)

  const JsonHeaders: seq<(string, string)> := [("Content-Type", "application/json")]

  /** `buildResponse`: the given status, the JSON content type and the given
      body, whatever the status. */
  function BuildResponse(statusCode: int, body: JsValue): (r: Response)
    ensures r.statusCode == statusCode && r.body == body
    ensures r.headers == [("Content-Type", "application/json")]
  {
    Response(statusCode, JsonHeaders, body)
  }

  /** A response together with the store requests issued to produce it, in order. */
  datatype Outcome = Outcome(response: Response, requests: seq<Request>)

  function Envelope(operation: string, name: string, payload: JsValue): JsValue
  {
    Obj([("operation", Str(operation)), ("message", Str("SUCCESS")), (name, payload)])
  }

  function SaveBody(item: Record): JsValue
  {
    Envelope("SAVE", "item", Obj(item))
  }

  /** `getDocuments`: scan the whole table and answer `{documents}` with 200;
      `documents` is `undefined` when a scan call failed. */
  function GetDocuments(tableName: string, db: Db): (o: Outcome)
    ensures o.response.statusCode == 200
    ensures var replies := db.scan(tableName); var s := FirstFinal(replies);
      && |o.requests| == s + 1
      && o.response.body == Obj([("documents",
           if replies[s].Page? then Arr(Flatten(replies[..s + 1])) else Undefined)])
  {
    var replies := db.scan(tableName);
    var r := ScanDynamoRecords(replies, InitialScanParams(tableName), []);
    assert [] + Flatten(replies[..FirstFinal(replies) + 1]) == Flatten(replies[..FirstFinal(replies) + 1]);
    var documents := match r.items case Some(items) => Arr(items) case None => Undefined;
    Outcome(BuildResponse(200, Obj([("documents", documents)])), r.requests)
  }

  /** The create decision: a non-empty validation message is answered with 400
      and nothing is put; otherwise the item is put and echoed with 200. */
  function CreateOutcome(tableName: string, msgError: string, checks: seq<Request>, item: Record): (o: Outcome)
    ensures msgError != "" ==> o.response.statusCode == 400 && o.response.body == Str(msgError)
    ensures msgError != "" ==> o.requests == checks
    ensures msgError == "" ==> o.response.statusCode == 200 && o.response.body == SaveBody(item)
    ensures msgError == "" ==> o.requests == checks + [PutItem(tableName, item)]
  {
    if msgError != "" then Outcome(BuildResponse(400, Str(msgError)), checks)
    else Outcome(BuildResponse(200, SaveBody(item)), checks + [PutItem(tableName, item)])
  }

  /** `updateDocument` / `Document.update`: one update, answered with 200 and
      the store's response as `updatedAttributes`. */
  function UpdateOutcome(tableName: string, id: JsValue, fieldsUpdated: Record, db: Db): (o: Outcome)
    ensures o.requests == [UpdateRequest(tableName, id, fieldsUpdated)]
    ensures o.response.statusCode == 200
    ensures o.response.body == Obj([("operation", Str("UPDATE")), ("message", Str("SUCCESS")),
                                    ("updatedAttributes", db.update(o.requests[0]))])
  {
    var request := UpdateRequest(tableName, id, fieldsUpdated);
    Outcome(BuildResponse(200, Envelope("UPDATE", "updatedAttributes", db.update(request))), [request])
  }

  /** `deleteDocument` / `Document.delete`: one delete, answered with 200 and
      the store's response as `item`. */
  function DeleteOutcome(tableName: string, id: JsValue, db: Db): (o: Outcome)
    ensures o.requests == [DeleteItem(tableName, id)]
    ensures o.response.statusCode == 200
    ensures o.response.body == Obj([("operation", Str("DELETE")), ("message", Str("SUCCESS")),
                                    ("item", db.delete(DeleteItem(tableName, id)))])
  {
    var request := DeleteItem(tableName, id);
    Outcome(BuildResponse(200, Envelope("DELETE", "item", db.delete(request))), [request])
  }
}
