/** The document store as the gateway sees it. The store itself is foreign: it
    is an oracle (`Db`) answering the requests the gateway issues, and every
    operation of the model reports the requests it issued, in order. */
module Store {
  import opened Strings
  import opened JsValues
  import opened Expressions

  /** The `params` object of each DocumentClient call the core makes. */
  datatype Request =
    | GetItem(tableName: string, key: JsValue)
    | QueryItems(tableName: string, indexName: string, keyConditionExpression: string,
                 expressionAttributeValues: map<string, AttrValue>)
    | PutItem(tableName: string, item: Record)
    | UpdateItem(tableName: string, key: JsValue, updateExpression: string,
                 expressionAttributeValues: map<string, AttrValue>)
    | DeleteItem(tableName: string, key: JsValue)
    | ScanItems(params: Record)

  /** The answer to one scan call: a page of items with its `LastEvaluatedKey`
      (`undefined` on the last page), or a failed call. */
  datatype ScanReply = Page(items: seq<JsValue>, lastEvaluatedKey: JsValue) | ScanError

  /** A reply after which no further scan call is made. */
  predicate Final(r: ScanReply)
  {
    r.ScanError? || !Truthy(r.lastEvaluatedKey)
  }

  predicate EndsFinal(rs: seq<ScanReply>)
  {
    |rs| > 0 && Final(rs[|rs| - 1])
  }

  /** The replies a table gives to successive scan calls. The oracle does not
      look at the parameters of a call, and the sequence is taken to end with
      a final reply: this is an idealised table, not what the misspelt
      continuation key leads to on a real multi-page table (see README). */
  type Replies = rs: seq<ScanReply> | EndsFinal(rs) witness [ScanError]

  /** The store's answers: `Item` of a get (`undefined` when absent), `Items`
      of a query, the whole response of an update or a delete, and the
      replies of each table to its scan calls. */
  datatype Db = Db(
    getItem: Request -> JsValue,
    queryItems: Request -> seq<JsValue>,
    update: Request -> JsValue,
    delete: Request -> JsValue,
    scan: string -> Replies)

  /** `queryDocument` / `Document.query`: the key condition is built with `' and '`. */
  function QueryRequest(tableName: string, fieldsToSearch: Record): Request
  {
    var e := ExpressionOf(fieldsToSearch, " and ");
    QueryItems(tableName, e.index, e.keys, e.values)
  }

  /** `updateDocument` / `Document.update`: the update sets every field of the
      body but `id`, clauses joined with `', '` after `set `. */
  function UpdateRequest(tableName: string, id: JsValue, fieldsUpdated: Record): Request
  {
    var e := ExpressionOf(fieldsUpdated, ", ");
    UpdateItem(tableName, id, "set " + e.keys, e.values)
  }

  /** Every uniqueness query reads the index named after all the search
      fields, joins the conditions of exactly the search fields other than `id`
      with `' and '`, and binds exactly those fields' placeholders to their
      values. */
  lemma QueryMatchesAllButId(tableName: string, fields: Record)
    ensures var q := QueryRequest(tableName, fields);
      && q == QueryItems(tableName, q.indexName, q.keyConditionExpression, q.expressionAttributeValues)
      && q.indexName == Join(Keys(fields), "-") + "-index"
      && q.keyConditionExpression == Join(Clauses(fields), " and ")
      && (forall j :: 0 <= j < |Clauses(fields)| ==>
            exists i :: 0 <= i < |fields| && fields[i].0 != FieldNameId && Clauses(fields)[j] == Clause(fields[i].0, i))
      && (forall i :: 0 <= i < |fields| && fields[i].0 != FieldNameId ==> Clause(fields[i].0, i) in Clauses(fields))
      && (forall i :: 0 <= i < |fields| && fields[i].0 != FieldNameId ==>
            Placeholder(i) in q.expressionAttributeValues
            && q.expressionAttributeValues[Placeholder(i)] == AttrOf(fields[i].1))
      && (forall p :: p in q.expressionAttributeValues ==>
            exists i :: 0 <= i < |fields| && fields[i].0 != FieldNameId && p == Placeholder(i))
  {
    var q := QueryRequest(tableName, fields);
    assert q == QueryItems(tableName, IndexName(fields), Join(Clauses(fields), " and "), Values(fields));
    NoClauseForId(fields);
    EveryFieldHasClause(fields);
    ValuesArePlaceholders(fields);
  }

  /** Every update sets exactly the body's fields other than `id`: one clause
      `key = :valueI` per such field, joined with `', '` after `set `, and
      the placeholder map binds exactly those placeholders to the fields'
      values; the key of the update is the given id. */
  lemma UpdateSetsAllButId(tableName: string, id: JsValue, fields: Record)
    ensures var q := UpdateRequest(tableName, id, fields);
      && q == UpdateItem(tableName, id, q.updateExpression, q.expressionAttributeValues)
      && q.updateExpression == "set " + Join(Clauses(fields), ", ")
      && (forall j :: 0 <= j < |Clauses(fields)| ==>
            exists i :: 0 <= i < |fields| && fields[i].0 != FieldNameId && Clauses(fields)[j] == Clause(fields[i].0, i))
      && (forall i :: 0 <= i < |fields| && fields[i].0 != FieldNameId ==> Clause(fields[i].0, i) in Clauses(fields))
      && (forall i :: 0 <= i < |fields| && fields[i].0 != FieldNameId ==>
            Placeholder(i) in q.expressionAttributeValues
            && q.expressionAttributeValues[Placeholder(i)] == AttrOf(fields[i].1))
      && (forall p :: p in q.expressionAttributeValues ==>
            exists i :: 0 <= i < |fields| && fields[i].0 != FieldNameId && p == Placeholder(i))
  {
    var q := UpdateRequest(tableName, id, fields);
    assert q == UpdateItem(tableName, id, "set " + Join(Clauses(fields), ", "), Values(fields));
    NoClauseForId(fields);
    EveryFieldHasClause(fields);
    ValuesArePlaceholders(fields);
  }

  function InitialScanParams(tableName: string): Record
  {
    [("TableName", Str(tableName))]
  }

  /** The index of the first final reply: the scan stops there. */
  function FirstFinal(replies: seq<ScanReply>): (s: nat)
    requires EndsFinal(replies)
    ensures s < |replies| && Final(replies[s])
    ensures forall j :: 0 <= j < s ==> !Final(replies[j])
    decreases |replies|
  {
    if Final(replies[0]) then 0 else 1 + FirstFinal(replies[1..])
  }

  /** The items of the pages among `replies`, concatenated in order. */
  function Flatten(replies: seq<ScanReply>): seq<JsValue>
  {
    if replies == [] then []
    else (if replies[0].Page? then replies[0].items else []) + Flatten(replies[1..])
  }

  /** Past a non-final first reply, the pages up to the stop are that reply's
      page followed by those of the rest. */
  lemma {:induction false} FlattenStep(replies: seq<ScanReply>)
    requires EndsFinal(replies) && !Final(replies[0])
    ensures FirstFinal(replies) == 1 + FirstFinal(replies[1..])
    ensures Flatten(replies[..FirstFinal(replies) + 1])
            == replies[0].items + Flatten(replies[1..][..FirstFinal(replies[1..]) + 1])
  {
    var s := FirstFinal(replies[1..]);
    assert FirstFinal(replies) == 1 + s;
    var taken := replies[..s + 2];
    assert taken[0] == replies[0];
    assert taken[1..] == replies[1..][..s + 1];
  }

  /** The parameters of the next scan call: the page's `LastEvaluatedKey`
      stored under the misspelt property name. */
  function Continued(scanParams: Record, lastEvaluatedKey: JsValue): Record
  {
    Set(scanParams, MisspeltStartKey, lastEvaluatedKey)
  }

  datatype ScanResult = ScanResult(items: Option<seq<JsValue>>, requests: seq<Request>)

  /** `scanDynamoRecords(scanParams, itemArray)`: scan, append the page, and
      go on while the page carries a `LastEvaluatedKey`; a failed call is
      caught and the whole result is `undefined` (`None`). The continuation
      key is written to the misspelt `ExclusiveStartkey` property. */
  function ScanDynamoRecords(replies: seq<ScanReply>, scanParams: Record, itemArray: seq<JsValue>): (r: ScanResult)
    requires EndsFinal(replies)
    ensures var s := FirstFinal(replies);
      && |r.requests| == s + 1
      && r.requests[0] == ScanItems(scanParams)
      && (r.items.Some? <==> replies[s].Page?)
      && (r.items.Some? ==> r.items.value == itemArray + Flatten(replies[..s + 1]))
    decreases |replies|
  {
    var reply := replies[0];
    if reply.ScanError? then ScanResult(None, [ScanItems(scanParams)])
    else
      var acc := itemArray + reply.items;
      if Truthy(reply.lastEvaluatedKey) then
        var next := Continued(scanParams, reply.lastEvaluatedKey);
        var rest := ScanDynamoRecords(replies[1..], next, acc);
        ScanStep(replies, scanParams, itemArray, rest);
        ScanResult(rest.items, [ScanItems(scanParams)] + rest.requests)
      else
        ScanResult(Some(acc), [ScanItems(scanParams)])
  }

  /** One step of the scan: if the rest of the replies gave `rest` from the
      accumulated items, prefixing this call gives the result for all replies. */
  lemma {:induction false} ScanStep(replies: seq<ScanReply>, scanParams: Record, itemArray: seq<JsValue>, rest: ScanResult)
    requires EndsFinal(replies) && !Final(replies[0])
    requires var s := FirstFinal(replies[1..]);
      && |rest.requests| == s + 1
      && (rest.items.Some? <==> replies[1..][s].Page?)
      && (rest.items.Some? ==> rest.items.value == (itemArray + replies[0].items) + Flatten(replies[1..][..s + 1]))
    ensures var r := ScanResult(rest.items, [ScanItems(scanParams)] + rest.requests);
            var s := FirstFinal(replies);
      && |r.requests| == s + 1
      && r.requests[0] == ScanItems(scanParams)
      && (r.items.Some? <==> replies[s].Page?)
      && (r.items.Some? ==> r.items.value == itemArray + Flatten(replies[..s + 1]))
  {
    var s := FirstFinal(replies[1..]);
    var page := replies[0].items;
    var tail := Flatten(replies[1..][..s + 1]);
    FlattenStep(replies);
    assert FirstFinal(replies) == s + 1;
    assert replies[1..][s] == replies[s + 1];
    assert Flatten(replies[..s + 2]) == page + tail;
    assert (itemArray + page) + tail == itemArray + (page + tail);
  }

  /** The property name DynamoDB reads the continuation key from, and the one
      the source writes it to. */
  const StartKey := "ExclusiveStartKey"
  const MisspeltStartKey := "ExclusiveStartkey"

  /** Every request of `rs` is a scan whose `ExclusiveStartKey` is `k`. */
  predicate AllSendStartKey(rs: seq<Request>, k: JsValue)
  {
    forall q :: q in rs ==> q.ScanItems? && Get(q.params, StartKey) == k
  }

  /** Every scan request carries the same `ExclusiveStartKey` as the first:
      the continuation is written under the misspelt name only. */
  lemma {:induction false} ScanKeepsStartKey(replies: seq<ScanReply>, scanParams: Record, itemArray: seq<JsValue>)
    requires EndsFinal(replies)
    ensures AllSendStartKey(ScanDynamoRecords(replies, scanParams, itemArray).requests, Get(scanParams, StartKey))
    decreases |replies|
  {
    var reply := replies[0];
    if reply.Page? && Truthy(reply.lastEvaluatedKey) {
      var next := Continued(scanParams, reply.lastEvaluatedKey);
      var acc := itemArray + reply.items;
      ScanKeepsStartKey(replies[1..], next, acc);
      assert MisspeltStartKey[14] != StartKey[14];
      assert Get(next, StartKey) == Get(scanParams, StartKey);
    }
  }

  /** Listing a table never sends `ExclusiveStartKey`, so the continuation key
      of a page never reaches the store. */
  lemma ContinuationNeverSent(tableName: string, replies: Replies)
    ensures AllSendStartKey(ScanDynamoRecords(replies, InitialScanParams(tableName), []).requests, Undefined)
  {
    ScanKeepsStartKey(replies, InitialScanParams(tableName), []);
    assert "TableName"[0] != StartKey[0];
  }
}
