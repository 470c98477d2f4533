/** The wired entry point, `exports.handler` of src/index.js: the path picks
    the table, the HTTP method picks the operation, and each operation answers
    with the response `buildResponse` makes. The per-table configuration of
    the create checks lives here in three lookup maps. */
module Gateway {
  import opened Strings
  import opened JsValues
  import opened Expressions
  import opened Store
  import opened Validation
  import opened Responses

  const PathBrand := "/marca"
  const PathCategory := "/categoria"
  const PathProduct := "/produto"

  const TableBrand := "marcas"
  const TableCategory := "categorias"
  const TableProduct := "produtos"

  /** `mapPath`. */
  const MapPath: map<string, string> :=
    map[PathBrand := TableBrand, PathCategory := TableCategory, PathProduct := TableProduct]

  /** `mapLabel` of `validateBeforeCreate`. */
  const MapLabel: map<string, string> :=
    map[TableBrand := "uma marca", TableCategory := "uma categoria", TableProduct := "um produto"]

  /** `mapFieldsRequired` of `validateBeforeCreate`. */
  const MapFieldsRequired: map<string, seq<string>> :=
    map[TableBrand := ["id", "nome"], TableCategory := ["id", "nome"],
        TableProduct := ["id", "descricao", "idMarca", "nomeMarca", "precoVenda", "categorias"]]

  /** A table `validateBeforeCreate` has a label and required fields for. */
  predicate IsTable(tableName: string)
  {
    tableName in MapLabel && tableName in MapFieldsRequired
  }

  /** Exactly three paths are served, each by its own table, and every table
      a path leads to is configured for creation. */
  lemma PathsToTables()
    ensures forall path :: path in MapPath <==> path == "/marca" || path == "/categoria" || path == "/produto"
    ensures MapPath["/marca"] == "marcas" && MapPath["/categoria"] == "categorias" && MapPath["/produto"] == "produtos"
    ensures forall path :: path in MapPath ==> IsTable(MapPath[path])
    ensures forall p, q :: p in MapPath && q in MapPath && p != q ==> MapPath[p] != MapPath[q]
  {
    assert TableBrand[0] != TableCategory[0] && TableCategory[0] != TableProduct[0] && TableProduct[0] != TableBrand[0];
  }

  /** The uniqueness query of `validateBeforeCreate`: `descricao` and
      `idMarca` for products, `nome` for every other table. */
  function SearchParamsOf(tableName: string, requestBody: Record): SearchParams
  {
    if tableName == TableProduct then
      var descricao := Get(requestBody, "descricao");
      var idMarca := Get(requestBody, "idMarca");
      SearchParams([("descricao", descricao), ("idMarca", idMarca)],
                   "com a descrição " + Display(descricao) + " e o ID de marca " + Display(idMarca))
    else
      SearchParams([("nome", Get(requestBody, "nome"))], "com o nome " + Display(Get(requestBody, "nome")))
  }

  /** The verdict of `validateBeforeCreate(tableName, requestBody)`. */
  function ValidationFor(tableName: string, requestBody: Record, db: Db): Verdict
    requires IsTable(tableName)
  {
    Validate(tableName, MapFieldsRequired[tableName], MapLabel[tableName],
             SearchParamsOf(tableName, requestBody), requestBody, db)
  }

  /** `validateBeforeCreate`: the missing-fields loop, then the lookup by id,
      then the uniqueness query, each only when the previous step passed. */
  method ValidateBeforeCreate(tableName: string, requestBody: Record, db: Db) returns (msgError: string, requests: seq<Request>)
    requires IsTable(tableName)
    ensures Verdict(msgError, requests) == ValidationFor(tableName, requestBody, db)
  {
    var tableLabel := MapLabel[tableName];
    var fieldsRequired := MapFieldsRequired[tableName];
    var missingFields := CollectMissingFields(fieldsRequired, requestBody);
    msgError := "";
    requests := [];
    if |missingFields| > 0 {
      msgError := MissingMessage(missingFields);
    } else {
      var byId := GetItem(tableName, Get(requestBody, FieldNameId));
      var alreadyExists := db.getItem(byId);
      requests := [byId];
      if Truthy(alreadyExists) {
        msgError := DuplicateIdMessage(tableLabel, Get(requestBody, FieldNameId));
      } else {
        var fieldsToSearch: Record;
        var complementaryMsg: string;
        if tableName == TableProduct {
          fieldsToSearch := [("descricao", Get(requestBody, "descricao")), ("idMarca", Get(requestBody, "idMarca"))];
          complementaryMsg := "com a descrição " + Display(Get(requestBody, "descricao"))
                              + " e o ID de marca " + Display(Get(requestBody, "idMarca"));
        } else {
          fieldsToSearch := [("nome", Get(requestBody, "nome"))];
          complementaryMsg := "com o nome " + Display(Get(requestBody, "nome"));
        }
        var expression := CalcExpression(fieldsToSearch, " and ");
        var query := QueryItems(tableName, expression.index, expression.keys, expression.values);
        var found := db.queryItems(query);
        requests := requests + [query];
        if |found| > 0 {
          msgError := DuplicateMessage(tableLabel, complementaryMsg);
        }
      }
    }
  }

  /** The fields of the Lambda proxy event the handler reads; `body` is the
      request body as `JSON.parse` returns it. */
  datatype Event = Event(path: string, httpMethod: string, queryStringParameters: JsValue, body: Record)

  /** `exports.handler`. */
  function Handler(event: Event, db: Db): (o: Outcome)
    // an unknown path: 500 with an empty body, whatever the method, and no store request
    ensures event.path !in MapPath ==> o == Outcome(BuildResponse(500, Str("")), [])
    // a known path with an unsupported method: 404, no store request
    ensures event.path in MapPath && event.httpMethod !in {"GET", "POST", "PATCH", "DELETE"} ==>
              o == Outcome(BuildResponse(404, Str("404 Not Found")), [])
    ensures event.path in MapPath && event.httpMethod == "GET" ==>
              var t := MapPath[event.path];
              var qs := event.queryStringParameters;
              o.response.statusCode == 200
              && (Truthy(qs) && Truthy(Prop(qs, "id")) ==>
                    o.requests == [GetItem(t, Prop(qs, "id"))]
                    && o.response.body == db.getItem(GetItem(t, Prop(qs, "id"))))
              && (!(Truthy(qs) && Truthy(Prop(qs, "id"))) ==>
                    o == GetDocuments(t, db)
                    && |o.requests| == FirstFinal(db.scan(t)) + 1
                    && forall q :: q in o.requests ==> q.ScanItems?)
    ensures event.path in MapPath && event.httpMethod == "POST" ==>
              var t := MapPath[event.path];
              var v := ValidationFor(t, event.body, db);
              && (o.response.statusCode == 400 <==> v.msgError != "")
              && (o.response.statusCode == 200 <==> v.msgError == "")
              && (v.msgError != "" ==> o.response.body == Str(v.msgError) && o.requests == v.requests)
              && (v.msgError == "" ==> o.response.body == SaveBody(event.body)
                                       && o.requests == v.requests + [PutItem(t, event.body)])
    ensures event.path in MapPath && event.httpMethod == "PATCH" ==>
              var t := MapPath[event.path];
              o == UpdateOutcome(t, Get(event.body, FieldNameId), event.body, db)
              && o.response.statusCode == 200
              && o.requests == [UpdateRequest(t, Get(event.body, FieldNameId), event.body)]
    ensures event.path in MapPath && event.httpMethod == "DELETE" ==>
              var t := MapPath[event.path];
              o == DeleteOutcome(t, Get(event.body, FieldNameId), db)
              && o.response.statusCode == 200 && o.requests == [DeleteItem(t, Get(event.body, FieldNameId))]
  {
    PathsToTables();
    if event.path in MapPath then
      var tableName := MapPath[event.path];
      match event.httpMethod
      case "GET" =>
        var qs := event.queryStringParameters;
        if Truthy(qs) && Truthy(Prop(qs, "id")) then
          var request := GetItem(tableName, Prop(qs, "id"));
          Outcome(BuildResponse(200, db.getItem(request)), [request])
        else
          var listing := GetDocuments(tableName, db);
          ListingIsScans(tableName, db);
          listing
      case "POST" =>
        var v := ValidationFor(tableName, event.body, db);
        CreateOutcome(tableName, v.msgError, v.requests, event.body)
      case "PATCH" =>
        UpdateOutcome(tableName, Get(event.body, FieldNameId), event.body, db)
      case "DELETE" =>
        DeleteOutcome(tableName, Get(event.body, FieldNameId), db)
      case _ =>
        Outcome(BuildResponse(404, Str("404 Not Found")), [])
    else
      Outcome(BuildResponse(500, Str("")), [])
  }

  /** Listing a table issues scan requests only. */
  lemma ListingIsScans(tableName: string, db: Db)
    ensures forall q :: q in GetDocuments(tableName, db).requests ==> q.ScanItems?
  {
    ContinuationNeverSent(tableName, db.scan(tableName));
  }

  /** A `GET` whose `id` query parameter is the empty string is not a lookup:
      `''` is falsy, so the whole table is listed. */
  lemma EmptyIdListsTable(path: string, body: Record, db: Db)
    requires path in MapPath
    ensures Handler(Event(path, "GET", Obj([("id", Str(""))]), body), db) == GetDocuments(MapPath[path], db)
  {
  }

  /** A `GET` by an id the table does not hold still answers 200, with an
      `undefined` body. */
  lemma AbsentIdStill200(path: string, id: string, body: Record, db: Db)
    requires path in MapPath && id != ""
    requires db.getItem(GetItem(MapPath[path], Str(id))) == Undefined
    ensures Handler(Event(path, "GET", Obj([("id", Str(id))]), body), db).response == BuildResponse(200, Undefined)
  {
  }

  /** A `PATCH` of `{id: "5", nome: "X"}` sets only `nome`, through the
      placeholder `:value1`: the skipped `id` leaves a gap in the numbering. */
  lemma UpdateSkipsId(path: string, db: Db)
    requires path in MapPath
    ensures Handler(Event(path, "PATCH", Undefined, [("id", Str("5")), ("nome", Str("X"))]), db).requests
            == [UpdateItem(MapPath[path], Str("5"), "set nome = :value1", map[":value1" := Plain(Str("X"))])]
  {
    var fields: Record := [("id", Str("5")), ("nome", Str("X"))];
    PatchClauses(fields);
    PatchValues(fields);
    assert "set " + "nome = :value1" == "set nome = :value1";
  }

  lemma PatchClauses(fields: Record)
    requires fields == [("id", Str("5")), ("nome", Str("X"))]
    ensures Join(Clauses(fields), ", ") == "nome = :value1"
  {
    assert fields[..1][..0] == [];
    assert fields[..1][0].0 == FieldNameId;
    assert "nome"[0] != FieldNameId[0];
    assert Clauses(fields[..1]) == [];
    assert Clauses(fields) == [Clause("nome", 1)];
    assert NatToString(1) == "1";
    assert Clause("nome", 1) == "nome = :value1";
  }

  lemma PatchValues(fields: Record)
    requires fields == [("id", Str("5")), ("nome", Str("X"))]
    ensures Values(fields) == map[":value1" := Plain(Str("X"))]
  {
    assert fields[..1][..0] == [];
    assert fields[..1][0].0 == FieldNameId;
    assert "nome"[0] != FieldNameId[0];
    assert Values(fields[..1]) == map[];
    assert NatToString(1) == "1";
    assert Placeholder(1) == ":value1";
  }
}
