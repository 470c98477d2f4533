/** Pre-create validation (`validateBeforeCreate` in src/index.js and in class
    Document of src/document.js): three checks in a fixed order, the first
    failure short-circuiting the rest. Only the per-collection configuration
    differs between the two copies, so the checks are defined once here. */
module Validation {
  import opened Strings
  import opened JsValues
  import opened Expressions
  import opened Store

  /** What `getParamsToQueryDocument` returns: the fields of the uniqueness
      query and the words that describe them in the duplicate message. */
  datatype SearchParams = SearchParams(fieldsToSearch: Record, complementaryMsg: string)

  /** The message `validateBeforeCreate` resolves to (`''` when every check
      passed) and the store requests it issued. */
  datatype Verdict = Verdict(msgError: string, requests: seq<Request>)

  /** The required fields whose value in the body is falsy, in declared order. */
  function MissingFields(fieldsRequired: seq<string>, requestBody: Record): seq<string>
  {
    if fieldsRequired == [] then []
    else
      var n := |fieldsRequired| - 1;
      MissingFields(fieldsRequired[..n], requestBody)
        + (if !Truthy(Get(requestBody, fieldsRequired[n])) then [fieldsRequired[n]] else [])
  }

  /** A field is reported missing exactly when it is required and its value is
      absent, `''`, `0`, `false` or `null`. */
  lemma {:induction false} MissingFieldsExact(fieldsRequired: seq<string>, requestBody: Record)
    ensures forall f :: f in MissingFields(fieldsRequired, requestBody) <==>
              f in fieldsRequired && !Truthy(Get(requestBody, f))
    ensures |MissingFields(fieldsRequired, requestBody)| <= |fieldsRequired|
  {
    if fieldsRequired != [] {
      var n := |fieldsRequired| - 1;
      MissingFieldsExact(fieldsRequired[..n], requestBody);
      assert fieldsRequired == fieldsRequired[..n] + [fieldsRequired[n]];
    }
  }

  /** The `fieldsRequired.map(...)` loop that pushes every falsy field. */
  method CollectMissingFields(fieldsRequired: seq<string>, requestBody: Record) returns (missingFields: seq<string>)
    ensures missingFields == MissingFields(fieldsRequired, requestBody)
  {
    missingFields := [];
    var i := 0;
    while i < |fieldsRequired|
      invariant 0 <= i <= |fieldsRequired|
      invariant missingFields == MissingFields(fieldsRequired[..i], requestBody)
    {
      assert fieldsRequired[..i + 1][..i] == fieldsRequired[..i];
      var fieldName := fieldsRequired[i];
      if !Truthy(Get(requestBody, fieldName)) {
        missingFields := missingFields + [fieldName];
      }
      i := i + 1;
    }
    assert fieldsRequired[..|fieldsRequired|] == fieldsRequired;
  }

  const MissingMessagePrefix :=
    "Não é possível incluir o registro, pois os seguintes campos obrigatórios não foram preenchidos: "

  function MissingMessage(missingFields: seq<string>): string
  {
    MissingMessagePrefix + Join(missingFields, ", ") + "."
  }

  function DuplicateIdMessage(tableLabel: string, id: JsValue): string
  {
    "Já existe " + tableLabel + " cadastrado(a) com o ID " + Display(id) + "."
  }

  function DuplicateMessage(tableLabel: string, complementaryMsg: string): string
  {
    "Já existe " + tableLabel + " cadastrado(a) " + complementaryMsg + "."
  }

  /** The three checks. The lookup by id is made only when no field is missing,
      the uniqueness query only when no record has that id; the message is
      `''` exactly when all three pass. */
  function Validate(tableName: string, fieldsRequired: seq<string>, tableLabel: string,
                    search: SearchParams, requestBody: Record, db: Db): (v: Verdict)
    ensures var missing := MissingFields(fieldsRequired, requestBody);
            var byId := GetItem(tableName, Get(requestBody, FieldNameId));
            var query := QueryRequest(tableName, search.fieldsToSearch);
      && (v.msgError == "" <==>
            missing == [] && !Truthy(db.getItem(byId)) && |db.queryItems(query)| == 0)
      && (missing != [] ==> v == Verdict(MissingMessage(missing), []))
      && (missing == [] && Truthy(db.getItem(byId)) ==>
            v == Verdict(DuplicateIdMessage(tableLabel, Get(requestBody, FieldNameId)), [byId]))
      && (missing == [] && !Truthy(db.getItem(byId)) ==>
            v.requests == [byId, query]
            && (v.msgError != "" ==> v.msgError == DuplicateMessage(tableLabel, search.complementaryMsg)))
  {
    var missing := MissingFields(fieldsRequired, requestBody);
    if |missing| > 0 then Verdict(MissingMessage(missing), [])
    else
      var id := Get(requestBody, FieldNameId);
      var byId := GetItem(tableName, id);
      if Truthy(db.getItem(byId)) then Verdict(DuplicateIdMessage(tableLabel, id), [byId])
      else
        var query := QueryRequest(tableName, search.fieldsToSearch);
        var msgError := if |db.queryItems(query)| > 0 then DuplicateMessage(tableLabel, search.complementaryMsg) else "";
        Verdict(msgError, [byId, query])
  }
}
