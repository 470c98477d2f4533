/** Class `Document` of src/document.js: one collection's configuration,
    fixed at construction, and the operations that run against it. The
    per-collection override of `getParamsToQueryDocument` is the value of a
    function-valued field: the base constructor installs the base version,
    `Derived` is what a subclass's `super(...)` call does. */
module Documents {
  import opened JsValues
  import opened Expressions
  import opened Store
  import opened Validation
  import opened Responses
  import opened Images

  /** The parsed request body, which `uploadImages` rewrites in place. */
  class RequestBody {
    var fields: Record

    constructor(fields: Record)
      ensures this.fields == fields
    {
      this.fields := fields;
    }
  }

  /** The base `getParamsToQueryDocument`: nothing to search on. */
  function BaseParamsToQuery(requestBody: Record): SearchParams
  {
    SearchParams([], "")
  }

  /** With the base override the uniqueness query has no condition, no
      placeholder and the index `-index`. */
  lemma BaseQueryIsEmpty(tableName: string, requestBody: Record)
    ensures QueryRequest(tableName, BaseParamsToQuery(requestBody).fieldsToSearch)
            == QueryItems(tableName, "-index", "", map[])
  {
    EmptyExpression(" and ");
  }

  class Document {
    const db: Db
    const bucketName: string
    const tableName: string
    const tableLabel: string
    const fieldsRequired: seq<string>
    const getParamsToQueryDocument: Record -> SearchParams

    /** `new Document(opt)`. */
    constructor(db: Db, bucketName: string, tableName: string, tableLabel: string, fieldsRequired: seq<string>)
      ensures this.db == db && this.bucketName == bucketName && this.tableName == tableName
      ensures this.tableLabel == tableLabel && this.fieldsRequired == fieldsRequired
      ensures this.getParamsToQueryDocument == BaseParamsToQuery
    {
      this.db := db;
      this.bucketName := bucketName;
      this.tableName := tableName;
      this.tableLabel := tableLabel;
      this.fieldsRequired := fieldsRequired;
      this.getParamsToQueryDocument := BaseParamsToQuery;
    }

    /** `super({...opt, tableName, tableLabel, fieldsRequired})` in a subclass
        that overrides `getParamsToQueryDocument`. */
    constructor Derived(db: Db, bucketName: string, tableName: string, tableLabel: string,
                        fieldsRequired: seq<string>, getParamsToQueryDocument: Record -> SearchParams)
      ensures this.db == db && this.bucketName == bucketName && this.tableName == tableName
      ensures this.tableLabel == tableLabel && this.fieldsRequired == fieldsRequired
      ensures this.getParamsToQueryDocument == getParamsToQueryDocument
    {
      this.db := db;
      this.bucketName := bucketName;
      this.tableName := tableName;
      this.tableLabel := tableLabel;
      this.fieldsRequired := fieldsRequired;
      this.getParamsToQueryDocument := getParamsToQueryDocument;
    }

    /** The verdict of the three checks with this collection's configuration. */
    function ValidationOf(requestBody: Record): Verdict
    {
      Validate(tableName, fieldsRequired, tableLabel, getParamsToQueryDocument(requestBody), requestBody, db)
    }

    /** `validateBeforeCreate`: the missing-fields loop, then `findById`, then
        `query` on the override's fields, each step only when the previous
        one found nothing. */
    method ValidateBeforeCreate(requestBody: RequestBody) returns (msgError: string, requests: seq<Request>)
      ensures Verdict(msgError, requests) == ValidationOf(requestBody.fields)
    {
      var body := requestBody.fields;
      var missingFields := CollectMissingFields(fieldsRequired, body);
      msgError := "";
      requests := [];
      if |missingFields| > 0 {
        msgError := MissingMessage(missingFields);
      } else {
        var byId := GetItem(tableName, Get(body, FieldNameId));
        var alreadyExists := db.getItem(byId);
        requests := [byId];
        if Truthy(alreadyExists) {
          msgError := DuplicateIdMessage(tableLabel, Get(body, FieldNameId));
        } else {
          var paramsToQuery := getParamsToQueryDocument(body);
          var expression := CalcExpression(paramsToQuery.fieldsToSearch, " and ");
          var query := QueryItems(tableName, expression.index, expression.keys, expression.values);
          var found := db.queryItems(query);
          requests := requests + [query];
          if |found| > 0 {
            msgError := DuplicateMessage(tableLabel, paramsToQuery.complementaryMsg);
          }
        }
      }
    }

    /** `uploadImages`: one upload per file, in order, then the image field
        rewritten to the references. A file that is not a string throws out
        of the mapping before the body is touched. */
    method UploadImages(requestBody: RequestBody, now: nat -> string) returns (uploads: seq<Upload>, threw: bool)
      modifies requestBody
      ensures Substitution(requestBody.fields, uploads, threw)
              == SubstituteImages(old(requestBody.fields), bucketName, now)
    {
      var body := requestBody.fields;
      var files: seq<JsValue> := [];
      var imagens := Get(body, "imagens");
      var imagem := Get(body, "imagem");
      if Truthy(imagens) && imagens.Arr? {
        files := imagens.items;
      } else if Truthy(imagem) {
        files := [imagem];
      }
      assert files == ImageFiles(body);
      var id := Get(body, "id");
      var uploaded: seq<JsValue> := [];
      uploads := [];
      threw := false;
      var i := 0;
      while i < |files|
        invariant 0 <= i <= |files| && i <= LeadingStrings(files)
        invariant uploads == ImageUploads(body, bucketName, now)[..i]
        invariant uploaded == References(bucketName, uploads)
      {
        var base64File := files[i];
        if !base64File.Str? {
          threw := true;
          assert i == LeadingStrings(files);
          assert uploads == ImageUploads(body, bucketName, now);
          return;
        }
        var key := ImageKey(id, now(i));
        uploads := uploads + [Upload(bucketName, key, StripDataUri(base64File.s), ContentType)];
        uploaded := uploaded + [Reference(bucketName, key)];
        i := i + 1;
      }
      assert i == LeadingStrings(files);
      assert uploads == ImageUploads(body, bucketName, now);
      if |uploaded| > 0 && Truthy(imagens) {
        requestBody.fields := Set(body, "imagens", Arr(uploaded));
      } else if |uploaded| > 0 && Truthy(imagem) {
        requestBody.fields := Set(body, "imagem", uploaded[0]);
      }
    }

    /** What `create` answers: 400 with the message, or 200 echoing the body
        as rewritten by the image substitution, which is also what is put. */
    function CreateOutcomeOf(requestBody: Record, now: nat -> string): Outcome
    {
      var v := ValidationOf(requestBody);
      if v.msgError != "" then CreateOutcome(tableName, v.msgError, v.requests, requestBody)
      else CreateOutcome(tableName, "", v.requests, SubstituteImages(requestBody, bucketName, now).fields)
    }

    /** `create`: validate; on a message answer 400 and touch nothing (no
        upload, no put); on success rewrite the image fields in place, then
        put the rewritten body and echo it with 200. */
    method Create(requestBody: RequestBody, now: nat -> string) returns (o: Outcome, uploads: seq<Upload>)
      modifies requestBody
      ensures o == CreateOutcomeOf(old(requestBody.fields), now)
      ensures var v := ValidationOf(old(requestBody.fields));
        && (v.msgError != "" ==> uploads == [] && requestBody.fields == old(requestBody.fields))
        && (v.msgError == "" ==>
              var sub := SubstituteImages(old(requestBody.fields), bucketName, now);
              uploads == sub.uploads && requestBody.fields == sub.fields)
    {
      var msgError, requests := ValidateBeforeCreate(requestBody);
      if msgError != "" {
        o := Outcome(BuildResponse(400, Str(msgError)), requests);
        uploads := [];
      } else {
        var threw;
        uploads, threw := UploadImages(requestBody, now);
        var put := PutItem(tableName, requestBody.fields);
        o := Outcome(BuildResponse(200, SaveBody(requestBody.fields)), requests + [put]);
      }
    }
  }
}
