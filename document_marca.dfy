/** Class `DocumentMarca` of src/document-marca.js: the brands collection. */
module DocumentMarca {
  import opened Strings
  import opened JsValues
  import opened Expressions
  import opened Store
  import opened Validation
  import opened Documents

  const TableName := "marcas"
  const TableLabel := "uma marca"
  const FieldsRequired: seq<string> := ["id", "nome"]

  /** The override of `getParamsToQueryDocument`: a brand is unique by `nome`. */
  function GetParamsToQueryDocument(requestBody: Record): SearchParams
  {
    SearchParams([("nome", Get(requestBody, "nome"))], "com o nome " + Display(Get(requestBody, "nome")))
  }

  /** With `id` and `nome` both truthy, no required field is missing. */
  lemma NoneMissing(requestBody: Record)
    requires Truthy(Get(requestBody, "id")) && Truthy(Get(requestBody, "nome"))
    ensures MissingFields(FieldsRequired, requestBody) == []
  {
    assert FieldsRequired[..1] == ["id"] && ["id"][..0] == [];
    assert MissingFields(["id"], requestBody) == [];
    assert MissingFields(FieldsRequired, requestBody) == MissingFields(["id"], requestBody) + [];
  }

  /** A `Document` configured as `new DocumentMarca(opt)` configures it. */
  ghost predicate Is(d: Document)
  {
    && d.tableName == TableName && d.tableLabel == TableLabel && d.fieldsRequired == FieldsRequired
    && d.getParamsToQueryDocument == GetParamsToQueryDocument
  }

  /** `new DocumentMarca({db, s3, bucketName})`. */
  method New(db: Db, bucketName: string) returns (d: Document)
    ensures fresh(d) && Is(d) && d.db == db && d.bucketName == bucketName
  {
    d := new Document.Derived(db, bucketName, TableName, TableLabel, FieldsRequired, GetParamsToQueryDocument);
  }

  /** The uniqueness query reads the `nome-index` with the single condition
      `nome = :value0`, bound to the body's `nome`. */
  lemma UniquenessQuery(requestBody: Record)
    ensures QueryRequest(TableName, GetParamsToQueryDocument(requestBody).fieldsToSearch)
            == QueryItems(TableName, "nome-index", "nome = :value0",
                          map[":value0" := AttrOf(Get(requestBody, "nome"))])
  {
    var fields := GetParamsToQueryDocument(requestBody).fieldsToSearch;
    assert fields[..0] == [];
    assert "nome"[0] != FieldNameId[0];
    assert NatToString(0) == "0";
    assert Clauses(fields) == Clauses([]) + [Clause("nome", 0)];
    assert Clause("nome", 0) == "nome = :value0";
    assert Keys(fields) == ["nome"];
    assert Placeholder(0) == ":value0";
    assert Values(fields) == map[":value0" := AttrOf(Get(requestBody, "nome"))];
    assert IndexName(fields) == "nome-index";
  }

  /** A brand whose `nome` is already taken (and whose `id` is not) is
      refused with the message naming that `nome`, after exactly the lookup
      by id and the query. */
  lemma DuplicateNome(d: Document, requestBody: Record)
    requires Is(d)
    requires Truthy(Get(requestBody, "id")) && Truthy(Get(requestBody, "nome"))
    requires !Truthy(d.db.getItem(GetItem(TableName, Get(requestBody, "id"))))
    requires |d.db.queryItems(QueryRequest(TableName, GetParamsToQueryDocument(requestBody).fieldsToSearch))| > 0
    ensures d.ValidationOf(requestBody).msgError
            == "Já existe " + "uma marca" + " cadastrado(a) " + "com o nome " + Display(Get(requestBody, "nome")) + "."
    ensures |d.ValidationOf(requestBody).requests| == 2
  {
    NoneMissing(requestBody);
    var search := GetParamsToQueryDocument(requestBody);
    assert d.ValidationOf(requestBody) == Validate(TableName, FieldsRequired, TableLabel, search, requestBody, d.db);
    DuplicateMessageText(Display(Get(requestBody, "nome")));
  }

  lemma DuplicateMessageText(nome: string)
    ensures DuplicateMessage(TableLabel, "com o nome " + nome) == "Já existe " + "uma marca" + " cadastrado(a) " + "com o nome " + nome + "."
  {
  }
}
