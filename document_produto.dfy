/** Class `DocumentProduto` of src/document-produto.js: the products collection. */
module DocumentProduto {
  import opened Strings
  import opened JsValues
  import opened Expressions
  import opened Store
  import opened Validation
  import opened Documents

  const TableName := "produtos"
  const TableLabel := "um produto"
  const FieldsRequired: seq<string> := ["id", "descricao", "idMarca", "nomeMarca", "precoVenda", "categorias"]

  /** The override of `getParamsToQueryDocument`: a product is unique by its
      `descricao` together with its `idMarca`. */
  function GetParamsToQueryDocument(requestBody: Record): SearchParams
  {
    var descricao := Get(requestBody, "descricao");
    var idMarca := Get(requestBody, "idMarca");
    SearchParams([("descricao", descricao), ("idMarca", idMarca)],
                 "com a descrição " + Display(descricao) + " e o ID de marca " + Display(idMarca))
  }

  /** A `Document` configured as `new DocumentProduto(opt)` configures it. */
  ghost predicate Is(d: Document)
  {
    && d.tableName == TableName && d.tableLabel == TableLabel && d.fieldsRequired == FieldsRequired
    && d.getParamsToQueryDocument == GetParamsToQueryDocument
  }

  /** `new DocumentProduto({db, s3, bucketName})`. */
  method New(db: Db, bucketName: string) returns (d: Document)
    ensures fresh(d) && Is(d) && d.db == db && d.bucketName == bucketName
  {
    d := new Document.Derived(db, bucketName, TableName, TableLabel, FieldsRequired, GetParamsToQueryDocument);
  }

  /** The uniqueness query reads the `descricao-idMarca-index` with the two
      conditions `descricao = :value0 and idMarca = :value1`, bound to the
      body's `descricao` and `idMarca`. */
  lemma UniquenessQuery(requestBody: Record)
    ensures QueryRequest(TableName, GetParamsToQueryDocument(requestBody).fieldsToSearch)
            == QueryItems(TableName, "descricao-idMarca-index", "descricao = :value0 and idMarca = :value1",
                          map[":value0" := AttrOf(Get(requestBody, "descricao")),
                              ":value1" := AttrOf(Get(requestBody, "idMarca"))])
  {
    var fields := GetParamsToQueryDocument(requestBody).fieldsToSearch;
    QueryClauses(fields);
    QueryValues(fields);
    QueryIndex(fields);
  }

  /** The two search fields name the index `descricao-idMarca-index`. */
  lemma QueryIndex(fields: Record)
    requires |fields| == 2 && fields[0].0 == "descricao" && fields[1].0 == "idMarca"
    ensures IndexName(fields) == "descricao-idMarca-index"
  {
    assert Keys(fields)[1..] == ["idMarca"];
    assert Join(Keys(fields), "-") == "descricao-idMarca";
  }

  lemma QueryClauses(fields: Record)
    requires |fields| == 2 && fields[0].0 == "descricao" && fields[1].0 == "idMarca"
    ensures Join(Clauses(fields), " and ") == "descricao = :value0 and idMarca = :value1"
  {
    var pre := fields[..1];
    assert pre[..0] == [];
    assert pre[0].0 == "descricao";
    assert "descricao"[0] != FieldNameId[0] && |"idMarca"| != |FieldNameId|;
    assert Clauses(pre) == [Clause("descricao", 0)];
    assert Clauses(fields) == [Clause("descricao", 0), Clause("idMarca", 1)];
    ClauseTexts();
    JoinTwo(Clause("descricao", 0), Clause("idMarca", 1));
  }

  lemma ClauseTexts()
    ensures Clause("descricao", 0) == "descricao = :value0"
    ensures Clause("idMarca", 1) == "idMarca = :value1"
  {
    FirstPlaceholders();
  }

  lemma JoinTwo(a: string, b: string)
    requires a == "descricao = :value0" && b == "idMarca = :value1"
    ensures Join([a, b], " and ") == "descricao = :value0 and idMarca = :value1"
  {
    assert [a, b][1..] == [b];
  }

  lemma QueryValues(fields: Record)
    requires |fields| == 2 && fields[0].0 == "descricao" && fields[1].0 == "idMarca"
    ensures Values(fields) == map[":value0" := AttrOf(fields[0].1), ":value1" := AttrOf(fields[1].1)]
  {
    var pre := fields[..1];
    assert pre[..0] == [];
    assert pre[0] == fields[0];
    assert "descricao"[0] != FieldNameId[0] && |"idMarca"| != |FieldNameId|;
    assert Values(pre) == map[Placeholder(0) := AttrOf(fields[0].1)];
    FirstPlaceholders();
  }

  lemma FirstPlaceholders()
    ensures Placeholder(0) == ":value0" && Placeholder(1) == ":value1"
  {
    assert NatToString(0) == "0" && NatToString(1) == "1";
  }

  /** A `precoVenda` of `0` is falsy, so such a product is refused as if the
      price were absent, before any store request. */
  lemma PrecoVendaZeroIsMissing(d: Document, requestBody: Record)
    requires Is(d)
    requires Get(requestBody, "precoVenda") == Num(0)
    ensures "precoVenda" in MissingFields(FieldsRequired, requestBody)
    ensures d.ValidationOf(requestBody) == Verdict(MissingMessage(MissingFields(FieldsRequired, requestBody)), [])
  {
    MissingFieldsExact(FieldsRequired, requestBody);
    assert FieldsRequired[4] == "precoVenda";
  }

  /** An empty body lacks every required field, in declared order. */
  lemma EmptyBodyMissesAll()
    ensures MissingFields(FieldsRequired, []) == FieldsRequired
  {
    var f := FieldsRequired;
    assert f[..1][..0] == [];
    assert MissingFields(f[..1], []) == f[..1];
    assert f[..2][..1] == f[..1];
    assert MissingFields(f[..2], []) == f[..2];
    assert f[..3][..2] == f[..2];
    assert MissingFields(f[..3], []) == f[..3];
    assert f[..4][..3] == f[..3];
    assert MissingFields(f[..4], []) == f[..4];
    assert f[..5][..4] == f[..4];
    assert MissingFields(f[..5], []) == f[..5];
    assert f[..5] == f[..|f| - 1];
  }

  /** An empty body is refused, before any store request, with the message
      that lists every required field in declared order. */
  lemma EmptyBodyMessage(d: Document)
    requires Is(d)
    ensures d.ValidationOf([]) == Verdict(MissingMessage(FieldsRequired), [])
  {
    EmptyBodyMissesAll();
  }
}
