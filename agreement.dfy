/** The two copies of the create logic agree: a `Document` configured by one
    of the three subclasses of src/document-*.js checks a body exactly as the
    handler of src/index.js does for the table its path serves, and, on a
    body without image fields, answers a create with the same response and
    the same store requests. */
module Agreement {
  import opened JsValues
  import opened Store
  import opened Validation
  import opened Responses
  import opened Images
  import opened Documents
  import opened Gateway
  import DocumentMarca
  import DocumentCategoria
  import DocumentProduto

  /** `d` is configured by the subclass whose table `path` serves. */
  ghost predicate ServedBy(d: Document, path: string)
  {
    || (DocumentMarca.Is(d) && path == PathBrand)
    || (DocumentCategoria.Is(d) && path == PathCategory)
    || (DocumentProduto.Is(d) && path == PathProduct)
  }

  /** Same table, same label, same required fields, same uniqueness query:
      the same verdict and the same requests. */
  lemma ValidationAgrees(d: Document, path: string, requestBody: Record)
    requires ServedBy(d, path)
    ensures path in MapPath && d.tableName == MapPath[path] && IsTable(d.tableName)
    ensures d.ValidationOf(requestBody) == ValidationFor(d.tableName, requestBody, d.db)
  {
    PathsToTables();
    assert d.getParamsToQueryDocument(requestBody) == SearchParamsOf(d.tableName, requestBody);
  }

  /** Without image fields, `Document.create` and a `POST` to the handler
      answer alike and issue the same requests. */
  lemma CreateAgrees(d: Document, path: string, queryStringParameters: JsValue, requestBody: Record, now: nat -> string)
    requires ServedBy(d, path)
    requires !Truthy(Get(requestBody, "imagens")) && !Truthy(Get(requestBody, "imagem"))
    ensures d.CreateOutcomeOf(requestBody, now)
            == Handler(Event(path, "POST", queryStringParameters, requestBody), d.db)
  {
    ValidationAgrees(d, path, requestBody);
    NoImageFields(requestBody, d.bucketName, now);
  }

  /** Where the copies part: with an `imagem` to upload and a body that
      passes the checks, the handler puts the raw payload, while
      `Document.create` puts (and echoes) the body with `imagem` replaced by
      the reference to the upload. */
  lemma CreateWithImagemDiffers(d: Document, path: string, requestBody: Record, payload: string, now: nat -> string)
    requires ServedBy(d, path)
    requires !Truthy(Get(requestBody, "imagens"))
    requires Get(requestBody, "imagem") == Str(payload) && payload != ""
    requires d.ValidationOf(requestBody).msgError == ""
    ensures var v := d.ValidationOf(requestBody);
            var stored := Set(requestBody, "imagem", Reference(d.bucketName, ImageKey(Get(requestBody, "id"), now(0))));
      && Handler(Event(path, "POST", Undefined, requestBody), d.db).requests
         == v.requests + [PutItem(d.tableName, requestBody)]
      && d.CreateOutcomeOf(requestBody, now).requests == v.requests + [PutItem(d.tableName, stored)]
      && Get(stored, "imagem") != Get(requestBody, "imagem")
  {
    ValidationAgrees(d, path, requestBody);
    ImagemReplaced(requestBody, d.bucketName, now, payload);
  }
}
