# Catalogue CRUD gateway — a Dafny model

The system is an AWS Lambda handler. It serves three collections of a product catalogue over HTTP:
- brands (`/marca`, table `marcas`);
- categories (`/categoria`, table `categorias`);
- products (`/produto`, table `produtos`).

Each collection is stored in DynamoDB. The handler (`src/index.js`) maps the request path to a table and the HTTP method to an operation:
- list, or get by `id`;
- create, after three validation checks;
- update;
- delete.

A class-based copy of the same logic (`src/document.js`, with one subclass per collection in `src/document-*.js`) adds one step on create: it uploads the `imagem`/`imagens` payloads to S3 and replaces them with `{bucket, key}` references.

The model covers that core:

- `strings.dfy`, `js_value.dfy` — the JavaScript semantics the code relies on:
  - truthiness;
  - `Object.keys` order, with an object as an ordered list of properties;
  - property read and write;
  - `String(v)` as template literals apply it, for numbers below 10^21 in magnitude;
  - `Array.prototype.join`.
- `expression.dfy` — `calcExpression`, shared by both copies. It builds the clauses, the `:valueN` placeholder map and the index name.
- `store.dfy` — the store as an oracle (`Db`) and the requests the gateway sends it. It also holds the paginated scan `scanDynamoRecords`.
- `responses.dfy` — `buildResponse`, listing a table, and the create, update and delete outcomes.
- `validation.dfy` — the three short-circuiting checks of `validateBeforeCreate`.
- `images.dfy` — the image substitution of `uploadImages`.
- `document.dfy` — class `Document`:
  - `RequestBody` is the body that `uploadImages` rewrites in place;
  - `ValidateBeforeCreate`, `UploadImages` and `Create` are methods proved against the functions above.
- `document_marca.dfy`, `document_categoria.dfy`, `document_produto.dfy` — the three subclasses: configuration, the `getParamsToQueryDocument` override, and a factory.
- `index.dfy` — `exports.handler` and its own copy of `validateBeforeCreate`.
- `agreement.dfy` — the two copies agree on validation and, without image fields, on create. With an `imagem` they differ, and the model shows how.

Every operation returns the store requests it issued, in order. That is how the model states the short-circuiting, and that a refused create puts nothing.

Three facts about the code that the model keeps:
- The upload key prefix is `imagens/`.
- The messages are Portuguese.
- A failed scan call makes the whole listing `undefined`; there is no partial result.

The continuation key of a scan is written to the property `ExclusiveStartkey` (lower-case `k`), which DynamoDB does not read. The model keeps that name. `Store.ContinuationNeverSent` proves that no scan request ever carries `ExclusiveStartKey`. The store's scan answers are an oracle: a table gives a fixed sequence of replies to its successive scan calls, whatever parameters those calls carry. What the typo does to a real table with more than one page is therefore outside the model (see "## Left out").

## Model

| member | source | states |
|---|---|---|
| Strings.NatToString | src/index.js:274 | `${index}` is the canonical decimal rendering: a non-empty string of digits, with no leading zero unless the number is 0 |
| Strings.ParseNatToString | src/index.js:274 | parsing the decimal rendering of n gives back n |
| Strings.NatToStringInjective | src/index.js:274 | distinct numbers render distinctly |
| JsValues.Keys | src/index.js:270 | `Object.keys` gives the property names in order, one entry per property |
| JsValues.Set | src/document.js:245-249 | after `r[k] = v`, reading k gives v; every other property reads as before; an existing k keeps its place, a new k is appended to the key order |
| JsValues.GetAtPosition | src/index.js:275 | in an object with distinct property names, `r[k]` for the name at position i is the value at position i |
| Expressions.PlaceholderInjective | src/index.js:274 | `:value${i}` names differ for different positions |
| Expressions.CalcExpression | src/index.js:268-288 | the loop's result equals `ExpressionOf(fields, keysSeparator)`: the clauses, the placeholder map and the index name; the identical loop of `Document.calcExpression` (src/document.js:199-221) is this member too |
| Expressions.ClausesFollowKeys | src/index.js:272-282 | one clause `key = :valueI` per key other than `id`, in key order, I being the key's index in the full key list; every such key has one |
| Expressions.ValuesArePlaceholders | src/index.js:272-282 | the value map holds exactly `:valueI` for each non-`id` key at position I, bound to its value, stringified when the value is an array or an object |
| Expressions.NoClauseForId | src/index.js:273 | every clause comes from a key other than `id` |
| Expressions.EveryFieldHasClause | src/index.js:272-279 | every key other than `id` gets its clause `key = :valueI` |
| Expressions.ValuesReadByKey | src/index.js:275-280 | in an object with distinct property names, the value bound to `:valueI` is `opt.fields[key]` for the key at position I, stringified when it is an array or an object |
| Expressions.EmptyExpression | src/document.js:199-221 | no fields: keys `''`, values `{}`, index `-index` |
| Store.FirstFinal | src/index.js:105-113 | the scan stops at the first reply that fails or has no `LastEvaluatedKey` |
| Store.QueryMatchesAllButId | src/index.js:65-72 | for every search object, the query reads the index `${keys.join('-')}-index`, its condition is the clauses of exactly the fields other than `id` joined with ` and `, and its placeholder map binds exactly those fields' placeholders to their values; also `Document.query` (src/document.js:24-36) |
| Store.UpdateSetsAllButId | src/index.js:151-161 | for every body, the update has the given key and `set ` followed by the clauses of exactly the fields other than `id`, joined with `, `; its placeholder map binds exactly those fields' placeholders to their values; also `Document.update` |
| Store.FlattenStep | src/index.js:108-111 | past a non-final page, the items collected are that page's followed by the rest's |
| Store.ScanDynamoRecords | src/index.js:105-117 | one scan request per reply up to the stop, the first with the given params; the result is `itemArray` followed by every page's items in order, or `undefined` when the stopping reply is a failure; `Document.scanDynamoRecords` (src/document.js:62-74) is the same code |
| Store.ScanKeepsStartKey | src/index.js:109-111 | every scan request carries the `ExclusiveStartKey` of the first: the continuation goes to `ExclusiveStartkey` |
| Store.ContinuationNeverSent | src/index.js:94-117 | listing a table never sends `ExclusiveStartKey` |
| Responses.GetDocuments | src/index.js:94-103 | status 200, one request per scan call, body `{documents}` holding all pages' items in order, or `undefined` after a failed call; also `Document.getDocuments` (src/document.js:51-60) |
| Responses.CreateOutcome | src/index.js:119-142 | a message gives 400 with the message and no put; no message gives the put of the body and 200 with `{operation: 'SAVE', message: 'SUCCESS', item}` |
| Responses.BuildResponse | src/index.js:191-199 | the response carries the given status, the JSON content-type header and the given body |
| Responses.UpdateOutcome | src/index.js:151-171 | one update request, then 200 with `{operation: 'UPDATE', message: 'SUCCESS', updatedAttributes}` holding the store's answer to that request; also `Document.update` |
| Responses.DeleteOutcome | src/index.js:173-189 | one delete request by the given id, then 200 with `{operation: 'DELETE', message: 'SUCCESS', item}` holding the store's answer; also `Document.delete` |
| Validation.MissingFieldsExact | src/index.js:220-224 | a field is reported missing iff it is required and its value is falsy (absent, `''`, `0`, `false`, `null`) |
| Validation.CollectMissingFields | src/index.js:214-224 | the loop collects exactly the falsy required fields, in declared order |
| Validation.Validate | src/index.js:201-260 | the message is `''` iff no field is missing, no record has the id and the uniqueness query finds nothing; the id lookup happens only when nothing is missing, the query only when the id is free; each failure gives its own message; the class copy (src/document.js:151-184) runs the same checks |
| Gateway.PathsToTables | src/index.js:6-24 | exactly `/marca`, `/categoria` and `/produto` are served, by `marcas`, `categorias` and `produtos`, distinct tables all configured for creation |
| Gateway.ValidateBeforeCreate | src/index.js:201-260 | the method's message and requests are those of `Validate` with the table's label, its required fields and its uniqueness query (`descricao`+`idMarca` for products, `nome` otherwise) |
| Gateway.Handler | src/index.js:18-57 | unknown path: 500, empty body, no request; unsupported method: 404 `'404 Not Found'`; GET with a truthy `id` parameter: one lookup, 200 with whatever it returns; other GET: exactly the table's listing (`Responses.GetDocuments`), 200; POST: 400 iff validation fails, with the put only on 200; PATCH: exactly `Responses.UpdateOutcome` for the body's `id` and the whole body; DELETE: exactly `Responses.DeleteOutcome` for the body's `id` |
| Gateway.ListingIsScans | src/index.js:94-117 | a listing issues scan requests only |
| Gateway.EmptyIdListsTable | src/index.js:29 | `?id=` (empty) is falsy, so the whole table is listed |
| Gateway.AbsentIdStill200 | src/index.js:28-31 | a lookup of an absent id answers 200 with an `undefined` body |
| Gateway.UpdateSkipsId | src/index.js:151-161 | PATCH `{id: "5", nome: "X"}` sends `set nome = :value1` with `:value1` bound to `"X"` |
| Images.StripDataUriSpec | src/document.js:233 | the `data:image/<word>;base64,` prefix is removed exactly when present; any other string is kept |
| Images.LeadingStrings | src/document.js:232-243 | the mapping processes files up to the first one that is not a string |
| Images.ImagensReplaced | src/document.js:226-227 | an array of n string payloads gives n uploads and n `{bucket, key}` references in order, key `imagens/{id}-{timestamp}.jpeg`, payload stripped of its prefix; `imagem` and the key order are untouched |
| Images.ImagemReplaced | src/document.js:228-230 | only `imagem`: one upload, and `imagem` becomes its reference |
| Images.NoImageFields | src/document.js:224-231 | no image field: no upload, body unchanged |
| Images.NonArrayImagensQuirk | src/document.js:226-249 | `imagens` truthy but not an array with a string `imagem`: one upload, written to `imagens` as a one-element array, `imagem` keeps its raw value |
| Images.EmptyImagensQuirk | src/document.js:226-227 | an empty `imagens` array suppresses the `imagem` upload |
| Images.NonStringFileAborts | src/document.js:232-243 | a file that is not a string throws: body unchanged, fewer uploads than files |
| Documents.BaseQueryIsEmpty | src/document.js:186-191 | with the base override the uniqueness query has no condition, no placeholder and index `-index` |
| Documents.Document.constructor | src/document.js:11-18 | the configuration is the one given, with the base override |
| Documents.Document.Derived | src/document.js:11-18 | the configuration is the one given, with the subclass's override |
| Documents.Document.ValidateBeforeCreate | src/document.js:151-184 | the method's message and requests are those of `Validate` with this document's configuration and override |
| Documents.Document.UploadImages | src/document.js:223-250 | the uploads issued, whether it threw, and the new body are those of `SubstituteImages` on the old body |
| Documents.Document.Create | src/document.js:76-99 | on a message: 400, no upload, body unchanged, no put; otherwise the body is rewritten by the image substitution, then put and echoed with 200 |
| DocumentMarca.New | src/document-marca.js:10-18 | a document for table `marcas`, label `uma marca`, required `id, nome`, with the brand override |
| DocumentMarca.UniquenessQuery | src/document-marca.js:19-23 | the query reads `nome-index` with `nome = :value0` bound to the body's `nome` |
| DocumentMarca.NoneMissing | src/document-marca.js:15 | with truthy `id` and `nome` no field is missing |
| DocumentMarca.DuplicateNome | src/document-marca.js:24 | a taken `nome` gives `Já existe uma marca cadastrado(a) com o nome {nome}.` after two requests |
| DocumentCategoria.New | src/document-categoria.js:10-18 | a document for table `categorias`, label `uma categoria`, required `id, nome`, with the category override |
| DocumentCategoria.UniquenessQuery | src/document-categoria.js:19-23 | the query reads `nome-index` with `nome = :value0` bound to the body's `nome` |
| DocumentCategoria.NoneMissing | src/document-categoria.js:15 | with truthy `id` and `nome` no field is missing |
| DocumentCategoria.DuplicateNome | src/document-categoria.js:24 | a taken `nome` gives `Já existe uma categoria cadastrado(a) com o nome {nome}.` after two requests |
| DocumentProduto.New | src/document-produto.js:10-19 | a document for table `produtos`, label `um produto`, the six required fields, with the product override |
| DocumentProduto.UniquenessQuery | src/document-produto.js:21-26 | the query reads `descricao-idMarca-index` with `descricao = :value0 and idMarca = :value1` |
| DocumentProduto.QueryClauses | src/document-produto.js:23-26 | the two search fields give the two clauses joined by ` and ` |
| DocumentProduto.QueryValues | src/document-produto.js:23-26 | the two search fields are bound to `:value0` and `:value1` |
| DocumentProduto.QueryIndex | src/document-produto.js:21-26 | the two search fields `descricao` and `idMarca` name the index `descricao-idMarca-index` |
| DocumentProduto.PrecoVendaZeroIsMissing | src/document-produto.js:15-17 | `precoVenda: 0` is reported missing and the create is refused before any request |
| DocumentProduto.EmptyBodyMissesAll | src/document-produto.js:15-17 | an empty body misses all six fields, in declared order |
| DocumentProduto.EmptyBodyMessage | src/document-produto.js:15-17 | an empty body is refused, with no request, by the message listing all six fields |
| Agreement.ValidationAgrees | src/document.js:151-184 | a subclass document validates exactly as the handler does for its path's table |
| Agreement.CreateAgrees | src/document.js:76-99 | without image fields, `Document.create` and a POST to the handler give the same response and requests |
| Agreement.CreateWithImagemDiffers | src/document.js:83-88 | with an `imagem`, the handler puts the raw body, the class puts the body with the reference |

## Left out

- The DynamoDB and S3 clients are foreign. Store answers come from the `Db` oracle. Uploads are recorded as `Upload` requests, not performed, and their fire-and-forget timing is not modelled.
- `Buffer.from(…, 'base64')` decoding is library code. Only the prefix strip is modelled.
- `new Date().toISOString()` reads the clock. The i-th timestamp is the parameter `now(i)`.
- `JSON.parse` of the body and `JSON.stringify` of responses and of object values are treated abstractly:
  - the body is taken already parsed;
  - a response body is the value that would be stringified;
  - a stringified value is `AttrValue.Stringified(v)`.
- Numbers are integers. `Num(n)` stands for an integral JavaScript number. Fractions, `NaN`, `-0` and the limits of double precision (integers beyond 2^53) are not modelled, nor is JavaScript's ordering of integer-like property names.
- JsValues.Display: `${n}` is modelled as plain decimal, which is JavaScript's rendering only for magnitudes below 10^21; from 10^21 on JavaScript prints exponent form (`1e+21`). The difference would reach the duplicate-id message, the product's duplicate message and the upload key.
- An error from `get`, `query`, `put`, `update` or `delete` propagates uncaught out of the handler. The model has no such failure; only scan failures are modelled.
- The TypeError that `uploadImages` throws on a non-string file rejects a promise nobody awaits. The model records the abort (`Substitution.threw`). The unhandled rejection's effect on the Lambda runtime is not modelled.
- A body that is not a JSON object, and a path that names an `Object.prototype` member (such as `constructor`), are not modelled: paths are plain strings and bodies are records.
- `console.log` and `console.error` have no effect on the outcome and are not modelled.
- `Document.findById` and `Document.query` are not separate members. They appear inside `Documents.Document.ValidateBeforeCreate` as the `GetItem` and `QueryItems` requests it issues.
- `Document.update`, `Document.delete` and `Document.getDocuments` are line for line the handler's `updateDocument`, `deleteDocument` and `getDocuments`. Each is modelled once, by `Responses.UpdateOutcome`, `Responses.DeleteOutcome` and `Responses.GetDocuments`.
- `AWS.config` region setup is environment plumbing.
- Store.ScanDynamoRecords: the reply oracle ignores the parameters of each scan call. Its "all pages' items in order" property holds for an idealised table that moves on to its next page at every call. With the misspelt `ExclusiveStartkey`, a real table with more than one page either answers page one again on every call, so the recursion never ends, or rejects the second call as carrying an unknown parameter, so the listing is `undefined`. Neither effect is modelled: the store's behaviour on unknown parameters is library code.
- Responses.GetDocuments: inherits the idealised table of `Store.ScanDynamoRecords`. Its items property describes no multi-page table the code as written can actually list.
- JsValues.Record: an object is an ordered list of properties and its names are not forced to be distinct. `JSON.parse` always gives distinct names. The model reads a field by its position where the code reads `opt.fields[key]`; `Expressions.ValuesReadByKey` proves the two agree whenever the names are distinct.
