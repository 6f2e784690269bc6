# Product service of the inventory back end, modelled in Dafny

The inventory back end stores products (name, price, stock count "account", a
compressed picture and a category) and serves six operations through its product
service: `searchById`, `save`, `deleteById`, `searchByName`, `search` and `update`.
Each operation consults the category table and/or the product table, may write the
product table, catches every exception raised on the way, and ends in exactly one
outcome: an HTTP status, a response code (`"0000"`, `"0001"`, `"0002"`, `"0003"`), a
message, a detail text and a product list that is empty or populated.

The model has five modules:

- `Model` (model.dfy): products, categories, the response envelope, the fixed texts
  and codes, the calls into the tables that can raise (`Faults`), and the image
  decompressor as a function value that may reject its input (`None`).
- `Store` (store.dfy): the two tables as one value (`Tables`): the product table as a
  map from id to record with its scan order, the category table, and the next id the
  product table hands out. It also holds the queries the service issues: full scan
  (`Rows`), name query (`Matching`, over an abstract matching test), deletion
  (`RemoveId`), and the decompress-every-picture walk (`DecodeAll`).
- `Operations` (operations.dfy): each service operation as a total function from the
  tables and the behaviour of the collaborators to an outcome, and the lemmas that
  state what the service promises.
- `Services` (service.dfy): the service as an object. `ProductService` holds the
  tables, the decompressor and the matching test, and its methods run each operation
  step by step. The methods are proved to end in exactly the outcome (and the tables)
  the functions of `Operations` give. The walk over a query result is a loop
  (`DecompressEach`).
- `NameQuery` (name_query.dfy): one concrete matching test, case-insensitive
  containment with ASCII case folding, with the examples "Widget", "WIDGET-2" and
  "a widget here" matching "widget" and "gadget" not matching.

A collaborator failure is an input. `Faults.raising` is the set of table calls that
raise during the call, and `Faults.saveReturnsNull` says whether a save that does not
raise hands back null. A picture the decompressor rejects is `None`. The response
codes follow the code as written, and they are not uniform:

- a missing product is `"0003"` in `searchById` and `"0002"` in `update`;
- a null save is `"0002"` in `save` and `"0003"` in `update`;
- the full scan reuses the name search's error text.

## Model

| member | source | states |
|---|---|---|
| Operations.SearchById | src/main/java/com/company/inventory/services/ProductServiceImpl.java:31-56 | every outcome of the lookup by id is a coherent envelope: status and code agree, products only on 200 |
| Operations.SearchByIdAbsent | src/main/java/com/company/inventory/services/ProductServiceImpl.java:37-47 | an id with no record gives 404, "0003", "Producto no encontrado", no products |
| Operations.SearchByIdPresent | src/main/java/com/company/inventory/services/ProductServiceImpl.java:37-55 | a stored id gives 200, "0000" with exactly that record, picture decompressed, iff neither the lookup nor the decompression raises; otherwise 500, "0001" |
| Operations.Save | src/main/java/com/company/inventory/services/ProductServiceImpl.java:60-91 | every outcome of save is a coherent envelope, and a non-200 outcome leaves the tables unchanged |
| Operations.SaveMissingCategory | src/main/java/com/company/inventory/services/ProductServiceImpl.java:66-72 | a missing category gives 404, "0003", "Categoria no encontrada" and the tables are untouched |
| Operations.SaveWithCategory | src/main/java/com/company/inventory/services/ProductServiceImpl.java:66-90 | with the category found the product is written under a fresh id carrying that category and its own name, price, account and (still compressed) picture, and 200, "0000" returns exactly it; a null write gives 400, "0002" and writes nothing |
| Operations.DeleteById | src/main/java/com/company/inventory/services/ProductServiceImpl.java:95-110 | every outcome of delete is a coherent envelope; a non-200 outcome writes nothing |
| Operations.DeleteByIdOutcome | src/main/java/com/company/inventory/services/ProductServiceImpl.java:99-109 | without a failure: 200, "0000", no products, the product table is the old one minus that id, every other record and the category table unchanged; with one: 500, "0001", nothing removed |
| Operations.ListResponse | src/main/java/com/company/inventory/services/ProductServiceImpl.java:122-141 | every outcome of the shared list shape is a coherent envelope |
| Operations.ListResponseShape | src/main/java/com/company/inventory/services/ProductServiceImpl.java:153-172 | empty result is 404, "0002", not 200 with an empty list; a non-empty one is 200, "0000" iff every picture decompresses, with one product per row in the rows' order, each with its picture decompressed; otherwise 500, "0001" |
| Operations.SearchByNameReturnsMatches | src/main/java/com/company/inventory/services/ProductServiceImpl.java:122-131 | every product the name search returns is a stored record whose name matches the query, differing only by its decompressed picture |
| Operations.SearchByNameFindsEveryMatch | src/main/java/com/company/inventory/services/ProductServiceImpl.java:122-135 | when the query does not raise, the name search answers 404 exactly when no stored record matches, and a 200 answer holds every stored matching record with its picture decompressed |
| Operations.SearchByName | src/main/java/com/company/inventory/services/ProductServiceImpl.java:114-142 | every outcome of the name search is a coherent envelope |
| Operations.Search | src/main/java/com/company/inventory/services/ProductServiceImpl.java:146-173 | every outcome of the full scan is a coherent envelope |
| Operations.SearchEmptyStore | src/main/java/com/company/inventory/services/ProductServiceImpl.java:153-166 | an empty product table makes the full scan answer 404, "0002", "Productos no encontrado" |
| Operations.Update | src/main/java/com/company/inventory/services/ProductServiceImpl.java:177-223 | every outcome of update is a coherent envelope, and a non-200 outcome leaves the tables unchanged |
| Operations.UpdateChecksCategoryFirst | src/main/java/com/company/inventory/services/ProductServiceImpl.java:184-190 | a missing category gives 404, "0003", "Categoria no encontrada" whatever the product table holds and even if a product lookup would raise |
| Operations.UpdateMissingProduct | src/main/java/com/company/inventory/services/ProductServiceImpl.java:192-214 | a found category and a missing product id give 404, "0002", "Producto no encontrado", nothing written |
| Operations.Overwrite | src/main/java/com/company/inventory/services/ProductServiceImpl.java:196-200 | the rewritten record keeps the existing id and takes name, price, account, picture and the found category from the incoming product, and nothing else |
| Operations.UpdateOverwrites | src/main/java/com/company/inventory/services/ProductServiceImpl.java:194-211 | a successful update replaces exactly account, category, name, price and picture of that record, keeps its id, keeps every other record and the scan order, and returns 200, "0000" with that record; a null write gives 400, "0003", nothing written |
| Operations.SaveKeepsValid | src/main/java/com/company/inventory/services/ProductServiceImpl.java:75-79 | save keeps the tables well formed: every record scanned once, stored under its own id, ids below the next one |
| Operations.UpdateKeepsValid | src/main/java/com/company/inventory/services/ProductServiceImpl.java:196-202 | update keeps the tables well formed |
| Operations.DeleteKeepsValid | src/main/java/com/company/inventory/services/ProductServiceImpl.java:101-102 | delete keeps the tables well formed |
| Operations.SaveThenSearchById | src/main/java/com/company/inventory/services/ProductServiceImpl.java:75-79 | after a successful save a lookup by the returned id finds the saved record with its picture decompressed |
| Operations.UpdateThenSearchById | src/main/java/com/company/inventory/services/ProductServiceImpl.java:196-207 | after a successful update a lookup by the same id sees the new name, price, account, category and picture under the same id |
| Operations.DeleteThenSearchById | src/main/java/com/company/inventory/services/ProductServiceImpl.java:101-102 | after a successful delete a lookup by the same id answers 404, "0003" |
| Operations.RaisedCallCaught | src/main/java/com/company/inventory/services/ProductServiceImpl.java:49-219 | a raise in any table call becomes 500, "0001" with that operation's fixed detail (the scan reusing the name-search text) and writes nothing: the first call of every operation, the write in save, and the product lookup and the write in update |
| Store.RowsAreTable | src/main/java/com/company/inventory/services/ProductServiceImpl.java:153 | the full scan lists every stored record, only stored records, one row per record |
| Store.MatchingExactly | src/main/java/com/company/inventory/services/ProductServiceImpl.java:122 | the name query keeps exactly the scanned rows whose name matches, never more rows than the scan |
| Store.RemoveIdExactly | src/main/java/com/company/inventory/services/ProductServiceImpl.java:101 | deleting an id from the scan order removes that id only and keeps the order free of repeats |
| Store.DecodeAllMeaning | src/main/java/com/company/inventory/services/ProductServiceImpl.java:125-129 | the decompress-every-picture walk succeeds iff every picture decompresses, and then yields one entry per row, in order, differing only in the picture |
| Services.ProductService.constructor | src/main/java/com/company/inventory/services/ProductServiceImpl.java:21-27 | a new service starts over well-formed tables with an empty product table and the given category table, codec and matching test |
| Services.ProductService.SearchById | src/main/java/com/company/inventory/services/ProductServiceImpl.java:31-56 | the method ends in exactly the outcome of Operations.SearchById on the current tables |
| Services.ProductService.Save | src/main/java/com/company/inventory/services/ProductServiceImpl.java:60-91 | the method keeps the tables well formed and leaves them, and answers, exactly as Operations.Save |
| Services.ProductService.DeleteById | src/main/java/com/company/inventory/services/ProductServiceImpl.java:95-110 | the method keeps the tables well formed and leaves them, and answers, exactly as Operations.DeleteById |
| Services.ProductService.DecompressEach | src/main/java/com/company/inventory/services/ProductServiceImpl.java:156-160 | the loop builds exactly the list DecodeAll describes, and stops with None at the first picture that cannot be decompressed |
| Services.ProductService.ListOutcome | src/main/java/com/company/inventory/services/ProductServiceImpl.java:124-135 | after the query answered, the method ends in exactly the shared list outcome |
| Services.ProductService.SearchByName | src/main/java/com/company/inventory/services/ProductServiceImpl.java:114-142 | the method ends in exactly the outcome of Operations.SearchByName on the current tables |
| Services.ProductService.Search | src/main/java/com/company/inventory/services/ProductServiceImpl.java:146-173 | the method ends in exactly the outcome of Operations.Search on the current tables |
| Services.ProductService.Update | src/main/java/com/company/inventory/services/ProductServiceImpl.java:177-223 | the method rewrites the record field by field, keeps the tables well formed and leaves them, and answers, exactly as Operations.Update |
| NameQuery.ShorterNeverContains | src/main/java/com/company/inventory/services/ProductServiceImpl.java:122 | a name shorter than the query never matches it |
| NameQuery.ContainsAtSomePosition | src/main/java/com/company/inventory/services/ProductServiceImpl.java:122 | a name matches iff the query occurs, ignoring ASCII case, at some position of it |
| NameQuery.WidgetQuery | src/main/java/com/company/inventory/services/ProductServiceImpl.java:122 | "widget" matches "Widget", "WIDGET-2" and "a widget here" and does not match "gadget" |
| NameQuery.WidgetSearch | src/main/java/com/company/inventory/services/ProductServiceImpl.java:122-131 | over a table holding "Widget", "WIDGET-2", "a widget here" and "gadget", the name search for "widget" with the ASCII matching test answers 200, "0000" with the first three records in scan order |

## Left out

- The REST controller: routing, multipart reading, request-parameter binding and CORS. Its one piece of logic, compressing the uploaded picture before `save` and `update`, calls code that is not part of this model.
- The zlib codec (`Util.compressZLib` and `Util.decompressZLib`) is not part of this model. Decompression is a parameter that may reject its input, so the round trip `decompress(compress(x)) == x` is not stated.
- Transactions, JPA entity management and flushing. The read paths set the decompressed picture on the fetched entities. The model applies that to value copies and never writes the table on a read. Whether the persistence layer would flush such a change is not modelled.
- After a null write in `update`, the fetched entity has already been changed in memory. The model writes nothing in that case, and the persistence layer's dirty checking is not modelled.
- When one picture in a list fails to decompress, the earlier entities have already been changed in memory. Only the 500 outcome is modelled.
- The matching semantics of `findByNameContainingIgnoreCase` (Unicode case folding in the database). The service takes the matching test as a parameter. `NameQuery` gives an ASCII-only instance.
- `deleteById` on an id with no record is store dependent. When the store does not raise, the model leaves the table as it is and answers 200. When it raises, the `DeleteProduct` fault gives 500, "0001".
- Id generation: the product table hands out ids from a counter (`nextId`). The entity's real generation strategy and the 64-bit width of ids are not modelled. The id of the incoming product is ignored by `save`, since the controller never sets one.
- The order of the full scan is not defined by the store. The model keeps insertion order, so a new record is scanned last.
- The category table is read-only here. Category management is not part of this model.
- Logging and stack traces. Concurrency between requests is also left out: each operation runs alone.
