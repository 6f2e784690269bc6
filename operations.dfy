/** The six operations of the product service as functions from the tables (and the
    behaviour of the collaborators during the call) to one outcome, and the
    properties the service promises about them. A failure of any collaborator is
    caught inside the operation: every function here is total. */
module Operations {
  import opened Model
  import opened Store

  /** The outcome of an operation that may write: the tables afterwards and the response. */
  datatype Transition = Transition(after: Tables, response: Response)

  // ---------------------------------------------------------------- searchById

  function SearchById(t: Tables, decompress: Decompressor, id: int, faults: Faults): (r: Response)
    ensures Coherent(r)
  {
    if FindProduct in faults.raising then Failed(InternalServerError, CodeInternal, SearchByIdError)
    else if id !in t.products then Failed(NotFound, Code0003, ProductNotFound)
    else
      match decompress(t.products[id].picture)
      case None => Failed(InternalServerError, CodeInternal, SearchByIdError)
      case Some(picture) => Succeeded(SearchByIdFound, [t.products[id].(picture := picture)])
  }

  /** An id with no record gives 404, "0003", "Producto no encontrado" and no products. */
  lemma SearchByIdAbsent(t: Tables, decompress: Decompressor, id: int, faults: Faults)
    requires FindProduct !in faults.raising && id !in t.products
    ensures SearchById(t, decompress, id, faults)
         == Response(NotFound, Metadata(ErrorMessage, "0003", "Producto no encontrado"), [])
  {
  }

  /** An id with a record gives 200, "0000" and exactly that record with its picture
      decompressed, unless the lookup or the decompression raises, which gives 500, "0001". */
  lemma SearchByIdPresent(t: Tables, decompress: Decompressor, id: int, faults: Faults)
    requires id in t.products
    ensures var r := SearchById(t, decompress, id, faults);
      && (r.status == Ok <==> FindProduct !in faults.raising && decompress(t.products[id].picture).Some?)
      && (r.status == Ok ==>
            r == Response(Ok, Metadata(OkMessage, "0000", "Producto encontrado"),
                          [t.products[id].(picture := decompress(t.products[id].picture).value)]))
      && (r.status != Ok ==>
            r == Response(InternalServerError, Metadata(ErrorMessage, "0001", "Error al buscar producto por id"), []))
  {
  }

  // ---------------------------------------------------------------------- save

  function Save(t: Tables, product: Product, categoryId: int, faults: Faults): (s: Transition)
    ensures Coherent(s.response)
    ensures s.response.status != Ok ==> s.after == t
  {
    if FindCategory in faults.raising then Transition(t, Failed(InternalServerError, CodeInternal, SaveError))
    else if categoryId !in t.categories then Transition(t, Failed(NotFound, Code0003, CategoryNotFound))
    else if SaveProduct in faults.raising then Transition(t, Failed(InternalServerError, CodeInternal, SaveError))
    else if faults.saveReturnsNull then Transition(t, Failed(BadRequest, Code0002, ProductNotSaved))
    else
      var saved := product.(id := t.nextId, category := Some(t.categories[categoryId]));
      Transition(
        t.(products := t.products[t.nextId := saved], order := t.order + [t.nextId], nextId := t.nextId + 1),
        Succeeded(ProductSaved, [saved]))
  }

  /** A missing category gives 404, "0003", "Categoria no encontrada", and the
      product table is left exactly as it was. */
  lemma SaveMissingCategory(t: Tables, product: Product, categoryId: int, faults: Faults)
    requires FindCategory !in faults.raising && categoryId !in t.categories
    ensures Save(t, product, categoryId, faults).after == t
    ensures Save(t, product, categoryId, faults).response
         == Response(NotFound, Metadata(ErrorMessage, "0003", "Categoria no encontrada"), [])
  {
  }

  /** With the category present, the product gets that category and is written under a
      fresh id; a write that hands back the record gives 200, "0000" and that record
      (picture as stored, not decompressed); a write that hands back null gives 400, "0002". */
  lemma SaveWithCategory(t: Tables, product: Product, categoryId: int, faults: Faults)
    requires Valid(t)
    requires FindCategory !in faults.raising && SaveProduct !in faults.raising
    requires categoryId in t.categories
    ensures var s := Save(t, product, categoryId, faults);
      && (faults.saveReturnsNull ==>
            s.after == t
            && s.response == Response(BadRequest, Metadata(ErrorMessage, "0002", "Producto no guardado"), []))
      && (!faults.saveReturnsNull ==>
            exists newId :: newId !in t.products
              && var saved := Product(newId, product.name, product.price, product.account,
                                      product.picture, Some(t.categories[categoryId]));
              && s.after.products == t.products[newId := saved]
              && s.response == Response(Ok, Metadata(OkMessage, "0000", "Producto guardado"), [saved]))
  {
  }

  // ------------------------------------------------------------------ deleteById

  function DeleteById(t: Tables, id: int, faults: Faults): (d: Transition)
    ensures Coherent(d.response)
    ensures d.response.status != Ok ==> d.after == t
  {
    if DeleteProduct in faults.raising then Transition(t, Failed(InternalServerError, CodeInternal, DeleteError))
    else Transition(t.(products := t.products - {id}, order := RemoveId(t.order, id)), Succeeded(ProductDeleted, []))
  }

  /** Without a failure, deletion answers 200, "0000" with no products and removes that
      record only, every other record and the category table staying as they were; a failure answers 500, "0001", "Error al eliminar producto por id"
      and removes nothing. */
  lemma DeleteByIdOutcome(t: Tables, id: int, faults: Faults)
    ensures var d := DeleteById(t, id, faults);
      && (DeleteProduct !in faults.raising ==>
            && d.response == Response(Ok, Metadata(OkMessage, "0000", "Producto eliminado"), [])
            && d.after.products == t.products - {id}
            && d.after.categories == t.categories
            && forall k :: k in d.after.products ==> d.after.products[k] == t.products[k])
      && (DeleteProduct in faults.raising ==>
            && d.after == t
            && d.response == Response(InternalServerError, Metadata(ErrorMessage, "0001", "Error al eliminar producto por id"), []))
  {
  }

  // ----------------------------------------------------- searchByName and search

  /** The shape shared by the name query and the full scan: `found` is what the table
      handed back, unless the query raised. */
  function ListResponse(found: seq<Product>, decompress: Decompressor, queryRaised: bool): (r: Response)
    ensures Coherent(r)
  {
    if queryRaised then Failed(InternalServerError, CodeInternal, SearchByNameError)
    else if |found| == 0 then Failed(NotFound, Code0002, ProductsNotFound)
    else
      match DecodeAll(found, decompress)
      case None => Failed(InternalServerError, CodeInternal, SearchByNameError)
      case Some(list) => Succeeded(ProductsFound, list)
  }

  function SearchByName(t: Tables, decompress: Decompressor, matches: (string, string) -> bool,
                        name: string, faults: Faults): (r: Response)
    requires Valid(t)
    ensures Coherent(r)
  {
    ListResponse(Matching(Rows(t), name, matches), decompress, QueryProducts in faults.raising)
  }

  function Search(t: Tables, decompress: Decompressor, faults: Faults): (r: Response)
    requires Valid(t)
    ensures Coherent(r)
  {
    ListResponse(Rows(t), decompress, QueryProducts in faults.raising)
  }

  /** An empty result is 404, "0002", "Productos no encontrado", never 200 with an empty
      list. A non-empty result is 200, "0000" exactly when every picture decompresses, with
      one product per row, in the rows' order, each with its picture decompressed;
      otherwise it is 500, "0001". */
  lemma {:induction false} ListResponseShape(found: seq<Product>, decompress: Decompressor)
    ensures var r := ListResponse(found, decompress, false);
      && (found == [] ==> r == Response(NotFound, Metadata(ErrorMessage, "0002", "Productos no encontrado"), []))
      && (found != [] ==>
            && (r.status == Ok <==> forall i :: 0 <= i < |found| ==> decompress(found[i].picture).Some?)
            && (r.status == Ok ==>
                  && r.metadata == Metadata(OkMessage, "0000", "Productos encontrado")
                  && |r.products| == |found|
                  && forall i :: 0 <= i < |found| ==>
                       r.products[i] == found[i].(picture := decompress(found[i].picture).value))
            && (r.status != Ok ==>
                  r == Response(InternalServerError, Metadata(ErrorMessage, "0001", "Error al buscar producto por nombre"), [])))
  {
    DecodeAllMeaning(found, decompress);
  }

  /** Every product the name search returns is a stored record whose name matches the
      query, with its picture decompressed. */
  lemma {:induction false} SearchByNameReturnsMatches(t: Tables, decompress: Decompressor,
                                 matches: (string, string) -> bool, name: string, faults: Faults)
    requires Valid(t)
    ensures var r := SearchByName(t, decompress, matches, name, faults);
      forall p :: p in r.products ==>
        && p.id in t.products && matches(p.name, name)
        && decompress(t.products[p.id].picture) == Some(p.picture)
        && p == t.products[p.id].(picture := p.picture)
  {
    var found := Matching(Rows(t), name, matches);
    var r := SearchByName(t, decompress, matches, name, faults);
    MatchingExactly(Rows(t), name, matches);
    RowsAreTable(t);
    ListResponseShape(found, decompress);
    forall p | p in r.products
      ensures && p.id in t.products && matches(p.name, name)
              && decompress(t.products[p.id].picture) == Some(p.picture)
              && p == t.products[p.id].(picture := p.picture)
    {
      var i :| 0 <= i < |r.products| && r.products[i] == p;
      assert found[i] in found;
    }
  }

  /** The converse: when the query does not raise, the name search answers 404 exactly
      when no stored record matches, and a 200 answer holds every stored matching record
      with its picture decompressed. */
  lemma {:induction false} SearchByNameFindsEveryMatch(t: Tables, decompress: Decompressor,
                                 matches: (string, string) -> bool, name: string, faults: Faults)
    requires Valid(t) && QueryProducts !in faults.raising
    ensures var r := SearchByName(t, decompress, matches, name, faults);
      && (r.status == NotFound <==> forall k :: k in t.products ==> !matches(t.products[k].name, name))
      && (r.status == Ok ==>
            forall k :: k in t.products && matches(t.products[k].name, name) ==>
              && decompress(t.products[k].picture).Some?
              && t.products[k].(picture := decompress(t.products[k].picture).value) in r.products)
  {
    var found := Matching(Rows(t), name, matches);
    var r := SearchByName(t, decompress, matches, name, faults);
    MatchingExactly(Rows(t), name, matches);
    RowsAreTable(t);
    ListResponseShape(found, decompress);
    if found != [] {
      assert found[0] in found;
      var p := found[0];
      assert p.id in t.products && matches(t.products[p.id].name, name);
    }
    forall k | k in t.products && matches(t.products[k].name, name)
      ensures found != []
      ensures r.status == Ok ==>
        && decompress(t.products[k].picture).Some?
        && t.products[k].(picture := decompress(t.products[k].picture).value) in r.products
    {
      assert t.products[k] in found;
      if r.status == Ok {
        var i :| 0 <= i < |found| && found[i] == t.products[k];
        assert r.products[i] in r.products;
      }
    }
  }

  /** With nothing stored, the full scan answers 404, "0002", not 200 with an empty list. */
  lemma SearchEmptyStore(t: Tables, decompress: Decompressor, faults: Faults)
    requires Valid(t) && t.products == map[] && QueryProducts !in faults.raising
    ensures Search(t, decompress, faults)
         == Response(NotFound, Metadata(ErrorMessage, "0002", "Productos no encontrado"), [])
  {
    RowsAreTable(t);
  }

  // -------------------------------------------------------------------- update

  /** The existing record with exactly account, category, name, price and picture
      taken from the incoming product; its id is kept. */
  function Overwrite(existing: Product, incoming: Product, category: Category): (r: Product)
    ensures r == Product(existing.id, incoming.name, incoming.price, incoming.account,
                         incoming.picture, Some(category))
  {
    existing
      .(account := incoming.account)
      .(category := Some(category))
      .(name := incoming.name)
      .(price := incoming.price)
      .(picture := incoming.picture)
  }

  function Update(t: Tables, product: Product, categoryId: int, id: int, faults: Faults): (u: Transition)
    ensures Coherent(u.response)
    ensures u.response.status != Ok ==> u.after == t
  {
    if FindCategory in faults.raising then Transition(t, Failed(InternalServerError, CodeInternal, UpdateError))
    else if categoryId !in t.categories then Transition(t, Failed(NotFound, Code0003, CategoryNotFound))
    else if FindProduct in faults.raising then Transition(t, Failed(InternalServerError, CodeInternal, UpdateError))
    else if id !in t.products then Transition(t, Failed(NotFound, Code0002, ProductNotFound))
    else if SaveProduct in faults.raising then Transition(t, Failed(InternalServerError, CodeInternal, UpdateError))
    else if faults.saveReturnsNull then Transition(t, Failed(BadRequest, Code0003, ProductNotUpdated))
    else
      var updated := Overwrite(t.products[id], product, t.categories[categoryId]);
      Transition(t.(products := t.products[id := updated]), Succeeded(ProductUpdated, [updated]))
  }

  /** The category is checked before the product: with the category missing the answer
      is 404, "0003", "Categoria no encontrada" whatever the product table holds and
      whether or not a product lookup would raise. */
  lemma UpdateChecksCategoryFirst(t: Tables, product: Product, categoryId: int, id: int, faults: Faults,
                                  otherProducts: map<int, Product>)
    requires FindCategory !in faults.raising && categoryId !in t.categories
    ensures Update(t, product, categoryId, id, faults)
         == Transition(t, Response(NotFound, Metadata(ErrorMessage, "0003", "Categoria no encontrada"), []))
    ensures Update(t.(products := otherProducts), product, categoryId, id,
                   faults.(raising := faults.raising + {FindProduct})).response
         == Update(t, product, categoryId, id, faults).response
  {
  }

  /** With the category present and no record under the id: 404, "0002",
      "Producto no encontrado", nothing written. */
  lemma UpdateMissingProduct(t: Tables, product: Product, categoryId: int, id: int, faults: Faults)
    requires FindCategory !in faults.raising && FindProduct !in faults.raising
    requires categoryId in t.categories && id !in t.products
    ensures Update(t, product, categoryId, id, faults)
         == Transition(t, Response(NotFound, Metadata(ErrorMessage, "0002", "Producto no encontrado"), []))
  {
  }

  /** A successful update rewrites exactly account, category, name, price and picture of
      the record under `id`, keeps its id, leaves every other record and the scan order
      as they were, and answers 200, "0000" with that one record; a write that hands
      back null answers 400, "0003", "Producto no actualizado" and writes nothing. */
  lemma UpdateOverwrites(t: Tables, product: Product, categoryId: int, id: int, faults: Faults)
    requires FindCategory !in faults.raising && FindProduct !in faults.raising && SaveProduct !in faults.raising
    requires categoryId in t.categories && id in t.products
    ensures var u := Update(t, product, categoryId, id, faults);
      && (faults.saveReturnsNull ==>
            u == Transition(t, Response(BadRequest, Metadata(ErrorMessage, "0003", "Producto no actualizado"), [])))
      && (!faults.saveReturnsNull ==>
            var updated := Product(t.products[id].id, product.name, product.price, product.account,
                                   product.picture, Some(t.categories[categoryId]));
            && u.after.products.Keys == t.products.Keys
            && u.after.products[id] == updated
            && (forall k :: k in t.products && k != id ==> u.after.products[k] == t.products[k])
            && u.after.order == t.order && u.after.categories == t.categories
            && u.response == Response(Ok, Metadata(OkMessage, "0000", "Producto actualizado"), [updated]))
  {
  }

  // ------------------------------------------------------- the tables stay valid

  lemma SaveKeepsValid(t: Tables, product: Product, categoryId: int, faults: Faults)
    requires Valid(t)
    ensures Valid(Save(t, product, categoryId, faults).after)
  {
  }

  lemma UpdateKeepsValid(t: Tables, product: Product, categoryId: int, id: int, faults: Faults)
    requires Valid(t)
    ensures Valid(Update(t, product, categoryId, id, faults).after)
  {
  }

  lemma DeleteKeepsValid(t: Tables, id: int, faults: Faults)
    requires Valid(t)
    ensures Valid(DeleteById(t, id, faults).after)
  {
    RemoveIdExactly(t.order, id);
    var after := DeleteById(t, id, faults).after;
    forall i | 0 <= i < |after.order| ensures after.order[i] in after.products {
      assert after.order[i] in after.order;
    }
  }

  // ------------------------------------------------- what a later read observes

  /** After a successful save, a lookup under the id the save answered with finds the
      saved record, its picture decompressed. */
  lemma SaveThenSearchById(t: Tables, product: Product, categoryId: int, faults: Faults,
                           decompress: Decompressor, lookup: Faults)
    requires Save(t, product, categoryId, faults).response.status == Ok
    requires FindProduct !in lookup.raising
    ensures var s := Save(t, product, categoryId, faults);
      && |s.response.products| == 1
      && var saved := s.response.products[0];
      && (decompress(saved.picture).Some? ==>
            SearchById(s.after, decompress, saved.id, lookup)
              == Succeeded(SearchByIdFound, [saved.(picture := decompress(saved.picture).value)]))
  {
  }

  /** After a successful update, a lookup under the same id sees the new name, price,
      account, category and picture (decompressed) under the same id. */
  lemma UpdateThenSearchById(t: Tables, product: Product, categoryId: int, id: int, faults: Faults,
                             decompress: Decompressor, lookup: Faults)
    requires Valid(t)
    requires Update(t, product, categoryId, id, faults).response.status == Ok
    requires FindProduct !in lookup.raising && decompress(product.picture).Some?
    ensures var r := SearchById(Update(t, product, categoryId, id, faults).after, decompress, id, lookup);
      && r.status == Ok
      && r.products == [Product(id, product.name, product.price, product.account,
                                decompress(product.picture).value, Some(t.categories[categoryId]))]
  {
  }

  /** After a successful delete, a lookup under the same id answers 404, "0003". */
  lemma DeleteThenSearchById(t: Tables, id: int, faults: Faults, decompress: Decompressor, lookup: Faults)
    requires DeleteById(t, id, faults).response.status == Ok
    requires FindProduct !in lookup.raising
    ensures SearchById(DeleteById(t, id, faults).after, decompress, id, lookup)
         == Response(NotFound, Metadata(ErrorMessage, "0003", "Producto no encontrado"), [])
  {
  }

  // ---------------------------------------------------------- no fault escapes

  /** A raise in any table call an operation makes is caught: the answer is 500, "0001"
      with the operation's fixed detail (the full scan reuses the name-search text), and
      nothing is written. This covers the first call of each operation and the later
      calls of save (the write) and update (the product lookup and the write). */
  lemma RaisedCallCaught(t: Tables, decompress: Decompressor, matches: (string, string) -> bool,
                         product: Product, name: string, categoryId: int, id: int, faults: Faults)
    requires Valid(t)
    ensures FindProduct in faults.raising ==>
      SearchById(t, decompress, id, faults) == Response(InternalServerError, Metadata(ErrorMessage, "0001", "Error al buscar producto por id"), [])
    ensures FindCategory in faults.raising ==>
      Save(t, product, categoryId, faults) == Transition(t, Response(InternalServerError, Metadata(ErrorMessage, "0001", "Error al guardar producto"), []))
    ensures FindCategory !in faults.raising && categoryId in t.categories && SaveProduct in faults.raising ==>
      Save(t, product, categoryId, faults) == Transition(t, Response(InternalServerError, Metadata(ErrorMessage, "0001", "Error al guardar producto"), []))
    ensures DeleteProduct in faults.raising ==>
      DeleteById(t, id, faults) == Transition(t, Response(InternalServerError, Metadata(ErrorMessage, "0001", "Error al eliminar producto por id"), []))
    ensures QueryProducts in faults.raising ==>
      && SearchByName(t, decompress, matches, name, faults) == Response(InternalServerError, Metadata(ErrorMessage, "0001", "Error al buscar producto por nombre"), [])
      && Search(t, decompress, faults) == SearchByName(t, decompress, matches, name, faults)
    ensures FindCategory in faults.raising ==>
      Update(t, product, categoryId, id, faults) == Transition(t, Response(InternalServerError, Metadata(ErrorMessage, "0001", "Error al actualizar producto"), []))
    ensures FindCategory !in faults.raising && categoryId in t.categories && FindProduct in faults.raising ==>
      Update(t, product, categoryId, id, faults) == Transition(t, Response(InternalServerError, Metadata(ErrorMessage, "0001", "Error al actualizar producto"), []))
    ensures FindCategory !in faults.raising && categoryId in t.categories && FindProduct !in faults.raising
            && id in t.products && SaveProduct in faults.raising ==>
      Update(t, product, categoryId, id, faults) == Transition(t, Response(InternalServerError, Metadata(ErrorMessage, "0001", "Error al actualizar producto"), []))
  {
  }
}
