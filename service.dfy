/** The product service as the object the application wires up: it holds the product
    table, the category table, the image decompressor and the name-matching test of the
    database, and each operation runs its calls in order and ends in one response. */
module Services {
  import opened Model
  import opened Store
  import Operations

  class ProductService {
    var products: map<int, Product>
    var order: seq<int>
    var nextId: int
    const categories: map<int, Category>
    const decompress: Decompressor
    const nameMatches: (string, string) -> bool

    /** The tables this service sees, as one value. */
    function Tables(): Store.Tables
      reads this
    {
      Store.Tables(products, order, categories, nextId)
    }

    ghost predicate Valid()
      reads this
    {
      Store.Valid(Tables())
    }

    constructor (categories: map<int, Category>, decompress: Decompressor, nameMatches: (string, string) -> bool)
      ensures Valid()
      ensures products == map[] && order == [] && this.categories == categories
      ensures this.decompress == decompress && this.nameMatches == nameMatches
    {
      products := map[];
      order := [];
      nextId := 0;
      this.categories := categories;
      this.decompress := decompress;
      this.nameMatches := nameMatches;
    }

    /** Looks a product up by id and hands it back with its picture decompressed. */
    method SearchById(id: int, faults: Faults) returns (r: Response)
      ensures r == Operations.SearchById(Tables(), decompress, id, faults)
    {
      if FindProduct in faults.raising {
        return Failed(InternalServerError, CodeInternal, SearchByIdError);
      }
      if id in products {
        var product := products[id];
        var picture := decompress(product.picture);
        if picture.None? {
          return Failed(InternalServerError, CodeInternal, SearchByIdError);
        }
        product := product.(picture := picture.value);
        var list := [product];
        r := Succeeded(SearchByIdFound, list);
      } else {
        r := Failed(NotFound, Code0003, ProductNotFound);
      }
    }

    /** Attaches the category to the product and writes it under the next id. */
    method Save(product: Product, categoryId: int, faults: Faults) returns (r: Response)
      requires Valid()
      modifies this
      ensures Valid()
      ensures Tables() == Operations.Save(old(Tables()), product, categoryId, faults).after
      ensures r == Operations.Save(old(Tables()), product, categoryId, faults).response
    {
      Operations.SaveKeepsValid(Tables(), product, categoryId, faults);
      if FindCategory in faults.raising {
        return Failed(InternalServerError, CodeInternal, SaveError);
      }
      if categoryId !in categories {
        return Failed(NotFound, Code0003, CategoryNotFound);
      }
      var incoming := product.(category := Some(categories[categoryId]));
      if SaveProduct in faults.raising {
        return Failed(InternalServerError, CodeInternal, SaveError);
      }
      if faults.saveReturnsNull {
        return Failed(BadRequest, Code0002, ProductNotSaved);
      }
      var saved := incoming.(id := nextId);
      products := products[nextId := saved];
      order := order + [nextId];
      nextId := nextId + 1;
      var list := [saved];
      r := Succeeded(ProductSaved, list);
    }

    /** Asks the table to delete the record under `id`. */
    method DeleteById(id: int, faults: Faults) returns (r: Response)
      requires Valid()
      modifies this
      ensures Valid()
      ensures Tables() == Operations.DeleteById(old(Tables()), id, faults).after
      ensures r == Operations.DeleteById(old(Tables()), id, faults).response
    {
      Operations.DeleteKeepsValid(Tables(), id, faults);
      if DeleteProduct in faults.raising {
        return Failed(InternalServerError, CodeInternal, DeleteError);
      }
      products := products - {id};
      order := RemoveId(order, id);
      r := Succeeded(ProductDeleted, []);
    }

    /** Decompresses the picture of each row in turn and appends it to the list; the
        first picture that cannot be decompressed ends the walk. */
    method DecompressEach(found: seq<Product>) returns (list: Option<seq<Product>>)
      ensures list == DecodeAll(found, decompress)
    {
      var acc: seq<Product> := [];
      var i := 0;
      while i < |found|
        invariant 0 <= i <= |found|
        invariant DecodeAll(found[..i], decompress) == Some(acc)
      {
        var p := found[i];
        var picture := decompress(p.picture);
        if picture.None? {
          DecodeAllMeaning(found, decompress);
          return None;
        }
        p := p.(picture := picture.value);
        acc := acc + [p];
        assert found[..i + 1][..i] == found[..i];
        i := i + 1;
      }
      assert found[..i] == found;
      list := Some(acc);
    }

    /** The products whose name matches `name`, pictures decompressed; an empty result
        is "not found". */
    method SearchByName(name: string, faults: Faults) returns (r: Response)
      requires Valid()
      ensures r == Operations.SearchByName(Tables(), decompress, nameMatches, name, faults)
    {
      if QueryProducts in faults.raising {
        return Failed(InternalServerError, CodeInternal, SearchByNameError);
      }
      var found := Matching(Rows(Tables()), name, nameMatches);
      r := ListOutcome(found);
    }

    /** Every product, pictures decompressed; an empty table is "not found". */
    method Search(faults: Faults) returns (r: Response)
      requires Valid()
      ensures r == Operations.Search(Tables(), decompress, faults)
    {
      if QueryProducts in faults.raising {
        return Failed(InternalServerError, CodeInternal, SearchByNameError);
      }
      var found := Rows(Tables());
      r := ListOutcome(found);
    }

    /** The tail shared by the name search and the full scan, once the query has answered. */
    method ListOutcome(found: seq<Product>) returns (r: Response)
      ensures r == Operations.ListResponse(found, decompress, false)
    {
      if |found| > 0 {
        var list := DecompressEach(found);
        if list.None? {
          return Failed(InternalServerError, CodeInternal, SearchByNameError);
        }
        r := Succeeded(ProductsFound, list.value);
      } else {
        r := Failed(NotFound, Code0002, ProductsNotFound);
      }
    }

    /** Checks the category, then the product, then rewrites the stored record field by
        field and writes it back. */
    method Update(product: Product, categoryId: int, id: int, faults: Faults) returns (r: Response)
      requires Valid()
      modifies this
      ensures Valid()
      ensures Tables() == Operations.Update(old(Tables()), product, categoryId, id, faults).after
      ensures r == Operations.Update(old(Tables()), product, categoryId, id, faults).response
    {
      Operations.UpdateKeepsValid(Tables(), product, categoryId, id, faults);
      if FindCategory in faults.raising {
        return Failed(InternalServerError, CodeInternal, UpdateError);
      }
      if categoryId !in categories {
        return Failed(NotFound, Code0003, CategoryNotFound);
      }
      var incoming := product.(category := Some(categories[categoryId]));
      if FindProduct in faults.raising {
        return Failed(InternalServerError, CodeInternal, UpdateError);
      }
      if id !in products {
        return Failed(NotFound, Code0002, ProductNotFound);
      }
      var existing := products[id];
      existing := existing.(account := incoming.account);
      existing := existing.(category := incoming.category);
      existing := existing.(name := incoming.name);
      existing := existing.(price := incoming.price);
      existing := existing.(picture := incoming.picture);
      if SaveProduct in faults.raising {
        return Failed(InternalServerError, CodeInternal, UpdateError);
      }
      if faults.saveReturnsNull {
        return Failed(BadRequest, Code0003, ProductNotUpdated);
      }
      products := products[id := existing];
      var list := [existing];
      r := Succeeded(ProductUpdated, list);
    }
  }
}
