/** The entities the product service handles, the response envelope it returns,
    and the ways its collaborators (the two tables and the image codec) can fail. */
module Model {

  /** A value that may be absent: a Java reference that may be null, an empty Optional. */
  datatype Option<+T> = None | Some(value: T)

  type Byte = bv8
  type Bytes = seq<Byte>

  /** A category is looked up only for its existence; its other columns play no part here. */
  datatype Category = Category(id: int)

  /** A product record. `picture` is kept in compressed form in the table and is
      decompressed on every read path. `category` is null until the service sets it. */
  datatype Product = Product(
    id: int,
    name: string,
    price: int,
    account: int,
    picture: Bytes,
    category: Option<Category>)

  /** The HTTP statuses the service answers with. */
  datatype Status = Ok | NotFound | BadRequest | InternalServerError

  /** The metadata of the envelope: message, response code and detail. */
  datatype Metadata = Metadata(message: string, code: string, detail: string)

  /** One outcome of one operation: the status, the metadata and the product list
      (left empty by every path that does not populate it). */
  datatype Response = Response(status: Status, metadata: Metadata, products: seq<Product>)

  const OkMessage := "Respuesta ok"
  const ErrorMessage := "Respuesta error"

  const CodeOk := "0000"
  const CodeInternal := "0001"
  const Code0002 := "0002"
  const Code0003 := "0003"

  /** The success shape: 200, "Respuesta ok", "0000" and the list built by the operation. */
  function Succeeded(detail: string, products: seq<Product>): Response {
    Response(Ok, Metadata(OkMessage, CodeOk, detail), products)
  }

  /** The error shape: "Respuesta error" with the given status, code and detail, and no products. */
  function Failed(status: Status, code: string, detail: string): Response {
    Response(status, Metadata(ErrorMessage, code, detail), [])
  }

  /** What every outcome of the service looks like: the status and the code agree,
      only the success path carries "Respuesta ok", and only it carries products. */
  predicate Coherent(r: Response) {
    && (r.status == Ok <==> r.metadata.code == CodeOk)
    && (r.status == Ok <==> r.metadata.message == OkMessage)
    && (r.status == InternalServerError <==> r.metadata.code == CodeInternal)
    && (r.status == Ok || r.metadata.message == ErrorMessage)
    && (r.status != Ok ==> r.products == [])
    && r.metadata.code in {CodeOk, CodeInternal, Code0002, Code0003}
  }

  /** The calls the service makes into its two tables. */
  datatype StoreCall =
    | FindCategory   // categoryDao.findById
    | FindProduct    // productDao.findById
    | SaveProduct    // productDao.save
    | DeleteProduct  // productDao.deleteById
    | QueryProducts  // productDao.findByNameContainingIgnoreCase and productDao.findAll

  /** How the tables behave during one operation: the calls that raise an exception,
      and whether a save that does not raise hands back null. */
  datatype Faults = Faults(raising: set<StoreCall>, saveReturnsNull: bool)

  /** The image decompressor; None stands for a payload it rejects with an exception. */
  type Decompressor = Bytes -> Option<Bytes>

  /** Fixed detail texts, one per branch of the service. */
  const SearchByIdFound := "Producto encontrado"
  const ProductNotFound := "Producto no encontrado"
  const SearchByIdError := "Error al buscar producto por id"
  const ProductSaved := "Producto guardado"
  const CategoryNotFound := "Categoria no encontrada"
  const ProductNotSaved := "Producto no guardado"
  const SaveError := "Error al guardar producto"
  const ProductDeleted := "Producto eliminado"
  const DeleteError := "Error al eliminar producto por id"
  const ProductsFound := "Productos encontrado"
  const ProductsNotFound := "Productos no encontrado"
  const SearchByNameError := "Error al buscar producto por nombre"
  const ProductUpdated := "Producto actualizado"
  const ProductNotUpdated := "Producto no actualizado"
  const UpdateError := "Error al actualizar producto"
}
