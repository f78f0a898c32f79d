/** The records the handlers read and write: rows of the `products` and
    `categories` tables and documents of the `products` search index. Prices
    are whole numbers of rupees. */
module Records {
  import opened JsText

  /** A row of `products`. */
  datatype ProductRow = ProductRow(
    productId: nat,
    name: string,
    mrp: int,
    discountPrice: int,
    qty: int,
    image: Option<string>,
    categoryId: int)

  /** A row of `categories`. */
  datatype CategoryRow = CategoryRow(
    categoryId: nat,
    name: string,
    description: string,
    image: Option<string>)

  /** A document of the `products` index. */
  datatype ProductDoc = ProductDoc(
    productId: nat,
    name: string,
    mrp: int,
    discountPrice: int,
    qty: int,
    image: Option<string>,
    categoryName: Option<string>,
    categoryDescription: Option<string>)

  /** The first category row with the given id. */
  function FindCategory(categories: seq<CategoryRow>, id: int): (r: Option<CategoryRow>)
    ensures r.Some? <==> exists c :: c in categories && c.categoryId == id
    ensures r.Some? ==> r.value in categories && r.value.categoryId == id
  {
    if categories == [] then None
    else if categories[0].categoryId == id then Some(categories[0])
    else FindCategory(categories[1..], id)
  }
}
