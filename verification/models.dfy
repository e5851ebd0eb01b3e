/** The plain data of the shopping-list app: the products a search returns,
    and the items of the shopping list that is kept on disk.

    `ShoppingItem` carries the three fields (`size`, `quantity`, `checked`)
    that the view model and the screens read and copy, on top of the five
    identifying strings. */
module Models {

  /** Kotlin's nullable values (`T?`). */
  datatype Option<+T> = None | Some(value: T)

  datatype ProductAisleLocation = ProductAisleLocation(
    bayNumber: string,
    description: string,
    number: string,
    numberOfFacings: string,
    sequenceNumber: string,
    side: string,
    shelfNumber: string,
    shelfPositionInBay: string
  )

  datatype ProductSize = ProductSize(id: string, size: string, url: string)

  /** `sizes` is an ordered list that may be empty. */
  datatype ProductImage = ProductImage(
    id: string,
    perspective: string,
    isDefault: bool,
    sizes: seq<ProductSize>
  )

  /** `aisleLocations` and `images` are ordered lists that may be empty. */
  datatype Product = Product(
    productId: string,
    productPageURI: string,
    aisleLocations: seq<ProductAisleLocation>,
    brand: string,
    categories: seq<string>,
    description: string,
    images: seq<ProductImage>
  )

  /** One line of the shopping list. It is an immutable value: the view
      model replaces an element by a copy that differs in one field. */
  datatype ShoppingItem = ShoppingItem(
    productId: string,
    brand: string,
    productDescription: string,
    aisleDescription: string,
    aisleNumber: string,
    size: string,
    quantity: int,
    checked: bool
  )

  /** The persisted aggregate: one ordered sequence of items and nothing else. */
  datatype ShoppingList = ShoppingList(items: seq<ShoppingItem>)

  /** The two items describe the same product line: every field other than
      the mutable `quantity` and `checked` agrees. */
  predicate SameProduct(a: ShoppingItem, b: ShoppingItem) {
    && a.productId == b.productId
    && a.brand == b.brand
    && a.productDescription == b.productDescription
    && a.aisleDescription == b.aisleDescription
    && a.aisleNumber == b.aisleNumber
    && a.size == b.size
  }

  /** `item.copy(checked = checked)`. */
  function WithChecked(item: ShoppingItem, checked: bool): (r: ShoppingItem)
    ensures r.checked == checked
    ensures SameProduct(r, item) && r.quantity == item.quantity
    ensures r.(checked := item.checked) == item
  {
    item.(checked := checked)
  }

  /** `item.copy(quantity = quantity)`. */
  function WithQuantity(item: ShoppingItem, quantity: int): (r: ShoppingItem)
    ensures r.quantity == quantity
    ensures SameProduct(r, item) && r.checked == item.checked
    ensures r.(quantity := item.quantity) == item
  {
    item.(quantity := quantity)
  }
}
