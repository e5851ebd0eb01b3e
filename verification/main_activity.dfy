/** The pure rules of the app's screens that decide what goes into the
    list: the bootstrap of the list file, how a search hit's aisle and
    thumbnail are picked, and whether a hit offers "add" or "adjust
    quantity". */
module MainActivity {
  import opened Models
  import opened ListRules
  import ViewModels

  // ---------------------------------------------------------------------
  // Store bootstrap

  /** `ensureListFileExists`: a missing list file is created holding an
      empty list; an existing one is left alone. */
  function EnsureListFileExists(store: Option<ShoppingList>): (r: Option<ShoppingList>)
    ensures r.Some?
    ensures store.None? ==> r.value.items == []
    ensures store.Some? ==> r == store
  {
    if store.None? then Some(ShoppingList([])) else store
  }

  lemma EnsureListFileExistsIdempotent(store: Option<ShoppingList>)
    ensures EnsureListFileExists(EnsureListFileExists(store)) == EnsureListFileExists(store)
  {
  }

  /** After the bootstrap the view model's first load cannot fail, and a
      first run starts from the empty list. */
  lemma BootstrapThenInit(store: Option<ShoppingList>)
    ensures ViewModels.Init(EnsureListFileExists(store)).Ok?
    ensures store.None? ==> ViewModels.Init(EnsureListFileExists(store)).value.shoppingItems == []
    ensures store.Some? ==> ViewModels.Init(EnsureListFileExists(store)).value.shoppingItems == store.value.items
  {
  }

  // ---------------------------------------------------------------------
  // Search hits

  const NoAisleNumber: string := "No Aisle Found"
  const NoAisleDescription: string := "No Aisle Description Found"

  datatype Aisle = Aisle(number: string, description: string)

  /** The aisle shown for a product: the first aisle location, or the two
      placeholder strings when the product has none. */
  function AisleOf(product: Product): (r: Aisle)
    ensures |product.aisleLocations| == 0 ==> r == Aisle(NoAisleNumber, NoAisleDescription)
    ensures |product.aisleLocations| > 0 ==>
      r.number == product.aisleLocations[0].number && r.description == product.aisleLocations[0].description
  {
    if |product.aisleLocations| > 0 then
      Aisle(product.aisleLocations[0].number, product.aisleLocations[0].description)
    else Aisle(NoAisleNumber, NoAisleDescription)
  }

  /** An image the thumbnail can be taken from. */
  predicate FrontWithSizes(image: ProductImage) {
    image.perspective == "front" && |image.sizes| >= 1
  }

  /** The thumbnail: the first size of the LAST front image that has sizes
      (the loop over the images keeps overwriting it), or none. */
  function FrontThumbnail(images: seq<ProductImage>): (r: Option<ProductSize>)
    ensures r.Some? <==> exists i :: 0 <= i < |images| && FrontWithSizes(images[i])
    ensures r.Some? ==>
      exists i :: && 0 <= i < |images| && FrontWithSizes(images[i])
                   && r.value == images[i].sizes[0]
                   && forall j :: i < j < |images| ==> !FrontWithSizes(images[j])
  {
    if |images| == 0 then None
    else
      var last := images[|images| - 1];
      var rest := FrontThumbnail(images[..|images| - 1]);
      assert forall j :: 0 <= j < |images| - 1 ==> images[..|images| - 1][j] == images[j];
      if FrontWithSizes(last) then Some(last.sizes[0]) else rest
  }

  /** The loop over `product.images` in `ProductSearch`. */
  method SelectThumbnail(images: seq<ProductImage>) returns (thumbnailSize: Option<ProductSize>)
    ensures thumbnailSize == FrontThumbnail(images)
  {
    thumbnailSize := None;
    var i := 0;
    while i < |images|
      invariant 0 <= i <= |images|
      invariant thumbnailSize == FrontThumbnail(images[..i])
    {
      assert images[..i + 1][..i] == images[..i];
      if images[i].perspective == "front" {
        if |images[i].sizes| >= 1 {
          thumbnailSize := Some(images[i].sizes[0]);
        }
      }
      i := i + 1;
    }
    assert images[..|images|] == images;
  }

  /** The item the "Add" button puts in the list. `checked` starts false;
      `quantity` takes the class's default, which is a parameter here. */
  function NewShoppingItem(
    productId: string, productBrand: string, productDescription: string,
    productAisleDescription: string, productAisleNumber: string,
    productSize: Option<string>, defaultQuantity: int
  ): (r: ShoppingItem)
    ensures r.productId == productId && r.brand == productBrand
    ensures r.productDescription == productDescription
    ensures r.aisleDescription == productAisleDescription && r.aisleNumber == productAisleNumber
    ensures r.size == (if productSize.Some? then productSize.value else "")
    ensures r.quantity == defaultQuantity && !r.checked
  {
    ShoppingItem(
      productId, productBrand, productDescription, productAisleDescription, productAisleNumber,
      if productSize.Some? then productSize.value else "",
      defaultQuantity, false)
  }

  /** What `ItemPreview` offers for a search hit. */
  datatype Preview =
    | AdjustQuantity(productId: string, quantity: int)
    | AddToList(item: ShoppingItem)

  /** `ItemPreview`: a product already in the list gets the quantity
      controls, showing the quantity of the first item with its id; any
      other product gets an "Add" button for a new item. */
  function ItemPreview(
    productId: string, productBrand: string, productAisleNumber: string,
    productAisleDescription: string, productDescription: string,
    productSize: Option<string>, items: seq<ShoppingItem>, defaultQuantity: int
  ): (r: Preview)
    ensures r.AdjustQuantity? <==> exists j :: 0 <= j < |items| && items[j].productId == productId
    ensures r.AdjustQuantity? ==> r.productId == productId
    ensures r.AdjustQuantity? ==>
      exists j :: && 0 <= j < |items| && items[j].productId == productId
                  && r.quantity == items[j].quantity
                  && forall k :: 0 <= k < j ==> items[k].productId != productId
    ensures r.AddToList? ==> r.item == NewShoppingItem(productId, productBrand, productDescription,
                                                      productAisleDescription, productAisleNumber,
                                                      productSize, defaultQuantity)
  {
    var itemIndex := IndexOfFirst(items, productId);
    if itemIndex != -1 then AdjustQuantity(productId, items[itemIndex].quantity)
    else AddToList(NewShoppingItem(productId, productBrand, productDescription,
                                   productAisleDescription, productAisleNumber,
                                   productSize, defaultQuantity))
  }

  /** One product of the search result: offered only when it has a
      thumbnail, with the aisle picked by `AisleOf`. `productSize` is the
      size of the product's first sold item, which `Product` does not
      describe. */
  function ProductPreview(product: Product, productSize: Option<string>, items: seq<ShoppingItem>, defaultQuantity: int): (r: Option<Preview>)
    ensures r.None? <==> forall i :: 0 <= i < |product.images| ==> !FrontWithSizes(product.images[i])
    ensures r.Some? ==> r.value == ItemPreview(product.productId, product.brand, AisleOf(product).number,
                                               AisleOf(product).description, product.description,
                                               productSize, items, defaultQuantity)
  {
    if FrontThumbnail(product.images).None? then None
    else
      var aisle := AisleOf(product);
      Some(ItemPreview(product.productId, product.brand, aisle.number, aisle.description,
                       product.description, productSize, items, defaultQuantity))
  }

  /** `productRes?.data?.forEach`: the previews of the products that have a
      thumbnail, in result order. */
  function SearchPreviews(products: seq<Product>, sizeOf: Product -> Option<string>, items: seq<ShoppingItem>, defaultQuantity: int): (r: seq<Preview>)
    ensures |r| <= |products|
    ensures (forall i :: 0 <= i < |products| ==> FrontThumbnail(products[i].images).None?) ==> r == []
    ensures (forall i :: 0 <= i < |products| ==> FrontThumbnail(products[i].images).Some?) ==> |r| == |products|
  {
    if |products| == 0 then []
    else
      var rest := SearchPreviews(products[1..], sizeOf, items, defaultQuantity);
      match ProductPreview(products[0], sizeOf(products[0]), items, defaultQuantity)
      case None => rest
      case Some(p) => [p] + rest
  }

  // ---------------------------------------------------------------------
  // Properties

  /** Adding from a search hit never creates a duplicate id, and keeps every
      quantity positive when the default quantity is. */
  lemma AddFromSearchKeepsValid(product: Product, productSize: Option<string>, items: seq<ShoppingItem>, defaultQuantity: int)
    requires Valid(items) && defaultQuantity >= 1
    requires ProductPreview(product, productSize, items, defaultQuantity).Some?
    requires ProductPreview(product, productSize, items, defaultQuantity).value.AddToList?
    ensures Valid(Append(items, ProductPreview(product, productSize, items, defaultQuantity).value.item))
  {
    var item := ProductPreview(product, productSize, items, defaultQuantity).value.item;
    AppendKeepsUnique(items, item);
    AppendKeepsPositive(items, item);
  }

  /** A new item takes the hit's id, brand and description verbatim, and its
      aisle fields from the product's first aisle location, or the
      placeholders when there is none. */
  lemma SearchItemFields(product: Product, productSize: Option<string>, items: seq<ShoppingItem>, defaultQuantity: int)
    requires ProductPreview(product, productSize, items, defaultQuantity).Some?
    requires ProductPreview(product, productSize, items, defaultQuantity).value.AddToList?
    ensures var item := ProductPreview(product, productSize, items, defaultQuantity).value.item;
      && item.productId == product.productId
      && item.brand == product.brand
      && item.productDescription == product.description
      && (|product.aisleLocations| > 0 ==>
            item.aisleNumber == product.aisleLocations[0].number
            && item.aisleDescription == product.aisleLocations[0].description)
      && (|product.aisleLocations| == 0 ==>
            item.aisleNumber == NoAisleNumber && item.aisleDescription == NoAisleDescription)
      && (productSize.None? ==> item.size == "")
      && !item.checked
  {
  }
}
