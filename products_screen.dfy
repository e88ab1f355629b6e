/** The product details screen: image URL and category badge. */
module ProductsScreen {
  import opened Common
  import opened Strings
  import opened Uri

  const ProductsBase: string := "https://kome.bg/komeadmin/products/images/"

  /** `toUrl(PRODUCTS_BASE, product.image)` */
  function ImageUrl(image: string): (r: string)
    ensures r == [] <==> AllSpace(image)
    ensures r != [] && !IsAbsolute(Trim(image)) ==>
      StartsWith(r, ProductsBase) && PathOf(ProductsBase, r) == Some(StripLeadingSlashes(Trim(image)))
    ensures r != [] && IsAbsolute(Trim(image)) ==> r == Trim(image)
  {
    TrimSpec(image);
    ToUrl(ProductsBase, image)
  }

  /** `categoryLabel(Number(cat))`: 1 is new, 2 highlighted, 3 in focus; any
      other value has no badge. */
  function CategoryLabel(cat: int): (r: Option<string>)
    ensures r.Some? <==> 1 <= cat <= 3
    ensures cat == 1 ==> r == Some("Ново")
    ensures cat == 2 ==> r == Some("Акцент")
    ensures cat == 3 ==> r == Some("Фокус")
  {
    if cat == 1 then Some("Ново")
    else if cat == 2 then Some("Акцент")
    else if cat == 3 then Some("Фокус")
    else None
  }
}
