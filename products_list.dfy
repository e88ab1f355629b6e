/** The products list: products fetched page by page, 20 to a page, for the
    category of the selected tab (none for "all"). */
module ProductsList {
  import opened Common
  import opened Paging

  datatype Product = Product(id: int, name: string, image: Option<string>, category: int)

  const PageSize: int := 20

  class Screen {
    var products: seq<Product>
    var page: int
    var totalPages: int
    var category: Option<int>
    var loading: bool
    var refreshing: bool
    /** The page and mode of the `loadProducts` call awaiting its reply. */
    var pending: Option<Pending>

    ghost predicate Valid()
      reads this
    {
      loading <==> pending.Some?
    }

    constructor ()
      ensures Valid() && products == [] && page == 1 && totalPages == 1 && category == None
      ensures !loading && !refreshing
    {
      products := [];
      page := 1;
      totalPages := 1;
      category := None;
      loading := false;
      refreshing := false;
      pending := None;
    }

    /** `loadProducts(pageToLoad, reset)` up to its request, which carries
        the page size and the current category. While a load is in flight it
        does nothing. */
    method LoadProducts(pageToLoad: int, reset: bool) returns (query: Option<Query>)
      requires Valid()
      modifies this
      ensures Valid()
      ensures old(loading) ==> query == None && pending == old(pending)
      ensures !old(loading) ==>
        query == Some(Query(pageToLoad, PageSize, category)) && pending == Some(Pending(pageToLoad, reset))
      ensures loading && products == old(products) && category == old(category) && page == old(page)
      ensures totalPages == old(totalPages) && refreshing == old(refreshing)
    {
      if loading {
        return None;
      }
      loading := true;
      pending := Some(Pending(pageToLoad, reset));
      query := Some(Query(pageToLoad, PageSize, category));
    }

    /** The rest of `loadProducts` once the reply is in: a reply sets the page
        count and the page and replaces or extends the list; a thrown error
        changes none of them; `loading` and `refreshing` end false. */
    method Settle(outcome: Attempt<Option<Body<Product>>>)
      requires Valid() && loading
      modifies this
      ensures Valid() && !loading && !refreshing && category == old(category)
      ensures outcome.Done? ==>
        page == old(pending).value.page && totalPages == TotalPages(outcome.value) &&
        products == Merge(old(products), PageData(outcome.value), old(pending).value.reset)
      ensures outcome.Threw? ==>
        products == old(products) && page == old(page) && totalPages == old(totalPages)
    {
      var p := pending.value;
      if outcome.Done? {
        totalPages := TotalPages(outcome.value);
        page := p.page;
        products := Merge(products, PageData(outcome.value), p.reset);
      }
      loading := false;
      refreshing := false;
      pending := None;
    }

    /** `handleLoadMore` */
    method HandleLoadMore() returns (query: Option<Query>)
      requires Valid()
      modifies this
      ensures Valid() && products == old(products) && category == old(category) && page == old(page)
      ensures totalPages == old(totalPages) && refreshing == old(refreshing)
      ensures old(page) < old(totalPages) && !old(loading) ==>
        query == Some(Query(old(page) + 1, PageSize, category)) &&
        loading && pending == Some(Pending(old(page) + 1, false))
      ensures !(old(page) < old(totalPages) && !old(loading)) ==>
        query == None && loading == old(loading) && pending == old(pending)
    {
      query := None;
      if page < totalPages && !loading {
        query := LoadProducts(page + 1, false);
      }
    }

    /** `handleRefresh` */
    method HandleRefresh() returns (query: Option<Query>)
      requires Valid()
      modifies this
      ensures Valid() && refreshing && loading
      ensures products == old(products) && category == old(category) && page == old(page)
      ensures totalPages == old(totalPages)
      ensures !old(loading) ==> query == Some(Query(1, PageSize, category)) && pending == Some(Pending(1, true))
      ensures old(loading) ==> query == None && pending == old(pending)
    {
      refreshing := true;
      query := LoadProducts(1, true);
    }

    /** `handleTabChange(value)` together with the effect on `category` it
        sets off: the page goes back to 1 and, when the category really
        changed and nothing is in flight, page 1 of the new category is asked
        for with reset. A change while a load is in flight asks for nothing,
        so that load's reply, for the old category, is what settles. */
    method HandleTabChange(value: Option<int>) returns (query: Option<Query>)
      requires Valid()
      modifies this
      ensures Valid() && category == value && page == 1
      ensures products == old(products) && totalPages == old(totalPages) && refreshing == old(refreshing)
      ensures value != old(category) && !old(loading) ==>
        query == Some(Query(1, PageSize, value)) && loading && pending == Some(Pending(1, true))
      ensures value == old(category) || old(loading) ==>
        query == None && loading == old(loading) && pending == old(pending)
    {
      var changed := value != category;
      category := value;
      page := 1;
      query := None;
      if changed {
        query := LoadProducts(1, true);
      }
    }
  }
}
