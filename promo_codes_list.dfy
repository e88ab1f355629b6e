/** The promo codes list: every visible code is fetched page by page, 30 to
    a page and without a category, and the two tabs filter the fetched list
    locally. */
module PromoCodesList {
  import opened Common
  import opened Paging
  import opened PromoCodeDetails

  datatype Tab = Weekly | Personal

  const PageSize: int := 30

  /** Whether a code belongs on a tab: `is_personal` 1 on the personal tab,
      `category` 1 on the weekly tab. */
  predicate OnTab(tab: Tab, x: PromoCode) {
    if tab == Personal then x.isPersonal == 1 else x.category == 1
  }

  /** The `filtered` memo: the fetched codes that belong on the tab, in the
      order they were fetched. */
  function Filtered(items: seq<PromoCode>, tab: Tab): (r: seq<PromoCode>)
    ensures forall x :: x in r <==> x in items && OnTab(tab, x)
    ensures IsSubsequence(r, items) && |r| <= |items|
    ensures forall x :: multiset(r)[x] == if OnTab(tab, x) then multiset(items)[x] else 0
  {
    var r := Filter(items, x => OnTab(tab, x));
    forall x ensures multiset(r)[x] == if OnTab(tab, x) then multiset(items)[x] else 0 {
      FilterMultiset(items, x => OnTab(tab, x), x);
    }
    r
  }

  /** Every code on the weekly tab carries the weekly chip on its details
      screen; a code on the personal tab carries the personal chip unless it
      is also a category 1 code, which then shows on both tabs. */
  lemma TabsAgreeWithTypeLabel(items: seq<PromoCode>)
    ensures forall x :: x in Filtered(items, Weekly) ==> TypeLabel(x) == PromoCodeDetails.Weekly
    ensures forall x :: x in Filtered(items, Personal) ==>
      (TypeLabel(x) == PromoCodeDetails.Personal <==> x.category != 1)
    ensures forall x :: x in Filtered(items, Personal) && x in Filtered(items, Weekly) <==>
      x in items && x.category == 1 && x.isPersonal == 1
  {
  }

  /** A further page only adds, at the end of each tab, that page's own codes
      for the tab. */
  lemma LoadMoreKeepsTab(items: seq<PromoCode>, data: seq<PromoCode>, tab: Tab)
    ensures Filtered(Merge(items, data, false), tab) == Filtered(items, tab) + Filtered(data, tab)
  {
    MergeFilter(items, data, x => OnTab(tab, x));
  }

  class Screen {
    var items: seq<PromoCode>
    var tab: Tab
    var page: int
    var totalPages: int
    var loading: bool
    var refreshing: bool
    /** The page and mode of the `loadItems` call that is awaiting its reply. */
    var pending: Option<Pending>

    ghost predicate Valid()
      reads this
    {
      loading <==> pending.Some?
    }

    /** The codes the grid shows. */
    function Visible(): seq<PromoCode>
      reads this
    {
      Filtered(items, tab)
    }

    constructor ()
      ensures Valid() && items == [] && tab == Weekly && page == 1 && totalPages == 1
      ensures !loading && !refreshing
    {
      items := [];
      tab := Weekly;
      page := 1;
      totalPages := 1;
      loading := false;
      refreshing := false;
      pending := None;
    }

    /** `loadItems(pageToLoad, reset)` up to its request. While a load is in
        flight it does nothing; otherwise it raises `loading` and asks for the
        page. */
    method LoadItems(pageToLoad: int, reset: bool) returns (query: Option<Query>)
      requires Valid()
      modifies this
      ensures Valid()
      ensures old(loading) ==> query == None && pending == old(pending)
      ensures !old(loading) ==>
        query == Some(Query(pageToLoad, PageSize, None)) && pending == Some(Pending(pageToLoad, reset))
      ensures loading && items == old(items) && tab == old(tab) && page == old(page)
      ensures totalPages == old(totalPages) && refreshing == old(refreshing)
    {
      if loading {
        return None;
      }
      loading := true;
      pending := Some(Pending(pageToLoad, reset));
      query := Some(Query(pageToLoad, PageSize, None));
    }

    /** The rest of `loadItems` once the reply is in. A reply sets the page
        count and the page, and replaces or extends the list; a thrown error
        (shown as an alert) changes none of them. Either way `loading` and
        `refreshing` end false. */
    method Settle(outcome: Attempt<Option<Body<PromoCode>>>)
      requires Valid() && loading
      modifies this
      ensures Valid() && !loading && !refreshing && tab == old(tab)
      ensures outcome.Done? ==>
        page == old(pending).value.page && totalPages == TotalPages(outcome.value) &&
        items == Merge(old(items), PageData(outcome.value), old(pending).value.reset)
      ensures outcome.Threw? ==> items == old(items) && page == old(page) && totalPages == old(totalPages)
    {
      var p := pending.value;
      if outcome.Done? {
        totalPages := TotalPages(outcome.value);
        page := p.page;
        items := Merge(items, PageData(outcome.value), p.reset);
      }
      loading := false;
      refreshing := false;
      pending := None;
    }

    /** `handleLoadMore`: the next page is asked for only when there is one
        and nothing is in flight. */
    method HandleLoadMore() returns (query: Option<Query>)
      requires Valid()
      modifies this
      ensures Valid() && items == old(items) && tab == old(tab) && page == old(page)
      ensures totalPages == old(totalPages) && refreshing == old(refreshing)
      ensures old(page) < old(totalPages) && !old(loading) ==>
        query == Some(Query(old(page) + 1, PageSize, None)) &&
        loading && pending == Some(Pending(old(page) + 1, false))
      ensures !(old(page) < old(totalPages) && !old(loading)) ==>
        query == None && loading == old(loading) && pending == old(pending)
    {
      query := None;
      if page < totalPages && !loading {
        query := LoadItems(page + 1, false);
      }
    }

    /** `handleRefresh`: the spinner shows and page 1 is asked for anew; if a
        load is already in flight, no request is made and the spinner stays
        until that load settles. */
    method HandleRefresh() returns (query: Option<Query>)
      requires Valid()
      modifies this
      ensures Valid() && refreshing && loading
      ensures items == old(items) && tab == old(tab) && page == old(page) && totalPages == old(totalPages)
      ensures !old(loading) ==> query == Some(Query(1, PageSize, None)) && pending == Some(Pending(1, true))
      ensures old(loading) ==> query == None && pending == old(pending)
    {
      refreshing := true;
      query := LoadItems(1, true);
    }

    /** A tab press: only the filter changes; nothing is fetched. */
    method SetTab(t: Tab)
      modifies this
      ensures tab == t && items == old(items) && page == old(page) && totalPages == old(totalPages)
      ensures loading == old(loading) && refreshing == old(refreshing) && pending == old(pending)
      ensures Visible() == Filtered(old(items), t)
    {
      tab := t;
    }
  }
}
