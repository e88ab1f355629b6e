/** The shops list: the active shops, narrowed by a free-text search over
    their text fields, and the title of each shop's card. */
module ShopsList {
  import opened Common
  import opened Strings

  datatype Shop = Shop(id: int, state: State, city: Option<string>, store: Option<string>,
                       address: Option<string>, description: Option<string>, workTime: Option<string>)

  const Separator: string := " \U{2022} "
  const Fallback: string := "Обект"

  /** `String(s?.state) === '1' || s?.state === 1` */
  predicate IsActive(s: Shop) {
    IsActiveState(s.state)
  }

  /** `norm(v)`: `String(v ?? '').trim()` */
  function Norm(v: Option<string>): string {
    Trim(v.GetOr([]))
  }

  /** `includesCI(haystack, needle)` */
  function IncludesCI(hay: Option<string>, needle: string): bool {
    needle == [] || Contains(ToLower(Norm(hay)), needle)
  }

  /** An empty needle is found everywhere; otherwise the needle must occur
      in the trimmed, lower-cased text. */
  lemma IncludesCIIff(hay: Option<string>, needle: string)
    ensures needle == [] ==> IncludesCI(hay, needle)
    ensures needle != [] ==>
      (IncludesCI(hay, needle) <==> exists i :: OccursAt(ToLower(Norm(hay)), needle, i))
  {
    var t := ToLower(Norm(hay));
    ContainsIff(t, needle);
    if needle != [] {
      if IncludesCI(hay, needle) {
        assert Contains(t, needle);
        var i :| OccursAt(t, needle, i);
        assert OccursAt(ToLower(Norm(hay)), needle, i);
      }
    }
  }

  /** The `activeShops` memo: a reply that is not an array shows nothing. */
  function ActiveShops(shops: JsArray<Shop>): (r: seq<Shop>)
    ensures shops.NotArray? ==> r == []
    ensures forall s :: s in r <==> shops.Array? && s in shops.elems && IsActive(s)
    ensures shops.Array? ==> IsSubsequence(r, shops.elems)
  {
    Filter(ArrayOrEmpty(shops), IsActive)
  }

  /** The `q` memo: the query trimmed and lower-cased. */
  function Query(query: string): string {
    ToLower(Trim(query))
  }

  /** Normalising is idempotent, so a query typed already trimmed or in
      lower case finds the same shops. */
  lemma QueryNormal(query: string)
    ensures Query(Query(query)) == Query(query)
    ensures Query(Trim(query)) == Query(query)
  {
    var t := Trim(query);
    TrimIdempotent(query);
    TrimOfLower(t);
    ToLowerIdempotent(t);
  }

  /** A shop matches a (normalised, non-empty) query when one of its city,
      store, address, description or working hours contains it. */
  predicate MatchesQuery(s: Shop, q: string) {
    IncludesCI(s.city, q) || IncludesCI(s.store, q) || IncludesCI(s.address, q) ||
    IncludesCI(s.description, q) || IncludesCI(s.workTime, q)
  }

  /** The `filteredShops` memo. */
  function FilteredShops(shops: JsArray<Shop>, query: string): (r: seq<Shop>)
    ensures Query(query) == [] ==> r == ActiveShops(shops)
    ensures forall s :: s in r <==> s in ActiveShops(shops) && MatchesQuery(s, Query(query))
    ensures IsSubsequence(r, ActiveShops(shops))
  {
    var q := Query(query);
    SubsequenceRefl(ActiveShops(shops));
    if q == [] then ActiveShops(shops) else Filter(ActiveShops(shops), s => MatchesQuery(s, q))
  }

  /** The result hint "filtered / active" never shows more results than
      active shops, and a query that every active shop matches keeps them
      all. */
  lemma FilteredCount(shops: JsArray<Shop>, query: string)
    ensures |FilteredShops(shops, query)| <= |ActiveShops(shops)|
    ensures (forall s :: s in ActiveShops(shops) ==> MatchesQuery(s, Query(query))) ==>
      FilteredShops(shops, query) == ActiveShops(shops)
  {
    var q := Query(query);
    var a := ActiveShops(shops);
    SubsequenceLength(FilteredShops(shops, query), a);
    if q != [] && forall s :: s in a ==> MatchesQuery(s, q) {
      FilterAll(a, s => MatchesQuery(s, q));
    }
  }

  /** The card title: the non-empty trimmed city and store joined by " • ",
      or "Обект" when both are empty. */
  function Title(s: Shop): (r: string)
    ensures r != []
    ensures Norm(s.city) == [] && Norm(s.store) == [] ==> r == Fallback
    ensures Norm(s.city) != [] && Norm(s.store) != [] ==> r == Norm(s.city) + Separator + Norm(s.store)
    ensures Norm(s.city) != [] && Norm(s.store) == [] ==> r == Norm(s.city)
    ensures Norm(s.city) == [] && Norm(s.store) != [] ==> r == Norm(s.store)
  {
    var city := Norm(s.city);
    var store := Norm(s.store);
    TrimSpec(s.city.GetOr([]));
    TrimSpec(s.store.GetOr([]));
    var parts := (if city != [] then [city] else []) + (if store != [] then [store] else []);
    if |parts| == 0 then Fallback
    else if |parts| == 1 then parts[0]
    else parts[0] + Separator + parts[1]
  }
}
