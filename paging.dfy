/** The page-by-page loading the promo code and product lists share: the
    shape of a page reply, how it is read, and how a page is merged into
    what is already shown. */
module Paging {
  import opened Common

  datatype Meta = Meta(pages: Option<int>)

  /** `result.data` of a list endpoint: the page's entries and its meta. */
  datatype Body<T> = Body(data: Option<seq<T>>, meta: Option<Meta>)

  /** What a list endpoint is asked for. */
  datatype Query = Query(page: int, limit: int, category: Option<int>)

  /** What the load in flight will do when it settles: the page it asked for
      and whether it replaces the list. */
  datatype Pending = Pending(page: int, reset: bool)

  /** `result?.data?.data ?? []` */
  function PageData<T>(reply: Option<Body<T>>): (d: seq<T>)
    ensures reply.Some? && reply.value.data.Some? ==> d == reply.value.data.value
    ensures reply.None? || reply.value.data.None? ==> d == []
  {
    if reply.Some? && reply.value.data.Some? then reply.value.data.value else []
  }

  /** `(result?.data?.meta ?? {}).pages ?? 1`: a missing count is 1, a count
      the server sends (0 included) is kept. */
  function TotalPages<T>(reply: Option<Body<T>>): (n: int)
    ensures reply.Some? && reply.value.meta.Some? && reply.value.meta.value.pages.Some? ==>
      n == reply.value.meta.value.pages.value
    ensures reply.None? || reply.value.meta.None? || reply.value.meta.value.pages.None? ==> n == 1
  {
    if reply.Some? && reply.value.meta.Some? && reply.value.meta.value.pages.Some?
    then reply.value.meta.value.pages.value
    else 1
  }

  /** The list after a page settles: a reset shows the page alone; a load
      more keeps what was shown, in order, and adds the page after it. */
  function Merge<T>(prev: seq<T>, data: seq<T>, reset: bool): (r: seq<T>)
    ensures reset ==> r == data
    ensures !reset ==> |r| == |prev| + |data| && r[..|prev|] == prev && r[|prev|..] == data
  {
    if reset then data else prev + data
  }

  /** Merging a further page and then filtering is filtering what was shown
      and then adding the page's own matches: earlier entries keep their
      places, whatever filter the screen applies. */
  lemma MergeFilter<T>(prev: seq<T>, data: seq<T>, p: T -> bool)
    ensures Filter(Merge(prev, data, false), p) == Filter(prev, p) + Filter(data, p)
  {
    FilterAppend(prev, data, p);
  }
}
