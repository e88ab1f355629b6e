/** Small value types shared by the whole model: optional values, the outcome
    of a remote REST call, and a JSON value that may or may not be an array. */
module Common {

  datatype Option<+T> = None | Some(value: T) {
    function GetOr(default: T): T {
      match this
      case Some(v) => v
      case None => default
    }
  }

  /** What an awaited HTTP call through the axios client produced: either a
      response body, or a thrown error. A thrown error may carry an HTTP
      status (`err.response.status`) or none (timeout, network failure). */
  datatype Response<+T> = Ok(data: T) | Failed(status: Option<int>)

  /** `isUnauthorized`: the status of the error response is 401 or 403. */
  predicate IsUnauthorized<T>(r: Response<T>) {
    r.Failed? && r.status.Some? && (r.status.value == 401 || r.status.value == 403)
  }

  /** JavaScript truthiness of an optional string. */
  predicate Present(s: Option<string>) {
    s.Some? && s.value != []
  }

  /** A caught error as the screens inspect it: the `error` field of the HTTP
      error response's body, if any, and the error's `message`, if any. */
  datatype Thrown = Thrown(responseError: Option<string>, message: Option<string>)

  /** `err?.response?.data?.error || err?.message || fallback`: the message
      shown for a caught error. It is never empty when the fallback is not. */
  function ErrorMessage(e: Thrown, fallback: string): (r: string)
    ensures fallback != [] ==> r != []
    ensures Present(e.responseError) ==> r == e.responseError.value
    ensures !Present(e.responseError) && Present(e.message) ==> r == e.message.value
    ensures !Present(e.responseError) && !Present(e.message) ==> r == fallback
  {
    if Present(e.responseError) then e.responseError.value
    else if Present(e.message) then e.message.value
    else fallback
  }

  /** An awaited call whose caller inspects the message of what it throws. */
  datatype Attempt<+T> = Done(value: T) | Threw(err: Thrown)

  /** What `AsyncStorage.getItem(key)` followed by `JSON.parse` finds under a
      key that is present: the serialized form of a value, the empty string,
      or text that `JSON.parse` rejects. A missing key is a key not in the
      store's map. */
  datatype Stored<+T> = Json(value: T) | EmptyText | Malformed

  /** A JSON value that the code inspects with `Array.isArray`. */
  datatype JsArray<+T> = Array(elems: seq<T>) | NotArray

  /** `Array.isArray(v) ? v : []` */
  function ArrayOrEmpty<T>(v: JsArray<T>): (r: seq<T>)
    ensures v.NotArray? ==> r == []
    ensures v.Array? ==> r == v.elems
  {
    match v
    case Array(xs) => xs
    case NotArray => []
  }

  /** A record's `state` field as the server sends it: a number, a string,
      or absent. */
  datatype State = NumState(n: int) | TextState(s: string) | NoState

  /** `String(x?.state) === '1' || x?.state === 1`: the record is shown. */
  predicate IsActiveState(st: State) {
    st == NumState(1) || st == TextState("1")
  }

  /** Order-preserving filter, the model of `Array.prototype.filter`. */
  function Filter<T(==)>(s: seq<T>, p: T -> bool): (r: seq<T>)
    ensures |r| <= |s|
    ensures forall x :: x in r ==> x in s && p(x)
    ensures forall i :: 0 <= i < |s| && p(s[i]) ==> s[i] in r
    ensures IsSubsequence(r, s)
  {
    if s == [] then []
    else if p(s[0]) then [s[0]] + Filter(s[1..], p)
    else Filter(s[1..], p)
  }

  /** `r` is obtained from `s` by deleting some elements, keeping the order. */
  predicate IsSubsequence<T(==)>(r: seq<T>, s: seq<T>) {
    if r == [] then true
    else if s == [] then false
    else if r[0] == s[0] then IsSubsequence(r[1..], s[1..])
    else IsSubsequence(r, s[1..])
  }

  lemma {:induction false} SubsequenceRefl<T>(s: seq<T>)
    ensures IsSubsequence(s, s)
  {
    if s != [] {
      SubsequenceRefl(s[1..]);
    }
  }

  lemma {:induction false} SubsequenceLength<T>(r: seq<T>, s: seq<T>)
    requires IsSubsequence(r, s)
    ensures |r| <= |s|
  {
    if r != [] && s != [] {
      if r[0] == s[0] {
        SubsequenceLength(r[1..], s[1..]);
      } else {
        SubsequenceLength(r, s[1..]);
      }
    }
  }

  /** Filtering with a predicate that holds everywhere on `s` keeps all of `s`. */
  lemma {:induction false} FilterAll<T>(s: seq<T>, p: T -> bool)
    requires forall i :: 0 <= i < |s| ==> p(s[i])
    ensures Filter(s, p) == s
  {
    if s != [] {
      FilterAll(s[1..], p);
    }
  }

  /** The number of elements of a filter is the number of elements that pass. */
  lemma {:induction false} FilterMultiset<T>(s: seq<T>, p: T -> bool, x: T)
    ensures multiset(Filter(s, p))[x] == if p(x) then multiset(s)[x] else 0
  {
    if s != [] {
      FilterMultiset(s[1..], p, x);
      assert s == [s[0]] + s[1..];
    }
  }

  /** Filtering distributes over concatenation. */
  lemma {:induction false} FilterAppend<T>(a: seq<T>, b: seq<T>, p: T -> bool)
    ensures Filter(a + b, p) == Filter(a, p) + Filter(b, p)
  {
    if a != [] {
      assert (a + b)[1..] == a[1..] + b;
      FilterAppend(a[1..], b, p);
    } else {
      assert a + b == b;
    }
  }
}
