/** The client cards screen's display of the stored access token. */
module ClientCards {
  import opened Common

  const Dots: string := "\U{2022}\U{2022}\U{2022}\U{2022}\U{2022}\U{2022}"

  /** `maskToken(token, showAll)`. A missing or empty token shows as ''
      whatever `showAll` says; with `showAll` the token shows in full; a
      token of at most 18 characters shows as six dots; a longer one as its
      first 8 characters, an ellipsis and its last 6. */
  function MaskToken(token: Option<string>, showAll: bool): (r: string)
    ensures !Present(token) ==> r == []
    ensures Present(token) && showAll ==> r == token.value
    ensures Present(token) && !showAll && |token.value| <= 18 ==> r == Dots
    ensures Present(token) && !showAll && |token.value| > 18 ==>
      |r| == 15 && r[..8] == token.value[..8] && r[8] == '\U{2026}' &&
      r[9..] == token.value[|token.value| - 6..] && r != token.value
  {
    var t := if token.Some? then token.value else [];
    if t == [] then []
    else if showAll then t
    else if |t| <= 18 then Dots
    else t[..8] + "\U{2026}" + t[|t| - 6..]
  }

  /** Without `showAll`, the shown text never is the token itself, and two
      long tokens that agree on their first 8 and last 6 characters show
      alike: the middle is never revealed. */
  lemma MaskHides(a: string, b: string)
    requires |a| > 18 && |b| > 18
    requires a[..8] == b[..8] && a[|a| - 6..] == b[|b| - 6..]
    ensures MaskToken(Some(a), false) == MaskToken(Some(b), false)
    ensures MaskToken(Some(a), false) != a
  {
  }
}
