/** The promo code list card: image URL, category badge and shortened code. */
module PromoCodeCard {
  import opened Common
  import opened Strings
  import opened Uri

  const PromoBase: string := "https://kome.bg/komeadmin/promocodes/images/"

  /** The card's `imgUrl`: `toUrl` with the promo code images base. */
  function ImageUrl(image: string): (r: string)
    ensures r == [] <==> AllSpace(image)
    ensures r != [] && !IsAbsolute(Trim(image)) ==>
      StartsWith(r, PromoBase) && PathOf(PromoBase, r) == Some(StripLeadingSlashes(Trim(image)))
    ensures r != [] && IsAbsolute(Trim(image)) ==> r == Trim(image)
  {
    TrimSpec(image);
    ToUrl(PromoBase, image)
  }

  /** `categoryLabel(Number(cat))`: categories 1 to 3 have a badge naming
      their number; any other value has none. */
  function CategoryLabel(cat: int): (r: Option<string>)
    ensures r.Some? <==> 1 <= cat <= 3
    ensures r.Some? ==> r.value == "Категория " + NatToString(cat)
  {
    if cat == 1 then Some("Категория 1")
    else if cat == 2 then Some("Категория 2")
    else if cat == 3 then Some("Категория 3")
    else None
  }

  /** The end index `s.slice(0, e)` uses on a string of length `len`: a
      negative `e` counts from the end, and the result is clipped to the
      string. */
  function SliceEnd(len: nat, e: int): (k: nat)
    ensures k <= len
    ensures 0 <= e <= len ==> k == e
  {
    if e < 0 then (if len + e < 0 then 0 else len + e)
    else if e > len then len
    else e
  }

  /** `shortCode(v, max)`: blank gives ''; text that fits is shown trimmed;
      longer text keeps its first `max - 1` characters and an ellipsis, so
      that the result has exactly `max` characters. */
  function ShortCode(v: string, max: int): (r: string)
    ensures AllSpace(v) ==> r == []
    ensures !AllSpace(v) && |Trim(v)| <= max ==> r == Trim(v)
    ensures !AllSpace(v) && |Trim(v)| > max ==>
      1 <= |r| <= |Trim(v)| && r[|r| - 1] == '\U{2026}' && r[..|r| - 1] == Trim(v)[..|r| - 1]
    ensures !AllSpace(v) && |Trim(v)| > max >= 1 ==> |r| == max
  {
    TrimSpec(v);
    var s := Trim(v);
    if s == [] then []
    else if |s| <= max then s
    else s[..SliceEnd(|s|, max - 1)] + "\U{2026}"
  }

  /** The card calls `shortCode` with its default maximum, 18: the shown code
      never exceeds 18 characters, and is the code itself when it fits. */
  lemma ShortCodeDefault(v: string)
    ensures |ShortCode(v, 18)| <= 18
    ensures |Trim(v)| <= 18 ==> ShortCode(v, 18) == Trim(v)
  {
    TrimSpec(v);
  }
}
