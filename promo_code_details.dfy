/** The promo code details screen: the code shown and copied, its type
    chip and its image URL. */
module PromoCodeDetails {
  import opened Common
  import opened Strings
  import opened Uri
  import PromoCodeCard

  /** The fields of a promo code the screen reads; `category` and
      `isPersonal` are their `Number(...)` values. */
  datatype PromoCode = PromoCode(code: Option<string>, image: Option<string>, category: int, isPersonal: int)

  const Weekly: string := "Седмичен код"
  const Personal: string := "Персонален код"
  const Promo: string := "Промо код"

  /** `typeLabel(item)`: category 1 is a weekly code whatever `is_personal`
      says; otherwise `is_personal` 1 is a personal code; anything else is a
      promo code. */
  function TypeLabel(p: PromoCode): (r: string)
    ensures r == Weekly <==> p.category == 1
    ensures r == Personal <==> p.category != 1 && p.isPersonal == 1
    ensures r == Promo <==> p.category != 1 && p.isPersonal != 1
  {
    if p.category == 1 then Weekly
    else if p.isPersonal == 1 then Personal
    else Promo
  }

  /** `normCode(item?.code)`: the code trimmed; a missing code is ''. */
  function NormCode(code: Option<string>): (r: string)
    ensures r == [] <==> code.None? || AllSpace(code.value)
    ensures Trim(r) == r
  {
    var s := if code.Some? then code.value else [];
    TrimSpec(s);
    TrimIdempotent(s);
    Trim(s)
  }

  /** `copyCode`: what goes to the clipboard, or nothing for an empty code. */
  function CopyCode(p: PromoCode): (copied: Option<string>)
    ensures copied.None? <==> p.code.None? || AllSpace(p.code.value)
    ensures copied.Some? ==> copied.value == NormCode(p.code) && copied.value != []
  {
    var code := NormCode(p.code);
    if code == [] then None else Some(code)
  }

  /** The screen's `imgUrl`, `toUrl(PROMO_BASE, item?.image)`: the same URL
      the list card builds. */
  function ImageUrl(p: PromoCode): (r: string)
    ensures p.image.None? ==> r == []
    ensures p.image.Some? ==> r == PromoCodeCard.ImageUrl(p.image.value)
    ensures r == [] <==> p.image.None? || AllSpace(p.image.value)
  {
    if p.image.Some? then PromoCodeCard.ImageUrl(p.image.value) else ToUrl(PromoCodeCard.PromoBase, [])
  }
}
