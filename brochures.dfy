/** The brochure viewer: which brochure is shown, the URL of its PDF, and
    the viewer URL handed to the web view. */
module Brochures {
  import opened Common
  import opened Strings
  import opened Uri

  datatype Brochure = Brochure(id: int, state: State, title: Option<string>, pdf: Option<string>)

  const BrochuresBase: string := "https://kome.bg/komeadmin/brochures/images/"

  /** The prefix of Google's embeddable document viewer. */
  const Gview: string := "https://docs.google.com/gview?embedded=1&url="

  /** The request `load` makes. */
  datatype Fetch = GetOne(id: int) | GetAll

  /** `if (id)`: a route id other than 0. */
  predicate HasId(id: Option<int>) {
    id.Some? && id.value != 0
  }

  /** The index `list.find(active)` stops at, or `|xs|` when no entry is
      active. */
  function FirstActive(xs: seq<Brochure>): (k: nat)
    ensures k <= |xs|
    ensures k < |xs| ==> IsActiveState(xs[k].state)
    ensures forall j :: 0 <= j < k ==> !IsActiveState(xs[j].state)
  {
    if xs == [] then 0
    else if IsActiveState(xs[0].state) then 0
    else 1 + FirstActive(xs[1..])
  }

  /** The brochure picked from `getAll`: the first active entry, else the
      first entry, else none. */
  function PickFromList(list: JsArray<Brochure>): (r: Option<Brochure>)
    ensures r.None? <==> ArrayOrEmpty(list) == []
    ensures r.Some? ==> r.value in ArrayOrEmpty(list)
    ensures (exists i :: 0 <= i < |ArrayOrEmpty(list)| && IsActiveState(ArrayOrEmpty(list)[i].state)) ==>
      r.Some? && IsActiveState(r.value.state) &&
      exists k :: 0 <= k < |ArrayOrEmpty(list)| && ArrayOrEmpty(list)[k] == r.value &&
        forall j :: 0 <= j < k ==> !IsActiveState(ArrayOrEmpty(list)[j].state)
    ensures ArrayOrEmpty(list) != [] && (forall i :: 0 <= i < |ArrayOrEmpty(list)| ==> !IsActiveState(ArrayOrEmpty(list)[i].state)) ==>
      r == Some(ArrayOrEmpty(list)[0])
  {
    var xs := ArrayOrEmpty(list);
    var k := FirstActive(xs);
    if k < |xs| then Some(xs[k])
    else if xs != [] then Some(xs[0])
    else None
  }

  /** `data?.pdf ? toUrl(BROCHURES_BASE, data.pdf) : ''`: no brochure, or no
      PDF name, or a blank one gives ''; an absolute URL is kept; a file name
      is placed under the brochures base so that it can be read back. */
  function PdfUrl(data: Option<Brochure>): (r: string)
    ensures r == [] <==> !(data.Some? && data.value.pdf.Some?) || AllSpace(data.value.pdf.value)
    ensures r != [] && IsAbsolute(Trim(data.value.pdf.value)) ==> r == Trim(data.value.pdf.value)
    ensures r != [] && !IsAbsolute(Trim(data.value.pdf.value)) ==>
      StartsWith(r, BrochuresBase) &&
      PathOf(BrochuresBase, r) == Some(StripLeadingSlashes(Trim(data.value.pdf.value)))
  {
    if data.Some? && Present(data.value.pdf) then
      TrimSpec(data.value.pdf.value);
      ToUrl(BrochuresBase, data.value.pdf.value)
    else
      assert data.Some? && data.value.pdf.Some? ==> AllSpace(data.value.pdf.value);
      []
  }

  /** The `viewerUrl` memo: nothing without a PDF; on Android the PDF URL
      encoded as the `url` parameter of the document viewer, from which it
      decodes back exactly; elsewhere the PDF URL itself. */
  function ViewerUrl(pdfUrl: string, android: bool): (r: string)
    ensures r == [] <==> pdfUrl == []
    ensures pdfUrl != [] && !android ==> r == pdfUrl
    ensures pdfUrl != [] && android ==>
      StartsWith(r, Gview) && Decode(r[|Gview|..]) == Some(pdfUrl)
  {
    if pdfUrl == [] then []
    else if android then
      var r := Gview + Encode(pdfUrl);
      assert r[|Gview|..] == Encode(pdfUrl);
      DecodeEncode(pdfUrl);
      r
    else pdfUrl
  }

  class Screen {
    var reloadKey: int
    var loading: bool
    var failed: bool
    var brochure: Option<Brochure>
    var pdfUrl: string

    constructor ()
      ensures reloadKey == 0 && loading && !failed && brochure == None && pdfUrl == []
    {
      reloadKey := 0;
      loading := true;
      failed := false;
      brochure := None;
      pdfUrl := [];
    }

    /** The URL the web view is given. */
    function Viewer(android: bool): string
      reads this
    {
      ViewerUrl(pdfUrl, android)
    }

    /** The `load` effect, run on mount and whenever the id or `reloadKey`
        changes. With an id the brochure is `getOne`'s data; without one it
        is picked from `getAll`'s list. A thrown error raises `failed` and
        keeps the brochure and URL shown before. `loading` ends false. */
    method Load(id: Option<int>, one: Attempt<Option<Brochure>>, all: Attempt<JsArray<Brochure>>)
      returns (call: Fetch)
      modifies this
      ensures call == if HasId(id) then GetOne(id.value) else GetAll
      ensures !loading && reloadKey == old(reloadKey)
      ensures HasId(id) && one.Done? ==> !failed && brochure == one.value && pdfUrl == PdfUrl(one.value)
      ensures !HasId(id) && all.Done? ==>
        !failed && brochure == PickFromList(all.value) && pdfUrl == PdfUrl(PickFromList(all.value))
      ensures (if HasId(id) then one.Threw? else all.Threw?) ==>
        failed && brochure == old(brochure) && pdfUrl == old(pdfUrl)
    {
      loading := true;
      failed := false;
      var data: Option<Brochure>;
      var ok: bool;
      if HasId(id) {
        call := GetOne(id.value);
        ok := one.Done?;
        data := if one.Done? then one.value else None;
      } else {
        call := GetAll;
        ok := all.Done?;
        data := if all.Done? then PickFromList(all.value) else None;
      }
      if ok {
        brochure := data;
        pdfUrl := PdfUrl(data);
      } else {
        failed := true;
      }
      loading := false;
    }

    /** `onRetry`: the reload key moves on by exactly one, which re-runs
        `load`. */
    method OnRetry()
      modifies this
      ensures reloadKey == old(reloadKey) + 1
      ensures loading == old(loading) && failed == old(failed)
      ensures brochure == old(brochure) && pdfUrl == old(pdfUrl)
    {
      reloadKey := reloadKey + 1;
    }

    /** The web view's `onLoadStart`. */
    method OnLoadStart()
      modifies this
      ensures loading && !failed && reloadKey == old(reloadKey)
      ensures brochure == old(brochure) && pdfUrl == old(pdfUrl)
    {
      loading := true;
      failed := false;
    }

    /** The web view's `onLoadEnd`. */
    method OnLoadEnd()
      modifies this
      ensures !loading && failed == old(failed) && reloadKey == old(reloadKey)
      ensures brochure == old(brochure) && pdfUrl == old(pdfUrl)
    {
      loading := false;
    }

    /** The web view's `onError`. */
    method OnError()
      modifies this
      ensures !loading && failed && reloadKey == old(reloadKey)
      ensures brochure == old(brochure) && pdfUrl == old(pdfUrl)
    {
      loading := false;
      failed := true;
    }
  }

  /** The "no PDF" panel is shown exactly when the chosen brochure has no
      PDF name, or a blank one, on every platform. */
  lemma NoPdfPanel(data: Option<Brochure>, android: bool)
    ensures ViewerUrl(PdfUrl(data), android) == [] <==>
      !(data.Some? && data.value.pdf.Some?) || AllSpace(data.value.pdf.value)
  {
  }
}
