/** The `enabled` predicates of the change-form actions that inspect page
    records. */
module Enablement {
  import opened Optional
  import opened Pages

  /** The delete guard's scan: walks the selection and answers false at the
      first reordered page. */
  function NoneReordered(sel: seq<Page>): (r: bool)
    ensures r <==> forall i :: 0 <= i < |sel| ==> !Reordered(sel[i])
  {
    if |sel| == 0 then true
    else if Reordered(sel[0]) then false
    else NoneReordered(sel[1..])
  }

  /** Delete is refused while any selected page is reordered, and needs a
      non-empty selection. */
  function DeletePageEnabled(sel: seq<Page>): (r: bool)
    ensures r <==> |sel| > 0 && !Pending(sel)
  {
    NoneReordered(sel) && |sel| > 0
  }

  /** Apply-reorder's scan: walks the thumbnails and answers true at the
      first reordered one. */
  function AnyReordered(thumbs: seq<Page>): (r: bool)
    ensures r <==> Pending(thumbs)
  {
    if |thumbs| == 0 then false
    else if Reordered(thumbs[0]) then true
    else
      var r := AnyReordered(thumbs[1..]);
      assert forall i :: 1 <= i < |thumbs| ==> thumbs[1..][i - 1] == thumbs[i];
      r
  }

  /** Apply-reorder is enabled only when the thumbnail list was passed and
      some thumbnail is reordered. */
  function ApplyReorderEnabled(thumbs: Option<seq<Page>>): (r: bool)
    ensures thumbs.None? ==> !r
    ensures thumbs.Some? ==> (r <==> Pending(thumbs.value))
  {
    thumbs.Some? && AnyReordered(thumbs.value)
  }

  /** A single reordered page disables delete, whatever the other selected
      pages are. */
  lemma OneReorderedPageBlocksDelete(sel: seq<Page>, i: int)
    requires 0 <= i < |sel| && Reordered(sel[i])
    ensures !DeletePageEnabled(sel)
  {
  }

  /** Apply-reorder stays disabled on an empty or fully consistent list. */
  lemma ConsistentListHasNothingToApply(thumbs: seq<Page>)
    requires forall i :: 0 <= i < |thumbs| ==> thumbs[i].pageNum == thumbs[i].pageOrder
    ensures !ApplyReorderEnabled(Some(thumbs))
  {
  }
}
