/** The loops of the change-form actions that turn the selection or the
    thumbnail list into the parts of a request. */
module Payloads {
  import opened Pages
  import opened Requests

  /** The page numbers of `pages`, in order: what the cut and delete loops
      push, one per selected page. */
  function PageNums(pages: seq<Page>): (nums: seq<int>)
    ensures |nums| == |pages|
    ensures forall i :: 0 <= i < |pages| ==> nums[i] == pages[i].pageNum
  {
    if |pages| == 0 then [] else [pages[0].pageNum] + PageNums(pages[1..])
  }

  /** The `doc_id` a payload loop leaves behind when it starts from
      `docId`: every iteration overwrites it with the current page's. */
  function DocIdAfter(pages: seq<Page>, docId: DocRef): (r: DocRef)
    ensures |pages| == 0 ==> r == docId
    ensures |pages| > 0 ==> r == Doc(pages[|pages| - 1].docId)
  {
    if |pages| == 0 then docId else DocIdAfter(pages[1..], Doc(pages[0].docId))
  }

  /** The document id of the URL built after a payload loop: the last
      page's, or `undefined` when there is none. */
  function LastDocId(pages: seq<Page>): DocRef {
    DocIdAfter(pages, Undefined)
  }

  /** The apply-reorder body: one `{page_num, page_order}` per thumbnail,
      in list order, both values copied unchanged. */
  function ReorderEntries(thumbs: seq<Page>): (entries: seq<ReorderEntry>)
    ensures |entries| == |thumbs|
    ensures forall i :: 0 <= i < |thumbs| ==>
              entries[i] == ReorderEntry(thumbs[i].pageNum, thumbs[i].pageOrder)
  {
    if |thumbs| == 0 then []
    else [ReorderEntry(thumbs[0].pageNum, thumbs[0].pageOrder)] + ReorderEntries(thumbs[1..])
  }

  /** No page of `pages` has a truthy number. */
  predicate NoneTruthy(pages: seq<Page>) {
    forall i :: 0 <= i < |pages| ==> !Truthy(pages[i].pageNum)
  }

  /** `k` is the index of the last page of `pages` with a truthy number. */
  predicate LastTruthyAt(pages: seq<Page>, k: int) {
    0 <= k < |pages| && Truthy(pages[k].pageNum) && NoneTruthy(pages[k + 1..])
  }

  /** The paste-before/after loop from `anchor` on: every page whose number
      is truthy overwrites the anchor. */
  function AnchorAfter(pages: seq<Page>, anchor: int): int {
    if |pages| == 0 then anchor
    else AnchorAfter(pages[1..], if Truthy(pages[0].pageNum) then pages[0].pageNum else anchor)
  }

  /** The loop leaves the number of the last page with a truthy number, or
      `anchor` untouched when there is none; so the result is always one of
      the truthy selected numbers or `anchor`. */
  lemma {:induction false} AnchorIsLastTruthy(pages: seq<Page>, anchor: int)
    ensures NoneTruthy(pages) ==> AnchorAfter(pages, anchor) == anchor
    ensures forall k :: LastTruthyAt(pages, k) ==> AnchorAfter(pages, anchor) == pages[k].pageNum
    ensures AnchorAfter(pages, anchor) == anchor
            || exists i :: 0 <= i < |pages| && Truthy(pages[i].pageNum)
                           && AnchorAfter(pages, anchor) == pages[i].pageNum
  {
    if |pages| > 0 {
      var rest := pages[1..];
      var next := if Truthy(pages[0].pageNum) then pages[0].pageNum else anchor;
      var r := AnchorAfter(rest, next);
      AnchorIsLastTruthy(rest, next);
      if NoneTruthy(pages) {
        assert NoneTruthy(rest) by {
          forall i | 0 <= i < |rest| ensures !Truthy(rest[i].pageNum) {
            assert rest[i] == pages[i + 1];
          }
        }
      }
      forall k | LastTruthyAt(pages, k) ensures r == pages[k].pageNum {
        if k == 0 {
          assert pages[k + 1..] == rest;
        } else {
          assert rest[k - 1..] == pages[k..];
          assert rest[k..] == pages[k + 1..];
          assert LastTruthyAt(rest, k - 1);
        }
      }
      if r != next {
        var i :| 0 <= i < |rest| && Truthy(rest[i].pageNum) && r == rest[i].pageNum;
        assert rest[i] == pages[i + 1];
      }
    }
  }

  /** The paste anchor: the loop starts from -1. */
  function PasteAnchor(sel: seq<Page>): int {
    AnchorAfter(sel, -1)
  }

  /** With the paste actions enabled (exactly one page selected), the anchor
      is that page's number when it is truthy and -1 otherwise. */
  lemma AnchorOfSinglePage(sel: seq<Page>)
    requires |sel| == 1
    ensures PasteAnchor(sel) == if Truthy(sel[0].pageNum) then sel[0].pageNum else -1
  {
    if Truthy(sel[0].pageNum) {
      AnchorIsLastTruthy(sel, -1);
      assert NoneTruthy(sel[1..]);
      assert LastTruthyAt(sel, 0);
      assert AnchorAfter(sel, -1) == sel[0].pageNum;
    } else {
      AnchorIsLastTruthy(sel, -1);
      assert NoneTruthy(sel);
    }
  }

  /** The apply-reorder body moves some page exactly when the thumbnails
      have pending reorder changes. */
  lemma EntriesMoveIffPending(thumbs: seq<Page>)
    ensures Pending(thumbs)
            <==> exists e :: e in ReorderEntries(thumbs) && e.pageNum != e.pageOrder
  {
    var entries := ReorderEntries(thumbs);
    if Pending(thumbs) {
      var i :| 0 <= i < |thumbs| && Reordered(thumbs[i]);
      assert entries[i] in entries;
    }
  }
}
