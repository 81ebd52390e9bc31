/** The event handlers of the document change-form session, as ordered
    traces of effects on the thumbnail list, the page list and the actions
    menu. */
module Session {
  import opened Effects

  /** Moves the highlight to `pageNum` and scrolls the page list there. */
  function ScrollTo(pageNum: int): (t: seq<Effect>)
    ensures |t| == 3 && t[2] == ScrollPageList(pageNum)
    ensures forall h :: HighlightsAfter(h, t) == {pageNum}
    ensures Precedes(t, RemoveHighlights, MarkHighlight(pageNum))
    ensures Precedes(t, MarkHighlight(pageNum), ScrollPageList(pageNum))
    ensures RequestsOf(t) == []
  {
    var t := [RemoveHighlights, MarkHighlight(pageNum), ScrollPageList(pageNum)];
    assert t[0] == RemoveHighlights && t[1] == MarkHighlight(pageNum) && t[2] == ScrollPageList(pageNum);
    assert forall h :: HighlightsAfter(h, t) == {pageNum} by {
      forall h ensures HighlightsAfter(h, t) == {pageNum} {
        assert t[1..] == [MarkHighlight(pageNum), ScrollPageList(pageNum)];
        assert t[1..][1..] == [ScrollPageList(pageNum)];
        assert HighlightsAfter(h, t) == HighlightsAfter({}, t[1..]);
        assert Highlight({}, MarkHighlight(pageNum)) == {pageNum};
        assert HighlightsAfter({}, t[1..]) == HighlightsAfter({pageNum}, t[1..][1..]);
        assert HighlightsAfter({pageNum}, t[1..][1..]) == HighlightsAfter({pageNum}, t[1..][1..][1..]);
      }
    }
    t
  }

  /** A thumbnail's move-up button: both selections are cleared, then the
      move is delegated to the page list. */
  function OnPageMoveUp(pageNum: int, docId: int, pageId: int): (t: seq<Effect>)
    ensures |t| == 3
    ensures ClearedBeforeMoves(t)
    ensures Precedes(t, ClearActionSelection, ClearThumbnailSelections)
    ensures |t| > 0 && t[|t| - 1] == MovePageUp(pageNum, docId, pageId)
    ensures forall i :: 0 <= i < |t| - 1 ==> !IsPageMove(t[i])
    ensures RequestsOf(t) == []
  {
    var t := [ClearActionSelection, ClearThumbnailSelections, MovePageUp(pageNum, docId, pageId)];
    assert t[0] == ClearActionSelection && t[1] == ClearThumbnailSelections;
    t
  }

  /** A thumbnail's move-down button: as move-up, in the other direction. */
  function OnPageMoveDown(pageNum: int, docId: int, pageId: int): (t: seq<Effect>)
    ensures |t| == 3
    ensures ClearedBeforeMoves(t)
    ensures Precedes(t, ClearActionSelection, ClearThumbnailSelections)
    ensures |t| > 0 && t[|t| - 1] == MovePageDown(pageNum, docId, pageId)
    ensures forall i :: 0 <= i < |t| - 1 ==> !IsPageMove(t[i])
    ensures RequestsOf(t) == []
  {
    var t := [ClearActionSelection, ClearThumbnailSelections, MovePageDown(pageNum, docId, pageId)];
    assert t[0] == ClearActionSelection && t[1] == ClearThumbnailSelections;
    t
  }

  /** Delegating the move before clearing would let the page list move a
      page that is still selected: the order of the handlers matters. */
  lemma MoveBeforeClearIsRejected(pageNum: int, docId: int, pageId: int)
    ensures !ClearedBeforeMoves([MovePageUp(pageNum, docId, pageId), ClearActionSelection, ClearThumbnailSelections])
  {
    var t := [MovePageUp(pageNum, docId, pageId), ClearActionSelection, ClearThumbnailSelections];
    assert IsPageMove(t[0]);
  }

  /** Marking before removing would leave nothing highlighted. */
  lemma MarkBeforeRemoveLosesHighlight(pageNum: int)
    ensures HighlightsAfter({}, [MarkHighlight(pageNum), RemoveHighlights, ScrollPageList(pageNum)]) == {}
  {
    var t := [MarkHighlight(pageNum), RemoveHighlights, ScrollPageList(pageNum)];
    assert t[1..] == [RemoveHighlights, ScrollPageList(pageNum)];
    assert t[1..][1..] == [ScrollPageList(pageNum)];
    assert HighlightsAfter({}, t) == HighlightsAfter({pageNum}, t[1..]);
    assert HighlightsAfter({pageNum}, t[1..]) == HighlightsAfter({}, t[1..][1..]);
    assert HighlightsAfter({}, t[1..][1..]) == HighlightsAfter({}, t[1..][1..][1..]);
  }
}
