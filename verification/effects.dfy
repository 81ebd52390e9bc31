/** Abstract effects that the change-form handlers and actions perform on
    the view collaborators and the backend, in the order they perform them. */
module Effects {
  import opened Optional
  import opened Pages
  import opened Requests

  /** A JavaScript exception that ends a handler early. */
  datatype JsError = ReferenceError(name: string) | TypeError

  datatype Effect =
    | Send(request: Request)                                   // `$.ajax` / `$.post`
    | RemoveHighlights                                         // thumbnail list
    | MarkHighlight(pageNum: int)                              // thumbnail list
    | ScrollPageList(pageNum: int)                             // page list
    | ClearActionSelection                                     // actions menu
    | ClearThumbnailSelections                                 // thumbnail list
    | MovePageUp(pageNum: int, docId: int, pageId: int)        // page list
    | MovePageDown(pageNum: int, docId: int, pageId: int)      // page list
    | DropSelectedThumbnails(selection: seq<Page>)             // thumbnail list
    | DropSelectedPages(selection: seq<Page>)                  // page list
    | ShowRenameForm(node: Node)                               // dialog
    | ShowMetadataForm(page: Option<Page>)                     // dialog
    | Raise(error: JsError)

  predicate IsPageMove(e: Effect) {
    e.MovePageUp? || e.MovePageDown?
  }

  /** `a` occurs in `t` strictly before some occurrence of `b`. */
  predicate Precedes(t: seq<Effect>, a: Effect, b: Effect) {
    exists i, j :: 0 <= i < j < |t| && t[i] == a && t[j] == b
  }

  /** Every page move in `t` is dispatched after both the action selection
      and the thumbnail selections have been cleared. */
  predicate ClearedBeforeMoves(t: seq<Effect>) {
    forall j :: 0 <= j < |t| && IsPageMove(t[j]) ==>
      (exists i :: 0 <= i < j && t[i] == ClearActionSelection)
      && (exists i :: 0 <= i < j && t[i] == ClearThumbnailSelections)
  }

  /** The requests a trace issues, in order. */
  function RequestsOf(t: seq<Effect>): (rs: seq<Request>)
    ensures |rs| <= |t|
    ensures (forall i :: 0 <= i < |t| ==> !t[i].Send?) ==> rs == []
  {
    if |t| == 0 then []
    else (if t[0].Send? then [t[0].request] else []) + RequestsOf(t[1..])
  }

  /** The requests of a concatenated trace are those of its parts, in order. */
  lemma {:induction false} RequestsOfAppend(a: seq<Effect>, b: seq<Effect>)
    ensures RequestsOf(a + b) == RequestsOf(a) + RequestsOf(b)
  {
    if |a| > 0 {
      var head := if a[0].Send? then [a[0].request] else [];
      assert (a + b)[0] == a[0];
      assert (a + b)[1..] == a[1..] + b;
      assert RequestsOf(a + b) == head + RequestsOf(a[1..] + b);
      RequestsOfAppend(a[1..], b);
      assert RequestsOf(a) == head + RequestsOf(a[1..]);
    } else {
      assert a + b == b;
    }
  }

  /** The highlighted page numbers of the thumbnail list after `t`, starting
      from `h`: removing highlights clears them, marking adds one. */
  function HighlightsAfter(h: set<int>, t: seq<Effect>): set<int>
    decreases |t|
  {
    if |t| == 0 then h
    else
      HighlightsAfter(Highlight(h, t[0]), t[1..])
  }

  /** The highlighted page numbers after one effect. */
  function Highlight(h: set<int>, e: Effect): set<int> {
    match e
    case RemoveHighlights => {}
    case MarkHighlight(n) => h + {n}
    case _ => h
  }
}
