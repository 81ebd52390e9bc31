/** The actions menu of the document change-form: eight actions, each an
    `enabled` predicate over the selection and the thumbnail list and an
    `action` that issues a request or opens a dialog. */
module Actions {
  import opened Optional
  import opened Pages
  import opened Requests
  import opened Payloads
  import opened Enablement
  import opened Effects

  datatype ActionId =
    | Rename
    | DeletePage
    | CutPage
    | PastePage
    | PastePageBefore
    | PastePageAfter
    | Metadata
    | ApplyReorderChanges

  /** The DOM id of each menu entry. */
  function Selector(id: ActionId): string {
    match id
    case Rename => "#rename"
    case DeletePage => "#delete-page"
    case CutPage => "#cut-page"
    case PastePage => "#paste-page"
    case PastePageBefore => "#paste-page-before"
    case PastePageAfter => "#paste-page-after"
    case Metadata => "#metadata"
    case ApplyReorderChanges => "#apply-reorder-changes"
  }

  /** The actions in the order they are added to the menu. */
  function Menu(): (m: seq<ActionId>)
    ensures |m| == 8
    ensures forall i, j :: 0 <= i < j < |m| ==> m[i] != m[j]
  {
    [Rename, DeletePage, CutPage, PastePage, PastePageBefore, PastePageAfter, Metadata, ApplyReorderChanges]
  }

  /** Every action has an entry in the menu. */
  lemma MenuListsEveryAction(id: ActionId)
    ensures id in Menu()
  {
    var m := Menu();
    match id
    case Rename => assert m[0] == id;
    case DeletePage => assert m[1] == id;
    case CutPage => assert m[2] == id;
    case PastePage => assert m[3] == id;
    case PastePageBefore => assert m[4] == id;
    case PastePageAfter => assert m[5] == id;
    case Metadata => assert m[6] == id;
    case ApplyReorderChanges => assert m[7] == id;
  }

  /** Distinct actions have distinct menu entries. */
  lemma SelectorsAreDistinct(a: ActionId, b: ActionId)
    requires a != b
    ensures Selector(a) != Selector(b)
  {
  }

  /** What the menu hands to `enabled` and `action`: the selected pages in
      selection order, the thumbnail list's page records when the view
      collaborators are passed (`None` when they are not), and the current
      document node. */
  datatype Context = Context(selection: seq<Page>, thumbnails: Option<seq<Page>>, currentNode: Node)

  /** `nums` lists the page numbers of `pages`, one per page, in order. */
  predicate ListsPageNums(nums: seq<int>, pages: seq<Page>) {
    |nums| == |pages| && forall i :: 0 <= i < |pages| ==> nums[i] == pages[i].pageNum
  }

  /** `doc` is the document id of the last of `pages`, `undefined` if none. */
  predicate IsLastDoc(doc: DocRef, pages: seq<Page>) {
    if |pages| == 0 then doc == Undefined else doc == Doc(pages[|pages| - 1].docId)
  }

  /** `entries` has one `{page_num, page_order}` per thumbnail, copied in order. */
  predicate MirrorsThumbnails(entries: seq<ReorderEntry>, thumbs: seq<Page>) {
    |entries| == |thumbs|
    && forall i :: 0 <= i < |thumbs| ==>
         entries[i].pageNum == thumbs[i].pageNum && entries[i].pageOrder == thumbs[i].pageOrder
  }

  function Enabled(id: ActionId, ctx: Context): (r: bool)
    ensures id == Rename || id == PastePage ==> r
    ensures id == CutPage ==> (r <==> |ctx.selection| > 0)
    ensures id == PastePageBefore || id == PastePageAfter || id == Metadata ==> (r <==> |ctx.selection| == 1)
    ensures id == DeletePage ==>
              (r <==> |ctx.selection| > 0 && forall i :: 0 <= i < |ctx.selection| ==>
                                                ctx.selection[i].pageNum == ctx.selection[i].pageOrder)
    ensures id == ApplyReorderChanges ==>
              (r <==> ctx.thumbnails.Some?
                      && exists i :: 0 <= i < |ctx.thumbnails.value| && Reordered(ctx.thumbnails.value[i]))
  {
    match id
    case Rename => true
    case DeletePage => DeletePageEnabled(ctx.selection)
    case CutPage => |ctx.selection| > 0
    case PastePage => true
    case PastePageBefore => |ctx.selection| == 1
    case PastePageAfter => |ctx.selection| == 1
    case Metadata => |ctx.selection| == 1
    case ApplyReorderChanges => ApplyReorderEnabled(ctx.thumbnails)
  }

  /** Rename opens the rename dialog for the current node. */
  function RunRename(ctx: Context): (t: seq<Effect>)
    ensures RequestsOf(t) == []
    ensures |t| == 1 && t[0] == ShowRenameForm(ctx.currentNode)
  {
    [ShowRenameForm(ctx.currentNode)]
  }

  /** Delete asks for confirmation; once confirmed it sends one DELETE with
      the selected page numbers as the `pages` query, then drops the
      selection from both views without waiting for the answer. */
  function RunDeletePage(ctx: Context, confirmed: bool): (t: seq<Effect>)
    ensures !confirmed ==> t == []
    ensures confirmed ==>
              && |t| > 0 && t[0].Send? && RequestsOf(t) == [t[0].request]
              && t[0].request.verb == Delete && t[0].request.body == NoBody
              && t[0].request.url.route == PagesRoute
              && IsLastDoc(t[0].request.url.doc, ctx.selection)
              && t[0].request.url.query.PagesQuery?
              && ListsPageNums(t[0].request.url.query.nums, ctx.selection)
    ensures confirmed && ctx.thumbnails.Some? ==>
              t[1..] == [DropSelectedThumbnails(ctx.selection), DropSelectedPages(ctx.selection)]
    ensures confirmed && ctx.thumbnails.None? ==> t[1..] == [Raise(TypeError)]
  {
    if !confirmed then []
    else
      var sel := ctx.selection;
      var send := Send(Request(Delete, Url(LastDocId(sel), PagesRoute, PagesQuery(PageNums(sel))), NoBody));
      var rest := if ctx.thumbnails.Some? then [DropSelectedThumbnails(sel), DropSelectedPages(sel)]
                  else [Raise(TypeError)];
      assert RequestsOf([send] + rest) == [send.request] by {
        RequestsOfAppend([send], rest);
        assert RequestsOf(rest) == [];
      }
      [send] + rest
  }

  /** Cut posts the selected page numbers, as a JSON array, to the cut
      endpoint of the last selected page's document. */
  function RunCutPage(ctx: Context): (t: seq<Effect>)
    ensures |t| == 1 && t[0].Send? && RequestsOf(t) == [t[0].request]
    ensures t[0].request.verb == Post && t[0].request.url == Url(t[0].request.url.doc, CutRoute, NoQuery)
    ensures IsLastDoc(t[0].request.url.doc, ctx.selection)
    ensures t[0].request.body.NumList? && ListsPageNums(t[0].request.body.nums, ctx.selection)
  {
    var sel := ctx.selection;
    [Send(Request(Post, Url(LastDocId(sel), CutRoute, NoQuery), NumList(PageNums(sel))))]
  }

  /** Plain paste posts no body to the current node's paste endpoint; the
      server decides where the pages go. */
  function RunPastePage(ctx: Context): (t: seq<Effect>)
    ensures |t| == 1 && t[0].Send? && RequestsOf(t) == [t[0].request]
    ensures t[0].request.verb == Post && t[0].request.body == NoBody
    ensures t[0].request.url == Url(Doc(ctx.currentNode.id), PasteRoute, NoQuery)
  {
    [Send(Request(Post, Url(Doc(ctx.currentNode.id), PasteRoute, NoQuery), NoBody))]
  }

  /** Plain paste carries no positional hint: two contexts with the same
      current node send the same request, whatever is selected. */
  lemma PasteDependsOnlyOnNode(a: Context, b: Context)
    requires a.currentNode == b.currentNode
    ensures RunPastePage(a) == RunPastePage(b)
  {
  }

  /** Paste-before/after posts `{side: anchor}` to the current node's paste
      endpoint, the anchor being the last truthy selected page number, or
      -1 if there is none. */
  function RunPasteAt(side: Side, ctx: Context): (t: seq<Effect>)
    ensures |t| == 1 && t[0].Send? && RequestsOf(t) == [t[0].request]
    ensures t[0].request.verb == Post
    ensures t[0].request.url == Url(Doc(ctx.currentNode.id), PasteRoute, NoQuery)
    ensures t[0].request.body.AnchorBody? && t[0].request.body.side == side
    ensures NoneTruthy(ctx.selection) ==> t[0].request.body.anchor == -1
    ensures forall k :: LastTruthyAt(ctx.selection, k) ==> t[0].request.body.anchor == ctx.selection[k].pageNum
    ensures |ctx.selection| == 1 ==>
              t[0].request.body.anchor == if Truthy(ctx.selection[0].pageNum) then ctx.selection[0].pageNum else -1
  {
    AnchorIsLastTruthy(ctx.selection, -1);
    assert |ctx.selection| == 1 ==>
             PasteAnchor(ctx.selection) == if Truthy(ctx.selection[0].pageNum) then ctx.selection[0].pageNum else -1
    by {
      if |ctx.selection| == 1 {
        AnchorOfSinglePage(ctx.selection);
      }
    }
    [Send(Request(Post, Url(Doc(ctx.currentNode.id), PasteRoute, NoQuery), AnchorBody(side, PasteAnchor(ctx.selection))))]
  }

  /** The metadata action as written: it assigns the first selected page to
      `page`, a name that is never declared, which a module (strict code)
      rejects with a ReferenceError before the dialog is built. */
  function RunMetadataAsWritten(ctx: Context): (t: seq<Effect>)
    ensures RequestsOf(t) == []
    ensures |t| > 0 && t[|t| - 1].Raise?
    ensures t == [Raise(ReferenceError("page"))]
  {
    [Raise(ReferenceError("page"))]
  }

  /** Even when the action is enabled, the as-written metadata action never
      opens the metadata dialog. */
  lemma MetadataAsWrittenNeverShowsForm(ctx: Context)
    requires Enabled(Metadata, ctx)
    ensures forall i :: 0 <= i < |RunMetadataAsWritten(ctx)| ==> !RunMetadataAsWritten(ctx)[i].ShowMetadataForm?
  {
  }

  /** The metadata action as intended: it opens the metadata dialog for the
      first selected page. */
  function RunMetadata(ctx: Context): (t: seq<Effect>)
    ensures RequestsOf(t) == []
    ensures |ctx.selection| == 1 ==> t == [ShowMetadataForm(Some(ctx.selection[0]))]
    ensures |ctx.selection| > 0 ==> ShowMetadataForm(Some(ctx.selection[0])) in t
  {
    [ShowMetadataForm(if |ctx.selection| == 0 then None else Some(ctx.selection[0]))]
  }

  /** Apply-reorder asks for confirmation; once confirmed it posts one
      `{page_num, page_order}` per thumbnail to the pages endpoint of the
      last thumbnail's document. Without the thumbnail list it throws. */
  function RunApplyReorder(ctx: Context, confirmed: bool): (t: seq<Effect>)
    ensures !confirmed ==> t == []
    ensures confirmed && ctx.thumbnails.None? ==> t == [Raise(TypeError)]
    ensures confirmed && ctx.thumbnails.Some? ==>
              && |t| == 1 && t[0].Send? && RequestsOf(t) == [t[0].request]
              && t[0].request.verb == Post
              && t[0].request.url == Url(t[0].request.url.doc, PagesRoute, NoQuery)
              && IsLastDoc(t[0].request.url.doc, ctx.thumbnails.value)
              && t[0].request.body.ReorderList?
              && MirrorsThumbnails(t[0].request.body.entries, ctx.thumbnails.value)
  {
    if !confirmed then []
    else match ctx.thumbnails
      case None => [Raise(TypeError)]
      case Some(thumbs) =>
        [Send(Request(Post, Url(LastDocId(thumbs), PagesRoute, NoQuery), ReorderList(ReorderEntries(thumbs))))]
  }

  /** Runs one action; `confirmed` is the answer to the confirmation dialog,
      which only delete and apply-reorder ask. Metadata runs the corrected
      action; `RunMetadataAsWritten` keeps the code as written. */
  function Run(id: ActionId, ctx: Context, confirmed: bool): (t: seq<Effect>)
    ensures |RequestsOf(t)| <= 1
    ensures !confirmed && (id == DeletePage || id == ApplyReorderChanges) ==> t == []
    ensures id == Rename || id == Metadata ==> RequestsOf(t) == []
  {
    match id
    case Rename => RunRename(ctx)
    case DeletePage => RunDeletePage(ctx, confirmed)
    case CutPage => RunCutPage(ctx)
    case PastePage => RunPastePage(ctx)
    case PastePageBefore => RunPasteAt(Before, ctx)
    case PastePageAfter => RunPasteAt(After, ctx)
    case Metadata => RunMetadata(ctx)
    case ApplyReorderChanges => RunApplyReorder(ctx, confirmed)
  }

  /** Only delete and apply-reorder depend on the confirmation answer. */
  lemma ConfirmationOnlyGuardsDeleteAndApply(id: ActionId, ctx: Context)
    requires id != DeletePage && id != ApplyReorderChanges
    ensures Run(id, ctx, true) == Run(id, ctx, false)
  {
  }

  /** The cut body and the delete query carry the same page numbers and go
      to the same document. */
  lemma CutAndDeleteAgree(ctx: Context)
    ensures RunCutPage(ctx)[0].request.body.nums == RunDeletePage(ctx, true)[0].request.url.query.nums
    ensures RunCutPage(ctx)[0].request.url.doc == RunDeletePage(ctx, true)[0].request.url.doc
  {
  }

  /** With delete enabled, every page number it sends is also the page's
      displayed position, so the server deletes the pages the user sees. */
  lemma DeleteGuardSendsDisplayedPositions(ctx: Context)
    requires Enabled(DeletePage, ctx)
    ensures forall i :: 0 <= i < |ctx.selection| ==>
              RunDeletePage(ctx, true)[0].request.url.query.nums[i] == ctx.selection[i].pageOrder
  {
  }

  /** Apply-reorder is enabled exactly when the body it would send moves
      some page. */
  lemma ApplyEnabledIffBodyMovesAPage(ctx: Context)
    requires ctx.thumbnails.Some?
    ensures Enabled(ApplyReorderChanges, ctx)
            <==> exists e :: e in RunApplyReorder(ctx, true)[0].request.body.entries && e.pageNum != e.pageOrder
  {
    EntriesMoveIffPending(ctx.thumbnails.value);
  }

  /** A three-page document where page 2 was moved down: delete of page 2
      is refused, apply-reorder is offered and sends every page. */
  lemma ReorderedDocumentScenario()
    ensures var pages := [Page(7, 1, 1), Page(7, 2, 3), Page(7, 3, 2)];
            var ctx := Context([pages[1]], Some(pages), Node(7));
            && !Enabled(DeletePage, ctx)
            && Enabled(ApplyReorderChanges, ctx)
            && Run(ApplyReorderChanges, ctx, true)
               == [Send(Request(Post, Url(Doc(7), PagesRoute, NoQuery),
                                ReorderList([ReorderEntry(1, 1), ReorderEntry(2, 3), ReorderEntry(3, 2)])))]
  {
    var pages := [Page(7, 1, 1), Page(7, 2, 3), Page(7, 3, 2)];
    assert Reordered(pages[1]);
    assert LastDocId(pages) == Doc(7);
    var entries := ReorderEntries(pages);
    assert entries[0] == ReorderEntry(1, 1) && entries[1] == ReorderEntry(2, 3) && entries[2] == ReorderEntry(3, 2);
    assert entries == [ReorderEntry(1, 1), ReorderEntry(2, 3), ReorderEntry(3, 2)];
  }

  /** One page numbered 5 selected, paste-after on document node 9 posts
      `{"after": 5}` to `/api/document/9/pages/paste`. */
  lemma PasteAfterScenario()
    ensures Run(PastePageAfter, Context([Page(3, 5, 5)], None, Node(9)), true)
            == [Send(Request(Post, Url(Doc(9), PasteRoute, NoQuery), AnchorBody(After, 5)))]
  {
  }
}
