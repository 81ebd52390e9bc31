# Document change-form: page actions and session handlers

This project models the page-action logic of papermerge's document
change-form (`MgDocument` in `src/js/document_form.js`). It is written in
Dafny, with immutable data and total functions, and proves properties of
the model.

The form shows a thumbnail list and a page list of one document. Each page
record carries its document id, its server-assigned number (`page_num`) and
the position the user has staged by moving thumbnails (`page_order`). The
actions menu holds eight actions: rename, delete, cut, paste, paste-before,
paste-after, metadata and apply-reorder. Each action is an `enabled`
predicate over the selection and, for apply-reorder, the thumbnail list.
Each also has an `action` that builds a backend request or opens a dialog.

The model has these parts:

- `Pages`: the page record, and the reordered and pending predicates.
- `Requests`: a request as an abstract record of method, URL and JSON body.
  The URL is the template's document id, the route and the delete query.
- `Payloads`: the loops that turn the selection or the thumbnail list into
  request parts. These are the page-number list, the last document id, the
  reorder entries and the paste anchor.
- `Enablement`: the scans behind delete's guard and apply-reorder's
  pending check.
- `Effects`: the ordered effects a handler has on the views, the dialogs
  and the backend.
- `Session`: `scroll_to` and the move-up and move-down handlers, as
  effect traces.
- `Actions`: the menu, the `enabled` dispatch, and each action's `run` as
  an effect trace.

The answer to the confirmation dialog is an input boolean. A request that
cannot know its document id, because its loop ran over an empty list, uses
the document id `Undefined`, which is what the URL template then prints. The
view collaborators may be absent when the menu is evaluated. This is the
`None` thumbnail list: apply-reorder's `enabled` answers false, and running
delete or apply-reorder raises a `TypeError` at the first use of the
missing view.

Some behaviour one might expect of such a form is not in this code. The
model follows the code:

- `build_actions` registers `enabled` and `action` separately, and nothing in this file re-checks `enabled` before an action runs.
- Cut does not store the cut pages in the clipboard. No action reads the
  clipboard argument.
- A successful apply-reorder does not collapse `page_num := page_order`.
- The paste anchor is the last selected page with a truthy number, or -1.
  It is not simply "the single selected page's number".
- The paste URL uses the current node's id, not the selected pages' document.
- The apply-reorder body is built from the thumbnail list. Its document id
  comes from the last thumbnail.

## Model

| member | source | states |
|---|---|---|
| Enablement.NoneReordered | src/js/document_form.js:205-209 | The delete scan succeeds iff no selected page has `page_num != page_order`. |
| Enablement.DeletePageEnabled | src/js/document_form.js:199-211 | Delete is enabled iff the selection is non-empty and none of its pages is reordered. |
| Enablement.OneReorderedPageBlocksDelete | src/js/document_form.js:205-208 | One reordered selected page disables delete, whatever the other pages are. |
| Enablement.AnyReordered | src/js/document_form.js:372-380 | The apply-reorder scan answers true iff some thumbnail has `page_num != page_order`. |
| Enablement.ApplyReorderEnabled | src/js/document_form.js:369-380 | Apply-reorder is disabled without a thumbnail list. Otherwise it is enabled iff the list has pending reorder changes. |
| Enablement.ConsistentListHasNothingToApply | src/js/document_form.js:372-380 | On an empty or fully consistent thumbnail list, apply-reorder is disabled. |
| Payloads.PageNums | src/js/document_form.js:228-231 | The pushed list has one entry per selected page: that page's number, in selection order. |
| Payloads.DocIdAfter | src/js/document_form.js:255-260 | The loop's `doc_id` is the last page's document id. It keeps its initial value when the list is empty. |
| Payloads.ReorderEntries | src/js/document_form.js:396-403 | The reorder body has one entry per thumbnail, in list order, with `page_num` and `page_order` copied unchanged. |
| Payloads.EntriesMoveIffPending | src/js/document_form.js:396-403 | The reorder body has an entry whose number differs from its order iff the thumbnails are pending. |
| Payloads.AnchorIsLastTruthy | src/js/document_form.js:297-303 | The anchor is the number of the last page with a truthy number. It stays at its start value when there is none, so it is always a truthy selected number or the start value. |
| Payloads.AnchorOfSinglePage | src/js/document_form.js:293-303 | When exactly one page is selected, the anchor is its number if that is non-zero, and -1 otherwise. |
| Session.ScrollTo | src/js/document_form.js:102-106 | The trace is exactly three effects and ends scrolled to the page. Highlights are removed before the page is marked, and the page list scrolls after that. Afterwards exactly that page is highlighted, whatever was highlighted before. No request is sent. |
| Session.MarkBeforeRemoveLosesHighlight | src/js/document_form.js:103-104 | With mark and remove swapped, no page would be highlighted: the order in `scroll_to` matters. |
| Session.OnPageMoveUp | src/js/document_form.js:120-124 | The trace is exactly three effects. The action selection is cleared, then the thumbnail selections. The move-up is delegated last, after both clears, and it is the only move. No request is sent. |
| Session.OnPageMoveDown | src/js/document_form.js:126-130 | The trace is exactly three effects, the same for move-down: both selections are cleared strictly before the single, final delegated move. |
| Session.MoveBeforeClearIsRejected | src/js/document_form.js:120-124 | A trace that delegates the move before clearing breaks the clear-before-move property. |
| Actions.Menu | src/js/document_form.js:417-424 | The menu holds eight actions, with no action added twice. |
| Actions.MenuListsEveryAction | src/js/document_form.js:417-424 | Every action appears in the menu. |
| Actions.SelectorsAreDistinct | src/js/document_form.js:184-358 | Distinct actions have distinct DOM ids. |
| Actions.Enabled | src/js/document_form.js:184-381 | Rename and paste are always enabled. Cut needs a non-empty selection. Paste-before, paste-after and metadata need exactly one page. Delete needs a non-empty selection with no reordered page. Apply-reorder needs a thumbnail list with a reordered page. |
| Actions.RunRename | src/js/document_form.js:191-194 | Rename's only effect is opening the rename dialog for the current node; it sends nothing. |
| Actions.RunDeletePage | src/js/document_form.js:213-244 | If confirmation is declined, nothing happens. Otherwise exactly one DELETE request goes to the last selected page's document, with the selected numbers in order as the `pages` query. Both views then drop the selection, or a `TypeError` is raised if the views are missing. |
| Actions.RunCutPage | src/js/document_form.js:252-269 | Cut sends exactly one POST to the cut route of the last selected page's document. Its body is the selected numbers, in selection order. |
| Actions.RunPastePage | src/js/document_form.js:277-288 | Paste sends exactly one POST, with no body, to the current node's paste route. |
| Actions.PasteDependsOnlyOnNode | src/js/document_form.js:277-287 | Plain paste sends the same request for any two contexts with the same current node, whatever is selected. |
| Actions.RunPasteAt | src/js/document_form.js:296-340 | Paste-before and paste-after send one POST to the current node's paste route. The body is `{side: anchor}`, where the anchor is the last truthy selected number, or -1. With one page selected, the anchor is that page's number when truthy. |
| Actions.RunMetadataAsWritten | src/js/document_form.js:348-354 | As written, the metadata action's only effect is the ReferenceError on `page`; it sends nothing and opens nothing. |
| Actions.MetadataAsWrittenNeverShowsForm | src/js/document_form.js:348-354 | Even when enabled, the as-written metadata action never opens the metadata dialog. |
| Actions.RunMetadata | src/js/document_form.js:348-354 | Corrected: with one page selected, the action opens exactly the metadata dialog for that page, and sends nothing. |
| Actions.RunApplyReorder | src/js/document_form.js:382-414 | If confirmation is declined, nothing happens. Otherwise exactly one POST goes to the pages route of the last thumbnail's document. It carries one `{page_num, page_order}` per thumbnail, in list order. Without a thumbnail list, a `TypeError` is raised. |
| Actions.Run | src/js/document_form.js:167-427 | Every action sends at most one request. Declined delete and apply-reorder do nothing. Rename and metadata send nothing. The metadata branch runs the corrected `RunMetadata` from the Findings table, not the code as written at line 351. |
| Actions.ConfirmationOnlyGuardsDeleteAndApply | src/js/document_form.js:221-226 | Actions other than delete and apply-reorder behave the same whatever the confirmation answer. |
| Actions.CutAndDeleteAgree | src/js/document_form.js:228-260 | The cut body and the delete query carry the same page numbers and name the same document. |
| Actions.DeleteGuardSendsDisplayedPositions | src/js/document_form.js:199-235 | When delete is enabled, each sent page number equals that page's displayed position. |
| Actions.ApplyEnabledIffBodyMovesAPage | src/js/document_form.js:369-403 | With a thumbnail list, apply-reorder is enabled iff the body it would send moves some page. |
| Actions.PasteAfterScenario | src/js/document_form.js:317-340 | With one page numbered 5 selected on node 9, paste-after posts `{"after": 5}` to node 9's paste route. |
| Actions.ReorderedDocumentScenario | src/js/document_form.js:357-414 | In a three-page document with page 2 moved down, deleting page 2 is refused and apply-reorder is offered. The sent body is `[{1,1},{2,3},{3,2}]` to document 7. |

## Left out

- `add_switch_logic`, `add_zoom_logic` and `add_zoom_2_document_form` are left out. They toggle DOM elements, and the zoom loop has an empty body.
- The `MgDocument` constructor, `configEvents` and the window-resize handler are left out. They wire events to collaborators whose code is not part of this model.
- `on_thumbnail_dblclick`, `on_thumbnail_click` and `on_zoom_change` are left out. They forward to `scroll_to`, to the console log and to the page list.
- `add_load_on_scroll` is left out. It covers CSRF header setup from cookies and parsing of the window-location parameters.
- The `$.ajax`/`$.post` transport, JSON serialisation, `$.param` query encoding and URL string formatting are left out. A request is the structured record `Request(verb, Url(doc, route, query), body)`, and its completion is not modelled.
- The dialogs (`confirm`, `RenameChangeForm`, `MetadataPageForm`) are left out. Confirmation is an input boolean, and opening a dialog is an effect.
- The internals of `MgChangeFormActions`, `MgThumbnail.get_data_from_dom`, `MgThumbnailList` and `MgPageList` are not part of this model. The effects on them are named, not interpreted. The one exception is the highlight set, which `remove_highlights` clears and `mark_highlight` extends.
- Actions.Run: the metadata branch dispatches to the corrected `RunMetadata`, which opens the dialog for the first selected page. It does not dispatch to `RunMetadataAsWritten`, which raises the ReferenceError of line 351. The bug is modelled and exhibited separately (see Findings).
- Page numbers and document ids are integers. JavaScript's loose `!=` between a number and a string, and other falsy values such as `NaN` or `undefined`, are not modelled.

## Findings

| source | as written | input that shows it | evidently intended | confidence | as-written member | corrected member |
|---|---|---|---|---|---|---|
| src/js/document_form.js:349-353 | The metadata action assigns `selection.first()` to `page`, a name declared nowhere (the function declares `node` instead). The file is an ES module and so runs in strict mode, where that assignment raises a ReferenceError before `MetadataPageForm` is built. | Any selection of exactly one page, for which the action is enabled, followed by running the metadata action. | Open the metadata dialog for the first selected page. | medium, not executed; relies on the file being evaluated as module code, as its `import` statements require | Actions.RunMetadataAsWritten | Actions.RunMetadata |
