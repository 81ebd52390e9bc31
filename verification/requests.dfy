/** The backend requests the change-form actions issue, as abstract records
    of method, URL and JSON body. */
module Requests {

  /** The document id interpolated into a URL template: the id of some page
      record, or `undefined` when the loop meant to assign it never ran. */
  datatype DocRef = Undefined | Doc(id: int)

  datatype HttpMethod = Post | Delete

  /** The endpoints under `/api/document/{doc}/`. */
  datatype Route =
    | PagesRoute   // `/api/document/{doc}/pages`
    | CutRoute     // `/api/document/{doc}/pages/cut`
    | PasteRoute   // `/api/document/{doc}/pages/paste`

  /** The query string: delete appends the `pages` list, the others none. */
  datatype Query = NoQuery | PagesQuery(nums: seq<int>)

  datatype Url = Url(doc: DocRef, route: Route, query: Query)

  datatype Side = Before | After

  /** One element of the apply-reorder body, `{page_num, page_order}`. */
  datatype ReorderEntry = ReorderEntry(pageNum: int, pageOrder: int)

  /** The JSON body of a request. */
  datatype Body =
    | NoBody
    | NumList(nums: seq<int>)                // `[n1, n2, ...]`
    | AnchorBody(side: Side, anchor: int)    // `{"before": n}` or `{"after": n}`
    | ReorderList(entries: seq<ReorderEntry>)

  datatype Request = Request(verb: HttpMethod, url: Url, body: Body)
}
