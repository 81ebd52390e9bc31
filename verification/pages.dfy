/** Page records of the document change-form: the identity and staged
    position of one page, as the thumbnail and page panels expose them. */
module Pages {

  /** One page of the open document. `pageNum` is the number the server
      assigned; `pageOrder` is the position the user has staged locally by
      moving thumbnails. The two agree until the page is moved. */
  datatype Page = Page(docId: int, pageNum: int, pageOrder: int)

  /** The document node the change-form edits (`current_node`). */
  datatype Node = Node(id: int)

  /** A page whose staged position differs from its number. */
  predicate Reordered(p: Page) {
    p.pageNum != p.pageOrder
  }

  /** Some page of `pages` is reordered: there are unapplied reorder changes. */
  predicate Pending(pages: seq<Page>) {
    exists i :: 0 <= i < |pages| && Reordered(pages[i])
  }

  /** JavaScript truthiness of a page number: every number except 0. */
  predicate Truthy(n: int) {
    n != 0
  }
}
