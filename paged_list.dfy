/** A page of items, with the cursor of the next page when there is one. */
module PagedLists {
  import opened Wrappers

  /** The cursor is the Z-index of the last item of this page; absent on the last page. */
  datatype PagedList<T> = PagedList(items: seq<T>, cursor: Option<int>)

  /** `PagedList.lastPage(items)`. */
  function LastPage<T>(items: seq<T>): (p: PagedList<T>)
    ensures p.items == items && p.cursor.None?
  {
    PagedList(items, None)
  }

  /** `PagedList.nonLastPage(items, cursor)`: a null cursor is rejected. */
  function NonLastPage<T>(items: seq<T>, cursor: Option<int>): (r: Result<PagedList<T>>)
    ensures cursor.None? <==> r.Failure?
    ensures r.Success? ==> r.value.items == items && r.value.cursor == cursor
  {
    if cursor.None? then Failure(NullPointer("cursor")) else Success(PagedList(items, cursor))
  }
}
