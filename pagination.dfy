/** The two listing endpoints of server.js that sort and slice the whole
    message collection: GET /api/messages-with-pagination (by page number,
    behind the gate) and GET /api/messages-with-pagination-scroll (by
    offset, open to anyone). */
module Pagination {
  import opened Js
  import opened Records
  import opened Ordering
  import opened Auth

  const AllowedSortColumns: seq<string> := ["name", "gender", "creationDate", "country"]
  const AllowedSortOrders: seq<string> := ["asc", "desc"]

  const DefaultPage: int := 1
  const DefaultPerPage: int := 10
  const DefaultSortBy: string := "creationDate"
  const DefaultSortOrder: string := "asc"

  function ColumnName(field: SortField): string {
    match field
    case Name => "name"
    case Gender => "gender"
    case CreationDate => "creationDate"
    case Country => "country"
  }

  function OrderName(order: SortOrder): string {
    match order
    case Asc => "asc"
    case Desc => "desc"
  }

  /** The column a `sortBy` value names, if it is on the whitelist. */
  function ParseSortBy(sortBy: string): (r: Option<SortField>)
    ensures r.Some? <==> sortBy in AllowedSortColumns
    ensures r.Some? ==> ColumnName(r.value) == sortBy
  {
    if sortBy == "name" then Some(Name)
    else if sortBy == "gender" then Some(Gender)
    else if sortBy == "creationDate" then Some(CreationDate)
    else if sortBy == "country" then Some(Country)
    else None
  }

  /** The direction a `sortOrder` value names, if it is on the whitelist. */
  function ParseSortOrder(sortOrder: string): (r: Option<SortOrder>)
    ensures r.Some? <==> sortOrder in AllowedSortOrders
    ensures r.Some? ==> OrderName(r.value) == sortOrder
  {
    if sortOrder == "asc" then Some(Asc)
    else if sortOrder == "desc" then Some(Desc)
    else None
  }

  /** Every column and direction is named by exactly the string it parses from. */
  lemma ParseNameRoundTrip(field: SortField, order: SortOrder)
    ensures ParseSortBy(ColumnName(field)) == Some(field)
    ensures ParseSortOrder(OrderName(order)) == Some(order)
  {
  }

  datatype SortSpec = SortSpec(field: SortField, order: SortOrder)

  /** The sort parameters of the query, defaults applied to absent ones,
      checked column first and direction second. */
  function ValidateSort(sortBy: Option<string>, sortOrder: Option<string>): (r: Result<SortSpec>)
    ensures sortBy.GetOr(DefaultSortBy) !in AllowedSortColumns ==> r == Err(BadRequest, "Invalid sort column")
    ensures sortBy.GetOr(DefaultSortBy) in AllowedSortColumns && sortOrder.GetOr(DefaultSortOrder) !in AllowedSortOrders ==>
      r == Err(BadRequest, "Invalid sort order")
    ensures r.Ok? <==> sortBy.GetOr(DefaultSortBy) in AllowedSortColumns && sortOrder.GetOr(DefaultSortOrder) in AllowedSortOrders
    ensures r.Ok? ==> ColumnName(r.value.field) == sortBy.GetOr(DefaultSortBy) && OrderName(r.value.order) == sortOrder.GetOr(DefaultSortOrder)
  {
    match ParseSortBy(sortBy.GetOr(DefaultSortBy))
    case None => Err(BadRequest, "Invalid sort column")
    case Some(field) =>
      match ParseSortOrder(sortOrder.GetOr(DefaultSortOrder))
      case None => Err(BadRequest, "Invalid sort order")
      case Some(order) => Ok(SortSpec(field, order))
  }

  function Min(a: int, b: int): int {
    if a < b then a else b
  }

  /** `startIndex = (page - 1) * perPage`. */
  function PageStart(page: int, perPage: int): (s: int)
    ensures page == 1 ==> s == 0
    ensures page >= 1 && perPage >= 0 ==> s >= 0
  {
    (page - 1) * perPage
  }

  /** Page `page + 1` starts where page `page` ends. */
  lemma PageStartNext(page: int, perPage: int)
    ensures PageStart(page + 1, perPage) == PageStart(page, perPage) + perPage
  {
  }

  /** `messages.slice(startIndex, endIndex)` with `endIndex = startIndex + perPage`. */
  function PageWindow(sorted: seq<Message>, page: int, perPage: int): (r: seq<Message>)
    ensures perPage >= 0 ==> |r| <= perPage
    ensures forall i :: 0 <= i < |r| ==> r[i] in sorted
  {
    var startIndex := PageStart(page, perPage);
    Slice(sorted, startIndex, startIndex + perPage)
  }

  /** A slice between two non-negative bounds, the start not after the end. */
  lemma SliceBetween(s: seq<Message>, start: int, end: int)
    requires 0 <= start <= end
    ensures |Slice(s, start, end)| <= end - start
    ensures Slice(s, start, end) == if start >= |s| then [] else s[start..Min(end, |s|)]
  {
    if start < |s| {
      assert Slice(s, start, end) == s[start..Min(end, |s|)];
    }
  }

  /** For a page and page size of at least 1, a page holds the sorted list's
      elements from `(page - 1) * perPage` on, at most `perPage` of them, and
      nothing once the start lies past the end. */
  lemma PageWindowContents(sorted: seq<Message>, page: int, perPage: int)
    requires page >= 1 && perPage >= 1
    ensures PageStart(page, perPage) >= 0
    ensures |PageWindow(sorted, page, perPage)| <= perPage
    ensures var startIndex := PageStart(page, perPage);
      PageWindow(sorted, page, perPage) ==
        if startIndex >= |sorted| then [] else sorted[startIndex..Min(startIndex + perPage, |sorted|)]
  {
    var startIndex := PageStart(page, perPage);
    SliceBetween(sorted, startIndex, startIndex + perPage);
  }

  /** The scroll endpoint's window: from `parseInt(lastMessageIndex) || 0`
      (absent or not a number gives 0), empty once the start is not before
      the end of the list. */
  function ScrollWindow(sorted: seq<Message>, lastMessageIndex: Option<int>, perPage: int): (r: seq<Message>)
    ensures lastMessageIndex.GetOr(0) >= |sorted| ==> r == []
    ensures perPage >= 0 ==> |r| <= perPage
    ensures forall i :: 0 <= i < |r| ==> r[i] in sorted
  {
    var startIndex := lastMessageIndex.GetOr(0);
    if startIndex >= |sorted| then [] else Slice(sorted, startIndex, startIndex + perPage)
  }

  /** From a non-negative offset, the scroll window is the sorted list's
      elements from that offset, at most `perPage` of them. */
  lemma ScrollWindowContents(sorted: seq<Message>, startIndex: nat, perPage: int)
    requires perPage >= 1
    ensures ScrollWindow(sorted, Some(startIndex), perPage) ==
      if startIndex >= |sorted| then [] else sorted[startIndex..Min(startIndex + perPage, |sorted|)]
    ensures ScrollWindow(sorted, None, perPage) == ScrollWindow(sorted, Some(0), perPage)
  {
    SliceBetween(sorted, startIndex, startIndex + perPage);
  }

  /** What a client collects by scrolling from `cursor`: each request resumes
      at the previous offset plus the number of messages returned, until a
      request returns nothing. */
  function Drain(sorted: seq<Message>, cursor: nat, perPage: int): seq<Message>
    requires cursor <= |sorted|
    decreases |sorted| - cursor
  {
    var w := ScrollWindow(sorted, Some(cursor), perPage);
    if w == [] then [] else w + Drain(sorted, cursor + |w|, perPage)
  }

  /** One request of the scroll: the window at `cursor`, then the rest from
      where it ends. */
  lemma DrainStep(sorted: seq<Message>, cursor: nat, perPage: int)
    requires cursor < |sorted| && perPage >= 1
    ensures var next := Min(cursor + perPage, |sorted|);
      cursor < next <= |sorted| &&
      Drain(sorted, cursor, perPage) == sorted[cursor..next] + Drain(sorted, next, perPage)
  {
    var next := Min(cursor + perPage, |sorted|);
    var w := ScrollWindow(sorted, Some(cursor), perPage);
    ScrollWindowContents(sorted, cursor, perPage);
    assert w == sorted[cursor..next];
    assert |w| == next - cursor;
    assert Drain(sorted, cursor, perPage) == w + Drain(sorted, cursor + |w|, perPage);
  }

  lemma DrainAtEnd(sorted: seq<Message>, perPage: int)
    ensures Drain(sorted, |sorted|, perPage) == []
  {
  }

  /** A run from `cursor` to `next` followed by everything from `next` is
      everything from `cursor`. */
  lemma Resume<T>(s: seq<T>, cursor: nat, next: nat, whole: seq<T>, rest: seq<T>)
    requires cursor <= next <= |s|
    requires whole == s[cursor..next] + rest && rest == s[next..]
    ensures whole == s[cursor..]
  {
  }

  /** Scrolling to the end returns every remaining element exactly once, in
      the sorted order. */
  lemma {:induction false} DrainCollectsAll(sorted: seq<Message>, cursor: nat, perPage: int)
    requires cursor <= |sorted| && perPage >= 1
    ensures Drain(sorted, cursor, perPage) == sorted[cursor..]
    decreases |sorted| - cursor
  {
    if cursor < |sorted| {
      var next := Min(cursor + perPage, |sorted|);
      DrainStep(sorted, cursor, perPage);
      DrainCollectsAll(sorted, next, perPage);
      Resume(sorted, cursor, next, Drain(sorted, cursor, perPage), Drain(sorted, next, perPage));
    } else {
      DrainAtEnd(sorted, perPage);
    }
  }

  /** Scrolling from the start through the sorted messages yields each
      message once: a permutation of the collection, in comparator order. */
  lemma ScrollVisitsEachMessageOnce(messages: seq<Message>, spec: SortSpec, perPage: int)
    requires perPage >= 1
    ensures var all := Drain(SortMessages(messages, spec.field, spec.order), 0, perPage);
      multiset(all) == multiset(messages) && Sorted(all, spec.field, spec.order)
  {
    var sorted := SortMessages(messages, spec.field, spec.order);
    DrainCollectsAll(sorted, 0, perPage);
    assert sorted[0..] == sorted;
    SortMessagesSorted(messages, spec.field, spec.order);
  }

  /** GET /api/messages-with-pagination, as a function of the stored
      collections: the gate for admins and readers, the sort parameters,
      then one page of the sorted messages. */
  function PaginatedMessages(
    token: Option<string>, verify: Verifier, blacklist: seq<string>, users: seq<User>, messages: seq<Message>,
    page: Option<int>, perPage: Option<int>, sortBy: Option<string>, sortOrder: Option<string>): (r: Result<seq<Message>>)
    ensures var gate := Authorize(token, verify, blacklist, users, ReadersAndAdmins);
      gate.Err? ==> r == Err(gate.status, gate.error)
    ensures var gate := Authorize(token, verify, blacklist, users, ReadersAndAdmins);
      var sort := ValidateSort(sortBy, sortOrder);
      gate.Ok? && sort.Err? ==> r == Err(sort.status, sort.error)
    ensures r.Ok? <==> Authorize(token, verify, blacklist, users, ReadersAndAdmins).Ok? && ValidateSort(sortBy, sortOrder).Ok?
    ensures r.Ok? ==> var spec := ValidateSort(sortBy, sortOrder).value;
      r.value == PageWindow(SortMessages(messages, spec.field, spec.order), page.GetOr(DefaultPage), perPage.GetOr(DefaultPerPage))
  {
    match Authorize(token, verify, blacklist, users, ReadersAndAdmins)
    case Err(status, error) => Err(status, error)
    case Ok(_) =>
      match ValidateSort(sortBy, sortOrder)
      case Err(status, error) => Err(status, error)
      case Ok(spec) =>
        Ok(PageWindow(SortMessages(messages, spec.field, spec.order), page.GetOr(DefaultPage), perPage.GetOr(DefaultPerPage)))
  }

  /** GET /api/messages-with-pagination-scroll, as a function of the stored
      messages: no gate, the sort parameters, then the window at the offset. */
  function ScrolledMessages(
    messages: seq<Message>, lastMessageIndex: Option<int>, perPage: Option<int>,
    sortBy: Option<string>, sortOrder: Option<string>): (r: Result<seq<Message>>)
    ensures var sort := ValidateSort(sortBy, sortOrder);
      sort.Err? ==> r == Err(sort.status, sort.error)
    ensures r.Ok? <==> ValidateSort(sortBy, sortOrder).Ok?
    ensures r.Ok? ==> var spec := ValidateSort(sortBy, sortOrder).value;
      r.value == ScrollWindow(SortMessages(messages, spec.field, spec.order), lastMessageIndex, perPage.GetOr(DefaultPerPage))
  {
    match ValidateSort(sortBy, sortOrder)
    case Err(status, error) => Err(status, error)
    case Ok(spec) =>
      Ok(ScrollWindow(SortMessages(messages, spec.field, spec.order), lastMessageIndex, perPage.GetOr(DefaultPerPage)))
  }

  /** The fetched messages copied into an array and sorted there in place. */
  method SortedCopy(messages: seq<Message>, field: SortField, order: SortOrder) returns (sorted: seq<Message>)
    ensures sorted == SortMessages(messages, field, order)
  {
    var a := new Message[|messages|](i requires 0 <= i < |messages| => messages[i]);
    assert a[..] == messages;
    SortInPlace(a, field, order);
    sorted := a[..];
  }

  /** The handler as the server runs it: the fetched messages are sorted in
      place, then sliced. */
  method MessagesWithPagination(
    token: Option<string>, verify: Verifier, blacklist: seq<string>, users: seq<User>, messages: seq<Message>,
    page: Option<int>, perPage: Option<int>, sortBy: Option<string>, sortOrder: Option<string>)
    returns (r: Result<seq<Message>>)
    ensures r == PaginatedMessages(token, verify, blacklist, users, messages, page, perPage, sortBy, sortOrder)
  {
    var gate := Authorize(token, verify, blacklist, users, ReadersAndAdmins);
    if gate.Err? {
      return Err(gate.status, gate.error);
    }
    var sort := ValidateSort(sortBy, sortOrder);
    if sort.Err? {
      return Err(sort.status, sort.error);
    }
    var sorted := SortedCopy(messages, sort.value.field, sort.value.order);
    var pageNumber, pageSize := page.GetOr(DefaultPage), perPage.GetOr(DefaultPerPage);
    r := Ok(PageWindow(sorted, pageNumber, pageSize));
  }

  /** The scroll handler as the server runs it: sort in place, then the
      offset check and the slice. */
  method MessagesWithPaginationScroll(
    messages: seq<Message>, lastMessageIndex: Option<int>, perPage: Option<int>,
    sortBy: Option<string>, sortOrder: Option<string>)
    returns (r: Result<seq<Message>>)
    ensures r == ScrolledMessages(messages, lastMessageIndex, perPage, sortBy, sortOrder)
  {
    var sort := ValidateSort(sortBy, sortOrder);
    if sort.Err? {
      return Err(sort.status, sort.error);
    }
    var sorted := SortedCopy(messages, sort.value.field, sort.value.order);
    var startIndex := lastMessageIndex.GetOr(0);
    var endIndex := startIndex + perPage.GetOr(DefaultPerPage);
    if startIndex >= |sorted| {
      return Ok([]);
    }
    r := Ok(Slice(sorted, startIndex, endIndex));
  }
}
