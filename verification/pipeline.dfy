/** What every render of either table computes from the component state: the sorted copy of the
    filtered records, the page count and the records of the current page. */
module ViewPipeline {
  import opened Users
  import opened SortStage
  import opened PageStage

  /** `sorted`, `totalPages` and `paginated` are the values a render derives from `filtered`,
      `order` and `page`. */
  ghost predicate Rendered(
    filtered: seq<User>, order: SortOrder, page: int,
    sorted: seq<User>, totalPages: nat, paginated: seq<User>)
  {
    && Sorted(sorted, order)
    && multiset(sorted) == multiset(filtered)
    && totalPages == TotalPages(|sorted|)
    && paginated == Paginate(sorted, page)
  }

  /** One render: the sort memo, the page count and the page memo, in that order. */
  method Render(filtered: seq<User>, order: SortOrder, page: int)
    returns (sorted: seq<User>, totalPages: nat, paginated: seq<User>)
    ensures Rendered(filtered, order, page, sorted, totalPages, paginated)
  {
    sorted := SortedCopy(filtered, order);
    totalPages := TotalPages(|sorted|);
    paginated := Paginate(sorted, page);
  }

  /** The sorted copy has as many records as the filtered ones, so the page count and the page
      contents depend only on how many records matched. */
  lemma RenderedCounts(
    filtered: seq<User>, order: SortOrder, page: int,
    sorted: seq<User>, totalPages: nat, paginated: seq<User>)
    requires Rendered(filtered, order, page, sorted, totalPages, paginated)
    ensures |sorted| == |filtered|
    ensures totalPages == 0 <==> filtered == []
    ensures page > totalPages ==> paginated == []
    ensures 1 <= page <= totalPages ==> paginated != []
  {
    assert |sorted| == |multiset(sorted)| == |multiset(filtered)| == |filtered|;
    if page > totalPages {
      PageBeyondLastIsEmpty(sorted, page);
    }
    if 1 <= page <= totalPages {
      PageLength(sorted, page);
    }
  }

  /** The page shown holds filtered records only, and in the chosen order. */
  lemma RenderedPage(
    filtered: seq<User>, order: SortOrder, page: int,
    sorted: seq<User>, totalPages: nat, paginated: seq<User>)
    requires Rendered(filtered, order, page, sorted, totalPages, paginated)
    ensures forall u :: u in paginated ==> u in filtered
    ensures Sorted(paginated, order)
  {
    var b := SliceIndex((page - 1) * USERS_PER_PAGE, |sorted|);
    var e := SliceIndex((page - 1) * USERS_PER_PAGE + USERS_PER_PAGE, |sorted|);
    if b < e {
      assert paginated == sorted[b..e];
      forall u | u in paginated
        ensures u in filtered
      {
        var i :| 0 <= i < |paginated| && paginated[i] == u;
        assert sorted[b + i] == u;
        assert u in multiset(sorted);
      }
      forall i, j | 0 <= i < j < |paginated|
        ensures InOrder(paginated, order, i, j)
      {
        assert InOrder(sorted, order, b + i, b + j);
      }
    }
  }
}
