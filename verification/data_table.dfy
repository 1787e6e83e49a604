/** The DataTable component: one email search box, a sort button and Previous/Next buttons over a
    fixed dataset. Unlike UserTableData, a new search does not go back to page 1, so the page can
    lie beyond the last page and then shows no records. */
module DataTableView {
  import opened Users
  import opened FilterStage
  import opened SortStage
  import opened PageStage
  import opened ViewPipeline

  class DataTable {
    /** The full dataset; the component never replaces it. */
    const usersList: seq<User>
    var filteredUsers: seq<User>
    var sortOrder: SortOrder
    var searchTerm: string
    var page: int
    // Derived on render.
    var sortedUsers: seq<User>
    var totalPages: nat
    var paginatedUsers: seq<User>

    /** The derived values agree with the state and filteredUsers always holds the email matches of
        the current search term; the page is never below 1 but has no upper bound. */
    ghost predicate Valid()
      reads this
    {
      && Rendered(filteredUsers, sortOrder, page, sortedUsers, totalPages, paginatedUsers)
      && filteredUsers == FilterBy(usersList, Email, searchTerm)
      && 1 <= page
    }

    /** Mounting: empty search box, ascending order, page 1, every record kept in order. */
    constructor (usersList: seq<User>)
      ensures Valid()
      ensures this.usersList == usersList && filteredUsers == usersList
      ensures sortOrder == Asc && searchTerm == "" && page == 1
    {
      var sorted, total, paginated := Render(usersList, Asc, 1);
      this.usersList := usersList;
      filteredUsers, sortOrder, searchTerm, page := usersList, Asc, "", 1;
      sortedUsers, totalPages, paginatedUsers := sorted, total, paginated;
      FilterEmptyQuery(usersList, Email);
    }

    /** Typing in the search box: when the text really changes the effect recomputes filteredUsers;
        the page is left where it was. */
    method SetSearchTerm(text: string)
      requires Valid()
      modifies this
      ensures Valid()
      ensures searchTerm == text && filteredUsers == FilterBy(usersList, Email, text)
      ensures sortOrder == old(sortOrder) && page == old(page)
      ensures text == old(searchTerm) ==> unchanged(this)
    {
      if text != searchTerm {
        var filtered := FilterBy(usersList, Email, text);
        var sorted, total, paginated := Render(filtered, sortOrder, page);
        searchTerm, filteredUsers := text, filtered;
        sortedUsers, totalPages, paginatedUsers := sorted, total, paginated;
      }
    }

    /** The sort button flips the order; the filtered records, the search term and the page stay. */
    method ToggleSortOrder()
      requires Valid()
      modifies this
      ensures Valid()
      ensures sortOrder == Toggled(old(sortOrder))
      ensures filteredUsers == old(filteredUsers) && searchTerm == old(searchTerm) && page == old(page)
    {
      var order := Toggled(sortOrder);
      var sorted, total, paginated := Render(filteredUsers, order, page);
      sortOrder := order;
      sortedUsers, totalPages, paginatedUsers := sorted, total, paginated;
    }

    /** `disabled={page === 1}`: Previous is disabled exactly when there is no page before this one. */
    predicate PreviousDisabled(): (r: bool)
      reads this
      ensures Valid() ==> (r <==> page - 1 < 1)
    {
      page == 1
    }

    /** `disabled={page === totalPages}`: on a page past the last one (or with zero pages) Next stays
        enabled, so the page can keep growing. */
    predicate NextDisabled(): (r: bool)
      reads this
      ensures Valid() && page > totalPages ==> !r
      ensures Valid() && filteredUsers == [] ==> !r
    {
      page == totalPages
    }

    /** The Previous button: one page back unless it is disabled, in which case nothing happens. */
    method Previous()
      requires Valid()
      modifies this`page, this`paginatedUsers
      ensures Valid()
      ensures !old(PreviousDisabled()) ==> page == old(page) - 1
      ensures old(PreviousDisabled()) ==> unchanged(this)
    {
      if !PreviousDisabled() {
        page, paginatedUsers := page - 1, Paginate(sortedUsers, page - 1);
      }
    }

    /** The Next button: one page forward unless it is disabled, in which case nothing happens. */
    method Next()
      requires Valid()
      modifies this`page, this`paginatedUsers
      ensures Valid()
      ensures !old(NextDisabled()) ==> page == old(page) + 1
      ensures old(NextDisabled()) ==> unchanged(this)
    {
      if !NextDisabled() {
        page, paginatedUsers := page + 1, Paginate(sortedUsers, page + 1);
      }
    }

    /** More records than fit on one page make at least two pages. */
    lemma TwoPagesAtLeast()
      requires Valid() && |filteredUsers| > USERS_PER_PAGE
      ensures totalPages >= 2
    {
      RenderedCounts(filteredUsers, sortOrder, page, sortedUsers, totalPages, paginatedUsers);
    }

    /** Every record on screen is a record of the dataset whose email contains the search term,
        whatever the case, and the records on screen follow the chosen order. */
    lemma ShownRecordsMatch()
      requires Valid()
      ensures forall u :: u in paginatedUsers ==> u in usersList && Matches(u, Email, searchTerm)
      ensures Sorted(paginatedUsers, sortOrder)
    {
      RenderedPage(filteredUsers, sortOrder, page, sortedUsers, totalPages, paginatedUsers);
      forall u | u in paginatedUsers
        ensures u in usersList && Matches(u, Email, searchTerm)
      {
        FilterSound(usersList, Email, searchTerm, u);
      }
    }

    /** A page beyond the last one shows no records. */
    lemma StalePageShowsNothing()
      requires Valid() && page > totalPages
      ensures paginatedUsers == []
    {
      RenderedCounts(filteredUsers, sortOrder, page, sortedUsers, totalPages, paginatedUsers);
    }
  }

  /** Going to page 2 and then searching for an email nothing matches: the page stays 2 while there
      are no pages at all, and nothing is shown. */
  method StalePageAfterSearch(usersList: seq<User>, email: string)
    returns (page: int, totalPages: nat, shown: seq<User>)
    requires |usersList| > USERS_PER_PAGE && FilterBy(usersList, Email, email) == []
    ensures page == 2 && totalPages == 0 && shown == []
  {
    var view := new DataTable(usersList);
    view.TwoPagesAtLeast();
    view.Next();
    FilterEmptyQuery(usersList, Email);
    view.SetSearchTerm(email);
    view.StalePageShowsNothing();
    page, totalPages, shown := view.page, view.totalPages, view.paginatedUsers;
  }
}
