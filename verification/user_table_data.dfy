/** The UserTableData component: an email search box, a gender search box, a sort button and
    Previous/Next buttons over a fixed dataset. Each event handler updates the component state and
    then recomputes the derived values whose inputs changed, as the effects and memos of the
    component do before the next paint. */
module UserTableDataView {
  import opened Users
  import opened FilterStage
  import opened SortStage
  import opened PageStage
  import opened ViewPipeline

  class UserTableData {
    /** The full dataset; the component never replaces it. */
    const users: seq<User>
    var filteredUsers: seq<User>
    var sortOrder: SortOrder
    var search: string
    var searchByGender: string
    var page: int
    // Derived on render.
    var sortedUsers: seq<User>
    var totalPages: nat
    var paginatedUsers: seq<User>

    /** The derived values agree with the state; whichever search box changed last decides
        filteredUsers on its own; the page stays within 1..totalPages whenever there is a page. */
    ghost predicate Valid()
      reads this
    {
      && Rendered(filteredUsers, sortOrder, page, sortedUsers, totalPages, paginatedUsers)
      && FromLastSearch(filteredUsers)
      && 1 <= page
      && (totalPages > 0 ==> page <= totalPages)
    }

    /** `filtered` holds the matches of one of the two search boxes, on its own. */
    ghost predicate FromLastSearch(filtered: seq<User>)
      reads this
    {
      filtered == FilterBy(users, Email, search) || filtered == FilterBy(users, Gender, searchByGender)
    }

    /** Mounting: both search boxes empty, ascending order, page 1, every record kept in order. */
    constructor (users: seq<User>)
      ensures Valid()
      ensures this.users == users && filteredUsers == users
      ensures sortOrder == Asc && search == "" && searchByGender == "" && page == 1
    {
      var sorted, total, paginated := Render(users, Asc, 1);
      this.users := users;
      filteredUsers, sortOrder, search, searchByGender, page := users, Asc, "", "", 1;
      sortedUsers, totalPages, paginatedUsers := sorted, total, paginated;
      FilterEmptyQuery(users, Email);
    }

    /** Typing in the email box. When the text really changes, the email effect replaces
        filteredUsers by the email matches, whatever the gender box holds, and goes back to page 1. */
    method SetSearch(text: string)
      requires Valid()
      modifies this
      ensures Valid()
      ensures search == text && searchByGender == old(searchByGender) && sortOrder == old(sortOrder)
      ensures text != old(search) ==> filteredUsers == FilterBy(users, Email, text) && page == 1
      ensures text == old(search) ==> unchanged(this)
    {
      if text != search {
        var filtered := FilterBy(users, Email, text);
        var sorted, total, paginated := Render(filtered, sortOrder, 1);
        search, filteredUsers, page := text, filtered, 1;
        sortedUsers, totalPages, paginatedUsers := sorted, total, paginated;
      }
    }

    /** Typing in the gender box: the same as the email box, on the gender field. */
    method SetSearchByGender(text: string)
      requires Valid()
      modifies this
      ensures Valid()
      ensures searchByGender == text && search == old(search) && sortOrder == old(sortOrder)
      ensures text != old(searchByGender) ==> filteredUsers == FilterBy(users, Gender, text) && page == 1
      ensures text == old(searchByGender) ==> unchanged(this)
    {
      if text != searchByGender {
        var filtered := FilterBy(users, Gender, text);
        var sorted, total, paginated := Render(filtered, sortOrder, 1);
        searchByGender, filteredUsers, page := text, filtered, 1;
        sortedUsers, totalPages, paginatedUsers := sorted, total, paginated;
      }
    }

    /** The sort button flips the order; the filtered records, both search texts and the page stay. */
    method ToggleSortOrder()
      requires Valid()
      modifies this
      ensures Valid()
      ensures sortOrder == Toggled(old(sortOrder))
      ensures filteredUsers == old(filteredUsers) && page == old(page)
      ensures search == old(search) && searchByGender == old(searchByGender)
    {
      RenderedCounts(filteredUsers, sortOrder, page, sortedUsers, totalPages, paginatedUsers);
      var order := Toggled(sortOrder);
      var sorted, total, paginated := Render(filteredUsers, order, page);
      RenderedCounts(filteredUsers, order, page, sorted, total, paginated);
      sortOrder := order;
      sortedUsers, totalPages, paginatedUsers := sorted, total, paginated;
    }

    /** `disabled={page === 1}`: Previous is disabled exactly when there is no page before this one. */
    predicate PreviousDisabled(): (r: bool)
      reads this
      ensures Valid() ==> (r <==> page - 1 < 1)
    {
      page == 1
    }

    /** `disabled={page === totalPages}`: with matches, Next is disabled exactly on the last page;
        with none there are zero pages and Next is never disabled. */
    predicate NextDisabled(): (r: bool)
      reads this
      ensures Valid() && filteredUsers != [] ==> (r <==> page + 1 > totalPages)
      ensures Valid() && filteredUsers == [] ==> !r
    {
      page == totalPages
    }

    /** The Previous button: one page back unless it is disabled, in which case nothing happens.
        Only the page memo is recomputed. */
    method Previous()
      requires Valid()
      modifies this`page, this`paginatedUsers
      ensures Valid()
      ensures !old(PreviousDisabled()) ==> page == old(page) - 1
      ensures old(PreviousDisabled()) ==> unchanged(this)
    {
      if !PreviousDisabled() {
        page, paginatedUsers := page - 1, Paginate(sortedUsers, page - 1);
      }
    }

    /** The Next button: one page forward unless it is disabled, in which case nothing happens.
        Only the page memo is recomputed. */
    method Next()
      requires Valid()
      modifies this`page, this`paginatedUsers
      ensures Valid()
      ensures !old(NextDisabled()) ==> page == old(page) + 1
      ensures old(NextDisabled()) ==> unchanged(this)
    {
      if !NextDisabled() {
        page, paginatedUsers := page + 1, Paginate(sortedUsers, page + 1);
      }
    }

    /** Every record on screen is a record of the dataset that matches the email box or the gender
        box, and the records on screen follow the chosen order. */
    lemma ShownRecordsMatch()
      requires Valid()
      ensures forall u :: u in paginatedUsers ==> u in users && (Matches(u, Email, search) || Matches(u, Gender, searchByGender))
      ensures Sorted(paginatedUsers, sortOrder)
    {
      RenderedPage(filteredUsers, sortOrder, page, sortedUsers, totalPages, paginatedUsers);
      forall u | u in paginatedUsers
        ensures u in users && (Matches(u, Email, search) || Matches(u, Gender, searchByGender))
      {
        if filteredUsers == FilterBy(users, Email, search) {
          FilterSound(users, Email, search, u);
        } else {
          FilterSound(users, Gender, searchByGender, u);
        }
      }
    }

    /** With at least one match the page shown is never empty. */
    lemma NonEmptyResultShowsRecords()
      requires Valid() && filteredUsers != []
      ensures 1 <= page <= totalPages
      ensures paginatedUsers != []
    {
      RenderedCounts(filteredUsers, sortOrder, page, sortedUsers, totalPages, paginatedUsers);
    }

    /** With no match there are zero pages, so Next stays enabled and the page shown is empty. */
    lemma EmptyResultKeepsNextEnabled()
      requires Valid() && filteredUsers == []
      ensures totalPages == 0 && !NextDisabled()
      ensures paginatedUsers == []
    {
      RenderedCounts(filteredUsers, sortOrder, page, sortedUsers, totalPages, paginatedUsers);
    }
  }

  /** Typing in the email box and then in the gender box: the gender matches replace the email
      matches, so the email text no longer narrows the result. */
  method GenderSearchOverridesEmailSearch(users: seq<User>, email: string, gender: string)
    returns (filtered: seq<User>)
    ensures gender != "" ==> filtered == FilterBy(users, Gender, gender)
    ensures gender == "" && email != "" ==> filtered == FilterBy(users, Email, email)
  {
    var view := new UserTableData(users);
    view.SetSearch(email);
    view.SetSearchByGender(gender);
    filtered := view.filteredUsers;
  }

  /** A search without matches followed by Next: the label reads "Page 2 of 0". */
  method NextAfterEmptySearch(users: seq<User>, email: string)
    returns (page: int, totalPages: nat, shown: seq<User>)
    requires email != "" && FilterBy(users, Email, email) == []
    ensures page == 2 && totalPages == 0 && shown == []
  {
    var view := new UserTableData(users);
    view.SetSearch(email);
    view.EmptyResultKeepsNextEnabled();
    view.Next();
    page, totalPages, shown := view.page, view.totalPages, view.paginatedUsers;
  }
}
