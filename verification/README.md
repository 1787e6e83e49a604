# dashboard-table: the data view of the user tables

The dashboard shows a fixed dataset of user profiles (`MOCK_DATA.json`) in two React
components, `UserTableData` and `DataTable`. Each component holds a few pieces of state: the
filtered records, the sort order, the search text or texts, and the page number. On every
render it derives three values from that state:

1. the filtered records are copied and sorted by first name, ascending or descending;
2. `totalPages` is `Math.ceil(count / 20)`;
3. the visible page is `sorted.slice((page - 1) * 20, (page - 1) * 20 + 20)`.

The event handlers change the state:

- the sort button flips the order;
- the Previous and Next buttons move the page by one unless they are disabled (`page === 1`,
  `page === totalPages`);
- typing in a search box changes its text. An effect then recomputes the filtered records from
  the full dataset with a case-insensitive substring match on the email (or, in
  `UserTableData`, the gender) field.

`UserTableData` returns to page 1 after each search. `DataTable` keeps the page.

This project models that pipeline and both components in Dafny:

- `Users`: the record type, ASCII lower-casing and `String.prototype.includes`.
- `Collation`: the three-way string comparison the sort uses.
- `FilterStage`: the search filter.
- `SortStage`: the sort order, the comparator, and an insertion sort on an array that builds
  the sorted copy.
- `PageStage`: the page count, JavaScript `slice` and the page window.
- `ViewPipeline`: one render, from state to the three derived values.
- `UserTableDataView` and `DataTableView`: each component as a class. Its fields are the
  state plus the derived values. Its methods are the event handlers, each followed by the
  effects and memos that the change triggers.

A change that React would ignore leaves the object unchanged. Setting a search text to its
current value is such a change, and so is clicking a disabled button.

`totalPages` is `Math.ceil(count / 20)`, which is 0 when nothing matches, and nothing keeps the
page within 1..`totalPages`. The model follows that:

- with no match, `totalPages` is 0 and Next stays enabled (`UserTableDataView.NextAfterEmptySearch`);
- in `DataTable` a search can leave the page beyond the last page, which then shows nothing
  (`DataTableView.StalePageAfterSearch`).

## Model

| member | source | states |
|---|---|---|
| Users.LowerChar | src/app/components/userTable/UserTableData.tsx:18 | lower-casing maps each upper-case ASCII letter to its lower-case partner, leaves every other character alone and never yields an upper-case letter |
| Users.ToLower | src/app/components/userTable/UserTableData.tsx:18 | ASCII lower-casing keeps the length of the text |
| Users.ToLowerAt | src/app/components/userTable/UserTableData.tsx:18 | each character of the lower-cased text is the lower-cased character at that position, and none is upper case |
| Users.ToLowerIdempotent | src/app/components/userTable/UserTableData.tsx:18 | lower-casing twice is the same as lower-casing once |
| Users.Includes | src/app/components/userTable/UserTableData.tsx:18 | the empty text is included in every text; an included text is no longer than the text containing it |
| Users.IncludesIffOccurs | src/app/components/userTable/UserTableData.tsx:18 | `includes` is true exactly when the pattern occurs at some position of the text |
| Users.IncludesWitness | src/app/components/userTable/UserTableData.tsx:18 | when `includes` is true, there is a position where the pattern occurs |
| Users.OccursAtIncludes | src/app/components/userTable/UserTableData.tsx:18 | an occurrence at any position makes `includes` true |
| Collation.Compare | src/app/components/userTable/UserTableData.tsx:37-38 | the code-point comparison that stands in for `localeCompare` is negative, zero or positive (-1, 0, 1), and zero exactly for equal names |
| Collation.CompareAntisymmetric | src/app/components/userTable/UserTableData.tsx:36-38 | swapping the two names negates the result, so the descending comparator is the ascending one with its arguments swapped |
| Collation.CompareTransitive | src/app/components/userTable/UserTableData.tsx:37-38 | "not after" is transitive, so the comparator is a consistent order |
| FilterStage.Matches | src/app/components/userTable/UserTableData.tsx:18 | the filter callback holds exactly when the lower-cased search text occurs at some position of the lower-cased field; the same callback is used on the gender field at src/app/components/userTable/UserTableData.tsx:27 and in DataTable at src/app/components/showTable/DataTable.tsx:16 |
| FilterStage.FilterBy | src/app/components/userTable/UserTableData.tsx:17-19 | the filter never returns more records than the dataset holds |
| FilterStage.FilterSound | src/app/components/userTable/UserTableData.tsx:17-19 | every kept record is in the dataset, and its lower-cased field contains the lower-cased search text |
| FilterStage.FilterComplete | src/app/components/userTable/UserTableData.tsx:17-19 | every dataset record whose field matches is kept |
| FilterStage.FilterMembership | src/app/components/userTable/UserTableData.tsx:17-19 | a record is in the result if and only if it is in the dataset and matches |
| FilterStage.FilterMultiplicity | src/app/components/userTable/UserTableData.tsx:17-19 | each matching record is kept as many times as it occurs in the dataset, and a record that does not match is never kept |
| FilterStage.FilterAppend | src/app/components/userTable/UserTableData.tsx:17-19 | filtering a concatenation is the concatenation of the filtered parts, so the kept records keep their dataset order |
| FilterStage.FilterEmptyQuery | src/app/components/userTable/UserTableData.tsx:17-19 | an empty search text keeps the whole dataset in order, which is what the first render shows |
| FilterStage.FilterCaseInsensitive | src/app/components/userTable/UserTableData.tsx:18 | searching for the lower-cased text gives the same result as searching for the text as typed |
| FilterStage.FilterIdempotent | src/app/components/userTable/UserTableData.tsx:17-19 | filtering the result again with the same search changes nothing |
| SortStage.Toggled | src/app/components/userTable/UserTableData.tsx:55 | the sort button always changes the order |
| SortStage.ToggledInvolution | src/app/components/userTable/UserTableData.tsx:55 | two clicks of the sort button restore the order |
| SortStage.Comparator | src/app/components/userTable/UserTableData.tsx:35-39 | the code-point comparator standing in for the `localeCompare` arrow returns -1, 0 or 1, ties exactly the records with the same first name, and in descending order is the ascending result negated |
| SortStage.ComparatorTotal | src/app/components/userTable/UserTableData.tsx:35-39 | of two records, at least one may stand before the other under the comparator |
| SortStage.ComparatorTransitive | src/app/components/userTable/UserTableData.tsx:35-39 | the comparator, ascending or descending, is transitive |
| SortStage.SortedMeaning | src/app/components/userTable/UserTableData.tsx:35-39 | a sorted list in ascending order has first names that never decrease, and one in descending order has first names that never increase |
| SortStage.Insert | src/app/components/userTable/UserTableData.tsx:35-39 | inserting one record into a sorted prefix extends the sorted prefix by one and keeps the same records |
| SortStage.InsertionSort | src/app/components/userTable/UserTableData.tsx:35-39 | sorting in place leaves the array sorted under the comparator and holds the same records |
| SortStage.SortedCopy | src/app/components/userTable/UserTableData.tsx:34-40 | `[...filteredUsers].sort(...)` returns a sorted permutation of the filtered records and leaves them untouched |
| PageStage.TotalPages | src/app/components/userTable/UserTableData.tsx:43 | `Math.ceil(count / 20)` is the fewest pages that hold every record, and 0 when there is none |
| PageStage.SliceIndex | src/app/components/userTable/UserTableData.tsx:46 | a `slice` index counts back from the end when it is negative and is clamped to the length |
| PageStage.Slice | src/app/components/userTable/UserTableData.tsx:46 | `slice(start, end)` returns the records from the resolved start up to the resolved end, and nothing when the resolved start is not before the resolved end |
| PageStage.USERS_PER_PAGE | src/app/components/userTable/UserTableData.tsx:13 | a full page holds 20 records |
| PageStage.Paginate | src/app/components/userTable/UserTableData.tsx:44-47 | for page >= 1 the window holds at most 20 records; it is empty exactly when `(page - 1) * 20` is at or past the end; it is full except on the last page; its i-th record is record `(page - 1) * 20 + i` of the sorted list |
| PageStage.PageLength | src/app/components/userTable/UserTableData.tsx:43-47 | each page from 1 to `totalPages` is non-empty, and every page but the last is full |
| PageStage.PageBeyondLastIsEmpty | src/app/components/userTable/UserTableData.tsx:43-47 | a page after the last one is empty |
| PageStage.PagesPrefix | src/app/components/userTable/UserTableData.tsx:44-47 | pages 1 to k, one after another, are the first `k * 20` records, or all of them when there are fewer |
| PageStage.PagesCoverAll | src/app/components/userTable/UserTableData.tsx:43-47 | pages 1 to `totalPages`, one after another, are the whole sorted list: each record appears once, in order |
| ViewPipeline.Render | src/app/components/userTable/UserTableData.tsx:34-47 | one render produces a sorted permutation of the filtered records, its page count and the window of the current page |
| ViewPipeline.RenderedCounts | src/app/components/userTable/UserTableData.tsx:43-47 | after a render, `totalPages` is 0 exactly when nothing matched; a page past `totalPages` is empty; a page from 1 to `totalPages` is not |
| ViewPipeline.RenderedPage | src/app/components/userTable/UserTableData.tsx:34-47 | the window on screen holds only filtered records, in the chosen order |
| UserTableDataView.UserTableData.constructor | src/app/components/userTable/UserTableData.tsx:7-31 | on mount both boxes are empty, the order is ascending, the page is 1, `filteredUsers` is the whole dataset, and the sorted copy, the page count and the first page are derived from it |
| UserTableDataView.UserTableData.SetSearch | src/app/components/userTable/UserTableData.tsx:16-22 | a new email text replaces the filtered records by the email matches of the full dataset and goes back to page 1; the gender text and the order stay; the same text changes nothing |
| UserTableDataView.UserTableData.SetSearchByGender | src/app/components/userTable/UserTableData.tsx:25-31 | a new gender text replaces the filtered records by the gender matches of the full dataset and goes back to page 1; the email text and the order stay; the same text changes nothing |
| UserTableDataView.UserTableData.ToggleSortOrder | src/app/components/userTable/UserTableData.tsx:55 | the order flips; the filtered records, both texts and the page stay; the derived values are recomputed |
| UserTableDataView.UserTableData.Previous | src/app/components/userTable/UserTableData.tsx:124-130 | when enabled (`page !== 1`) the page goes down by one; when disabled nothing changes |
| UserTableDataView.UserTableData.Next | src/app/components/userTable/UserTableData.tsx:134-140 | when enabled (`page !== totalPages`) the page goes up by one; when disabled nothing changes |
| UserTableDataView.UserTableData.PreviousDisabled | src/app/components/userTable/UserTableData.tsx:125 | Previous is disabled exactly when there is no page before the current one |
| UserTableDataView.UserTableData.NextDisabled | src/app/components/userTable/UserTableData.tsx:135 | with matches, Next is disabled exactly when there is no later page; with no match there are zero pages and Next is never disabled |
| UserTableDataView.UserTableData.ShownRecordsMatch | src/app/components/userTable/UserTableData.tsx:16-47 | every record on screen is a dataset record that matches the email box or the gender box, and the records on screen are in the chosen order |
| UserTableDataView.UserTableData.NonEmptyResultShowsRecords | src/app/components/userTable/UserTableData.tsx:98-117 | when something matches, the page lies in 1..`totalPages` and the table is never "No users found" |
| UserTableDataView.UserTableData.EmptyResultKeepsNextEnabled | src/app/components/userTable/UserTableData.tsx:132-136 | when nothing matches, `totalPages` is 0, Next stays enabled and the table is empty |
| UserTableDataView.GenderSearchOverridesEmailSearch | src/app/components/userTable/UserTableData.tsx:16-31 | after an email search followed by a gender search, the filtered records are the gender matches alone, and the email text no longer narrows them |
| UserTableDataView.NextAfterEmptySearch | src/app/components/userTable/UserTableData.tsx:132-136 | a search without matches followed by Next gives "Page 2 of 0" with an empty table |
| DataTableView.DataTable.constructor | src/app/components/showTable/DataTable.tsx:7-19 | on mount the box is empty, the order is ascending, the page is 1, `filteredUsers` is the whole dataset, and the sorted copy, the page count and the first page are derived from it |
| DataTableView.DataTable.SetSearchTerm | src/app/components/showTable/DataTable.tsx:14-19 | a new text replaces the filtered records by the email matches of the full dataset; the page and the order stay; the same text changes nothing |
| DataTableView.DataTable.ToggleSortOrder | src/app/components/showTable/DataTable.tsx:40 | the order flips; the filtered records, the text and the page stay |
| DataTableView.DataTable.Previous | src/app/components/showTable/DataTable.tsx:94-100 | when enabled (`page !== 1`) the page goes down by one; when disabled nothing changes |
| DataTableView.DataTable.Next | src/app/components/showTable/DataTable.tsx:104-110 | when enabled (`page !== totalPages`) the page goes up by one; when disabled nothing changes |
| DataTableView.DataTable.PreviousDisabled | src/app/components/showTable/DataTable.tsx:95 | Previous is disabled exactly when there is no page before the current one |
| DataTableView.DataTable.NextDisabled | src/app/components/showTable/DataTable.tsx:105 | on a page past the last one, or with no match at all, Next stays enabled |
| DataTableView.DataTable.TwoPagesAtLeast | src/app/components/showTable/DataTable.tsx:29 | more than 20 matches make at least two pages |
| DataTableView.DataTable.ShownRecordsMatch | src/app/components/showTable/DataTable.tsx:14-34 | every record on screen is a dataset record whose email contains the search text, ignoring case, and the records on screen are in the chosen order |
| DataTableView.DataTable.StalePageShowsNothing | src/app/components/showTable/DataTable.tsx:29-34 | a page beyond `totalPages` shows an empty table |
| DataTableView.StalePageAfterSearch | src/app/components/showTable/DataTable.tsx:14-34 | with more than 20 records, going to page 2 and then searching for an email nothing matches leaves page 2 of 0 pages and an empty table |

## Left out

- Collation.Compare: compares first names by code point and not by the browser's `localeCompare` collation, whose locale tables are not modelled. `localeCompare` returns 0 for some different strings (for example canonically equivalent ones such as "\u00E9" and "e\u0301"), so it is only a total preorder, while the code-point comparison is a total order. Names that `localeCompare` ties, which the stable browser sort leaves in dataset order, are ordered by code point in the model.
- Users.LowerChar: maps only the ASCII letters A-Z. The full Unicode case mapping of `toLowerCase` (including characters whose lower case is longer) is not modelled.
- SortStage.SortedCopy: proves a sorted permutation but not that the sort is stable. The browser's sort is stable, and so is the insertion sort used here, but the model does not state which of several equal first names comes first.
- PageStage.TotalPages: computes `Math.ceil` with exact integer arithmetic. For any record count below 2^53 the floating-point result is the same.
- The first render, before the effects run, briefly shows the filtered records of the previous search. The model shows only the state after each effect has run. Batching and scheduling of updates by React are not modelled.
- When both search effects run in the same commit (on mount), their order decides `filteredUsers`. Both produce the whole dataset there, so the model starts from it.
- The JSX markup, CSS classes, icons and the "Page x of y" label text are not modelled. The label is represented by the `page` and `totalPages` fields.
- `MOCK_DATA.json` is not part of this model. The dataset is a parameter of each component's constructor.
