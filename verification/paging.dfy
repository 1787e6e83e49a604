/** The page stage: `totalPages = Math.ceil(count / usersPerPage)` and
    `sorted.slice(startIndex, startIndex + usersPerPage)` with `startIndex = (page - 1) * usersPerPage`. */
module PageStage {

  /** `usersPerPage`: the number of records on a full page. */
  const USERS_PER_PAGE: nat := 20

  /** Math.ceil(count / USERS_PER_PAGE): the fewest pages that hold `count` records; zero when
      there are no records. */
  function TotalPages(count: nat): (r: nat)
    ensures count <= r * USERS_PER_PAGE
    ensures r > 0 ==> (r - 1) * USERS_PER_PAGE < count
  {
    (count + USERS_PER_PAGE - 1) / USERS_PER_PAGE
  }

  /** The position an index argument of Array.prototype.slice stands for: a negative index counts
      back from the end, and the result is clamped to [0, len]. */
  function SliceIndex(index: int, len: nat): (r: nat)
    ensures r <= len
    ensures 0 <= index ==> r == if index < len then index else len
    ensures index < 0 ==> r == if -index < len then len + index else 0
  {
    if index < 0 then (if len + index < 0 then 0 else len + index)
    else if index > len then len
    else index
  }

  /** Array.prototype.slice(start, end): the records from `start` up to, not including, `end`;
      empty when the resolved `start` is not before the resolved `end`. */
  function Slice<T>(s: seq<T>, start: int, end: int): (r: seq<T>)
    ensures |r| == if SliceIndex(start, |s|) < SliceIndex(end, |s|) then SliceIndex(end, |s|) - SliceIndex(start, |s|) else 0
    ensures forall i :: 0 <= i < |r| ==> r[i] == s[SliceIndex(start, |s|) + i]
  {
    var b, e := SliceIndex(start, |s|), SliceIndex(end, |s|);
    if b < e then s[b..e] else []
  }

  /** The window of records shown on `page` (1-based). */
  function Paginate<T>(sorted: seq<T>, page: int): (r: seq<T>)
    ensures page >= 1 ==> |r| <= USERS_PER_PAGE
    ensures page >= 1 ==> (r == [] <==> (page - 1) * USERS_PER_PAGE >= |sorted|)
    ensures page >= 1 && r != [] ==> |r| == if page * USERS_PER_PAGE <= |sorted| then USERS_PER_PAGE else |sorted| - (page - 1) * USERS_PER_PAGE
    ensures page >= 1 ==> forall i :: 0 <= i < |r| ==> r[i] == sorted[(page - 1) * USERS_PER_PAGE + i]
  {
    var startIndex := (page - 1) * USERS_PER_PAGE;
    Slice(sorted, startIndex, startIndex + USERS_PER_PAGE)
  }

  /** Every page from 1 to TotalPages is non-empty; all but the last are full, and the last holds
      what is left over. */
  lemma PageLength<T>(sorted: seq<T>, page: int)
    requires 1 <= page <= TotalPages(|sorted|)
    ensures |Paginate(sorted, page)| ==
      if page < TotalPages(|sorted|) then USERS_PER_PAGE
      else |sorted| - (page - 1) * USERS_PER_PAGE
    ensures Paginate(sorted, page) != []
  {
  }

  /** A page past the last one shows no records. */
  lemma PageBeyondLastIsEmpty<T>(sorted: seq<T>, page: int)
    requires page > TotalPages(|sorted|)
    ensures Paginate(sorted, page) == []
  {
  }

  /** Pages 1 to k, one after another. */
  function Pages<T>(sorted: seq<T>, k: nat): seq<T> {
    if k == 0 then [] else Pages(sorted, k - 1) + Paginate(sorted, k)
  }

  /** The first k pages are the first k * USERS_PER_PAGE records (or all of them). */
  lemma {:induction false} PagesPrefix<T>(sorted: seq<T>, k: nat)
    ensures Pages(sorted, k) == sorted[..if k * USERS_PER_PAGE < |sorted| then k * USERS_PER_PAGE else |sorted|]
  {
    if k > 0 {
      PagesPrefix(sorted, k - 1);
      var lo := if (k - 1) * USERS_PER_PAGE < |sorted| then (k - 1) * USERS_PER_PAGE else |sorted|;
      var hi := if k * USERS_PER_PAGE < |sorted| then k * USERS_PER_PAGE else |sorted|;
      assert Paginate(sorted, k) == sorted[lo..hi];
      assert sorted[..lo] + sorted[lo..hi] == sorted[..hi];
    }
  }

  /** Pages 1 to TotalPages, read one after another, give back every record exactly once and in
      order; so their lengths add up to the number of records. */
  lemma PagesCoverAll<T>(sorted: seq<T>)
    ensures Pages(sorted, TotalPages(|sorted|)) == sorted
  {
    PagesPrefix(sorted, TotalPages(|sorted|));
  }
}
