/** The sort stage: `[...filteredUsers].sort(comparator)` orders a fresh copy of the filtered
    records by first name, ascending or descending; the filtered records themselves are untouched. */
module SortStage {
  import opened Users
  import opened Collation

  datatype SortOrder = Asc | Desc

  /** The sort button's handler: "asc" becomes "desc" and back. */
  function Toggled(order: SortOrder): (r: SortOrder)
    ensures r != order
  {
    if order == Asc then Desc else Asc
  }

  lemma ToggledInvolution(order: SortOrder)
    ensures Toggled(Toggled(order)) == order
  {
  }

  /** The comparator handed to Array.prototype.sort: `a` may precede `b` when the result is not
      positive. It ties records with the same first name, and descending order negates ascending. */
  function Comparator(order: SortOrder, a: User, b: User): (r: int)
    ensures -1 <= r <= 1
    ensures r == 0 <==> a.firstName == b.firstName
    ensures order == Desc ==> r == -Compare(a.firstName, b.firstName)
  {
    CompareAntisymmetric(a.firstName, b.firstName);
    if order == Asc then Compare(a.firstName, b.firstName) else Compare(b.firstName, a.firstName)
  }

  /** The record at position i may stand before the record at position j. */
  ghost predicate InOrder(s: seq<User>, order: SortOrder, i: int, j: int)
    requires 0 <= i < |s| && 0 <= j < |s|
  {
    Comparator(order, s[i], s[j]) <= 0
  }

  /** Every record may precede every later one under the comparator. */
  ghost predicate Sorted(s: seq<User>, order: SortOrder) {
    forall i, j :: 0 <= i < j < |s| ==> InOrder(s, order, i, j)
  }

  lemma ComparatorTotal(order: SortOrder, a: User, b: User)
    ensures Comparator(order, a, b) > 0 ==> Comparator(order, b, a) <= 0
  {
    CompareAntisymmetric(a.firstName, b.firstName);
  }

  lemma ComparatorTransitive(order: SortOrder, a: User, b: User, c: User)
    requires Comparator(order, a, b) <= 0 && Comparator(order, b, c) <= 0
    ensures Comparator(order, a, c) <= 0
  {
    if order == Asc {
      CompareTransitive(a.firstName, b.firstName, c.firstName);
    } else {
      CompareTransitive(c.firstName, b.firstName, a.firstName);
    }
  }

  /** Ascending order means first names never decrease along the sequence, descending order
      means they never increase. */
  lemma SortedMeaning(s: seq<User>, order: SortOrder)
    requires Sorted(s, order)
    ensures order == Asc ==> forall i, j :: 0 <= i < j < |s| ==> Compare(s[i].firstName, s[j].firstName) <= 0
    ensures order == Desc ==> forall i, j :: 0 <= i < j < |s| ==> Compare(s[i].firstName, s[j].firstName) >= 0
  {
    forall i, j | 0 <= i < j < |s|
      ensures Comparator(order, s[i], s[j]) <= 0
      ensures Compare(s[j].firstName, s[i].firstName) == -Compare(s[i].firstName, s[j].firstName)
    {
      assert InOrder(s, order, i, j);
      CompareAntisymmetric(s[i].firstName, s[j].firstName);
    }
  }

  /** The first `n` records are in order. */
  ghost predicate SortedPrefix(s: seq<User>, n: nat, order: SortOrder)
    requires n <= |s|
  {
    forall k, l :: 0 <= k < l < n ==> Comparator(order, s[k], s[l]) <= 0
  }

  /** Halfway through inserting the record at position `j` into the sorted prefix s[..i+1]:
      without it the prefix is in order, and it may precede everything to its right. */
  ghost predicate Inserting(s: seq<User>, i: nat, j: nat, order: SortOrder) {
    && j <= i < |s|
    && (forall k, l :: 0 <= k < l <= i && k != j && l != j ==> Comparator(order, s[k], s[l]) <= 0)
    && (forall l :: j < l <= i ==> Comparator(order, s[j], s[l]) <= 0)
  }

  lemma InsertStart(s: seq<User>, i: nat, order: SortOrder)
    requires i < |s| && SortedPrefix(s, i, order)
    ensures Inserting(s, i, i, order)
  {
  }

  /** Swapping the record with its left neighbour, which must follow it, keeps the insertion going. */
  lemma InsertStep(s: seq<User>, i: nat, j: nat, order: SortOrder)
    requires Inserting(s, i, j, order)
    requires 0 < j && Comparator(order, s[j - 1], s[j]) > 0
    ensures Inserting(s[j - 1 := s[j]][j := s[j - 1]], i, j - 1, order)
  {
    ComparatorTotal(order, s[j - 1], s[j]);
  }

  /** Once the left neighbour may precede the record, the prefix s[..i+1] is sorted. */
  lemma InsertDone(s: seq<User>, i: nat, j: nat, order: SortOrder)
    requires Inserting(s, i, j, order)
    requires j == 0 || Comparator(order, s[j - 1], s[j]) <= 0
    ensures SortedPrefix(s, i + 1, order)
  {
    forall k | 0 <= k < j - 1
      ensures Comparator(order, s[k], s[j]) <= 0
    {
      ComparatorTransitive(order, s[k], s[j - 1], s[j]);
    }
  }

  /** Exchanging two records keeps the same records. */
  lemma SwapKeepsRecords(s: seq<User>, i: nat, j: nat)
    requires i < j < |s|
    ensures multiset(s[i := s[j]][j := s[i]]) == multiset(s)
  {
  }

  /** Moves a[i] left past every record that must follow it, so that a[..i+1] is sorted. */
  method Insert(a: array<User>, i: nat, order: SortOrder)
    requires i < a.Length && SortedPrefix(a[..], i, order)
    modifies a
    ensures SortedPrefix(a[..], i + 1, order)
    ensures multiset(a[..]) == multiset(old(a[..]))
  {
    var j: nat := i;
    InsertStart(a[..], i, order);
    while 0 < j && Comparator(order, a[j - 1], a[j]) > 0
      invariant Inserting(a[..], i, j, order)
      invariant multiset(a[..]) == multiset(old(a[..]))
    {
      ghost var s := a[..];
      InsertStep(s, i, j, order);
      SwapKeepsRecords(s, j - 1, j);
      a[j - 1], a[j] := a[j], a[j - 1];
      assert a[..] == s[j - 1 := s[j]][j := s[j - 1]];
      j := j - 1;
    }
    InsertDone(a[..], i, j, order);
  }

  /** Insertion sort in place: the array ends sorted and holds the same records. */
  method InsertionSort(a: array<User>, order: SortOrder)
    modifies a
    ensures Sorted(a[..], order)
    ensures multiset(a[..]) == multiset(old(a[..]))
  {
    var i := 0;
    while i < a.Length
      invariant 0 <= i <= a.Length
      invariant SortedPrefix(a[..], i, order)
      invariant multiset(a[..]) == multiset(old(a[..]))
    {
      Insert(a, i, order);
      i := i + 1;
    }
  }

  /** `[...users].sort(comparator)`: a sorted permutation of `users`, built in a fresh array. */
  method SortedCopy(users: seq<User>, order: SortOrder) returns (sorted: seq<User>)
    ensures Sorted(sorted, order)
    ensures multiset(sorted) == multiset(users)
  {
    var a := new User[|users|](k requires 0 <= k < |users| => users[k]);
    assert a[..] == users;
    InsertionSort(a, order);
    sorted := a[..];
  }
}
