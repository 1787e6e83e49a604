/** The search stage: keep, in their original order, the records whose chosen field contains the
    search text, both sides lower-cased (`users.filter(user => field.toLowerCase().includes(text.toLowerCase()))`). */
module FilterStage {
  import opened Users

  /** The predicate passed to Array.prototype.filter: the lower-cased search text occurs somewhere
      in the lower-cased field. */
  predicate Matches(u: User, field: SearchField, query: string): (r: bool)
    ensures r <==> ContainsText(ToLower(FieldText(u, field)), ToLower(query))
  {
    IncludesIffOccurs(ToLower(FieldText(u, field)), ToLower(query));
    Includes(ToLower(FieldText(u, field)), ToLower(query))
  }

  /** Array.prototype.filter with the search predicate. */
  function FilterBy(users: seq<User>, field: SearchField, query: string): (r: seq<User>)
    ensures |r| <= |users|
  {
    if users == [] then []
    else (if Matches(users[0], field, query) then [users[0]] else []) + FilterBy(users[1..], field, query)
  }

  /** Soundness: every record kept is an input record that matches. */
  lemma {:induction false} FilterSound(users: seq<User>, field: SearchField, query: string, u: User)
    requires u in FilterBy(users, field, query)
    ensures u in users && Matches(u, field, query)
  {
    if !(Matches(users[0], field, query) && u == users[0]) {
      FilterSound(users[1..], field, query, u);
    }
  }

  /** Completeness: no matching record is dropped. */
  lemma {:induction false} FilterComplete(users: seq<User>, field: SearchField, query: string, u: User)
    requires u in users && Matches(u, field, query)
    ensures u in FilterBy(users, field, query)
  {
    if users[0] != u {
      FilterComplete(users[1..], field, query, u);
    }
  }

  /** Membership in the result is exactly "in the input and matching". */
  lemma FilterMembership(users: seq<User>, field: SearchField, query: string, u: User)
    ensures u in FilterBy(users, field, query) <==> u in users && Matches(u, field, query)
  {
    if u in users && Matches(u, field, query) {
      FilterComplete(users, field, query, u);
    }
    if u in FilterBy(users, field, query) {
      FilterSound(users, field, query, u);
    }
  }

  /** Each matching record is kept as often as it occurs, every other record never. */
  lemma {:induction false} FilterMultiplicity(users: seq<User>, field: SearchField, query: string, u: User)
    ensures multiset(FilterBy(users, field, query))[u] == if Matches(u, field, query) then multiset(users)[u] else 0
  {
    if users != [] {
      FilterMultiplicity(users[1..], field, query, u);
      var rest := FilterBy(users[1..], field, query);
      assert multiset(users) == multiset{users[0]} + multiset(users[1..]) by {
        assert users == [users[0]] + users[1..];
      }
      if Matches(users[0], field, query) {
        assert multiset(FilterBy(users, field, query)) == multiset{users[0]} + multiset(rest) by {
          assert FilterBy(users, field, query) == [users[0]] + rest;
        }
      } else {
        assert FilterBy(users, field, query) == rest;
      }
    }
  }

  /** Filtering a concatenation filters each part and keeps them in order: the filter preserves
      the original relative order of the records it keeps. */
  lemma {:induction false} FilterAppend(a: seq<User>, b: seq<User>, field: SearchField, query: string)
    ensures FilterBy(a + b, field, query) == FilterBy(a, field, query) + FilterBy(b, field, query)
  {
    if a != [] {
      assert (a + b)[0] == a[0] && (a + b)[1..] == a[1..] + b;
      FilterAppend(a[1..], b, field, query);
      var rest := FilterBy(a[1..], field, query);
      if Matches(a[0], field, query) {
        assert FilterBy(a + b, field, query) == [a[0]] + (rest + FilterBy(b, field, query));
        assert FilterBy(a, field, query) == [a[0]] + rest;
      } else {
        assert FilterBy(a + b, field, query) == rest + FilterBy(b, field, query);
        assert FilterBy(a, field, query) == rest;
      }
    } else {
      assert a + b == b;
    }
  }

  /** An empty search text keeps every record, in order. */
  lemma {:induction false} FilterEmptyQuery(users: seq<User>, field: SearchField)
    ensures FilterBy(users, field, "") == users
  {
    if users != [] {
      FilterEmptyQuery(users[1..], field);
      assert Matches(users[0], field, "");
    }
  }

  /** The search is case-insensitive: lower-casing the search text first changes nothing. */
  lemma {:induction false} FilterCaseInsensitive(users: seq<User>, field: SearchField, query: string)
    ensures FilterBy(users, field, ToLower(query)) == FilterBy(users, field, query)
  {
    ToLowerIdempotent(query);
    if users != [] {
      FilterCaseInsensitive(users[1..], field, query);
    }
  }

  /** Filtering an already filtered sequence with the same search keeps all of it. */
  lemma {:induction false} FilterIdempotent(users: seq<User>, field: SearchField, query: string)
    ensures FilterBy(FilterBy(users, field, query), field, query) == FilterBy(users, field, query)
  {
    if users != [] {
      FilterIdempotent(users[1..], field, query);
      var head := if Matches(users[0], field, query) then [users[0]] else [];
      FilterAppend(head, FilterBy(users[1..], field, query), field, query);
    }
  }
}
