/** The records of the dataset and the two string operations the search boxes use on them:
    lower-casing and substring search. */
module Users {

  /** One row of the dataset: a user profile. */
  datatype User = User(
    id: int,
    firstName: string,
    lastName: string,
    gender: string,
    email: string,
    jobTitle: string)

  /** The record field a search box looks at. */
  datatype SearchField = Email | Gender

  function FieldText(u: User, field: SearchField): string {
    match field
    case Email => u.email
    case Gender => u.gender
  }

  predicate IsUpper(c: char) {
    'A' <= c <= 'Z'
  }

  /** Case mapping of one character, restricted to ASCII. */
  function LowerChar(c: char): (r: char)
    ensures !IsUpper(r)
    ensures !IsUpper(c) ==> r == c
    ensures IsUpper(c) ==> 'a' <= r <= 'z' && r as int - c as int == 'a' as int - 'A' as int
  {
    if IsUpper(c) then (c as int - 'A' as int + 'a' as int) as char else c
  }

  /** String.prototype.toLowerCase, restricted to ASCII letters. */
  function ToLower(s: string): (r: string)
    ensures |r| == |s|
  {
    if s == [] then [] else [LowerChar(s[0])] + ToLower(s[1..])
  }

  /** Lower-casing maps each character on its own and leaves no upper-case letter behind. */
  lemma {:induction false} ToLowerAt(s: string)
    ensures forall i :: 0 <= i < |s| ==> ToLower(s)[i] == LowerChar(s[i]) && !IsUpper(ToLower(s)[i])
  {
    if s != [] {
      ToLowerAt(s[1..]);
    }
  }

  lemma ToLowerIdempotent(s: string)
    ensures ToLower(ToLower(s)) == ToLower(s)
  {
    var once := ToLower(s);
    var twice := ToLower(once);
    ToLowerAt(s);
    ToLowerAt(once);
    assert forall i :: 0 <= i < |s| ==> twice[i] == once[i];
  }

  /** `pat` occurs in `text` starting at position `i`. */
  ghost predicate OccursAt(text: string, pat: string, i: int) {
    0 <= i && i + |pat| <= |text| && text[i..i + |pat|] == pat
  }

  /** `pat` occurs somewhere in `text`. */
  ghost predicate ContainsText(text: string, pat: string) {
    exists i :: OccursAt(text, pat, i)
  }

  predicate StartsWith(text: string, pat: string) {
    |pat| <= |text| && text[..|pat|] == pat
  }

  /** String.prototype.includes: does `pat` occur anywhere in `text`? */
  function Includes(text: string, pat: string): (r: bool)
    ensures pat == [] ==> r
    ensures r ==> |pat| <= |text|
  {
    StartsWith(text, pat) || (|text| > 0 && Includes(text[1..], pat))
  }

  /** Includes agrees with the definition of a substring: some position where `pat` occurs. */
  lemma IncludesIffOccurs(text: string, pat: string)
    ensures Includes(text, pat) <==> exists i :: OccursAt(text, pat, i)
  {
    if Includes(text, pat) {
      var i := IncludesWitness(text, pat);
    }
    forall i | OccursAt(text, pat, i)
      ensures Includes(text, pat)
    {
      OccursAtIncludes(text, pat, i);
    }
  }

  /** A position where an included `pat` occurs. */
  lemma {:induction false} IncludesWitness(text: string, pat: string) returns (i: nat)
    requires Includes(text, pat)
    ensures OccursAt(text, pat, i)
  {
    if StartsWith(text, pat) {
      i := 0;
    } else {
      var j := IncludesWitness(text[1..], pat);
      assert text[1..][j..j + |pat|] == text[j + 1..j + 1 + |pat|];
      i := j + 1;
    }
  }

  /** An occurrence anywhere makes Includes true. */
  lemma {:induction false} OccursAtIncludes(text: string, pat: string, i: int)
    requires OccursAt(text, pat, i)
    ensures Includes(text, pat)
  {
    if i > 0 {
      assert text[1..][i - 1..i - 1 + |pat|] == text[i..i + |pat|];
      OccursAtIncludes(text[1..], pat, i - 1);
    }
  }
}
