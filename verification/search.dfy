/**
 `searchEmployees`: the records whose name, position or salary text contains a
 keyword. How Java renders a `double` salary as text (`String.valueOf`) is not
 modelled; the rendering is the parameter `salaryText`.
 */
module Search {
  import opened Employees
  import opened Text

  /** `e` is a hit for `keyword`: its name, its position or its salary's text
      contains the keyword, case-sensitively. */
  predicate Matches(e: Employee, keyword: string, salaryText: int -> string) {
    || Contains(e.name, keyword)
    || Contains(e.position, keyword)
    || Contains(salaryText(e.salary), keyword)
  }

  /** `a` can be obtained from `b` by deleting elements. */
  ghost predicate IsSubsequence(a: seq<Employee>, b: seq<Employee>)
    decreases |b|
  {
    if a == [] then true
    else if b == [] then false
    else (a[0] == b[0] && IsSubsequence(a[1..], b[1..])) || IsSubsequence(a, b[1..])
  }

  /** Every element of a subsequence is an element of the whole. */
  lemma {:induction false} SubsequenceMembers(a: seq<Employee>, b: seq<Employee>, y: Employee)
    requires IsSubsequence(a, b)
    ensures y in a ==> y in b
    decreases |b|
  {
    if a != [] && b != [] {
      if a[0] == b[0] && IsSubsequence(a[1..], b[1..]) {
        SubsequenceMembers(a[1..], b[1..], y);
        assert a == [a[0]] + a[1..];
      } else {
        SubsequenceMembers(a, b[1..], y);
      }
      assert b == [b[0]] + b[1..];
    }
  }

  /** A subsequence holds each element at most as often as the whole. */
  lemma {:induction false} SubsequenceMultiset(a: seq<Employee>, b: seq<Employee>)
    requires IsSubsequence(a, b)
    ensures multiset(a) <= multiset(b)
    decreases |b|
  {
    if a != [] && b != [] {
      assert b == [b[0]] + b[1..];
      if a[0] == b[0] && IsSubsequence(a[1..], b[1..]) {
        SubsequenceMultiset(a[1..], b[1..]);
        assert a == [a[0]] + a[1..];
      } else {
        SubsequenceMultiset(a, b[1..]);
      }
    }
  }

  /** Scans the roster front to back and keeps the hits, in roster order. */
  function SearchEmployees(r: seq<Employee>, keyword: string, salaryText: int -> string)
    : (res: seq<Employee>)
    ensures IsSubsequence(res, r)
    ensures forall k :: 0 <= k < |res| ==> Matches(res[k], keyword, salaryText)
    ensures forall i :: 0 <= i < |r| && Matches(r[i], keyword, salaryText) ==> r[i] in res
  {
    if r == [] then []
    else
      var rest := SearchEmployees(r[1..], keyword, salaryText);
      assert r == [r[0]] + r[1..];
      assert forall i :: 1 <= i < |r| ==> r[i] == r[1..][i - 1];
      if Matches(r[0], keyword, salaryText) then
        assert ([r[0]] + rest)[1..] == rest;
        [r[0]] + rest
      else rest
  }

  /** The search keeps every hit as often as the roster holds it and drops
      every other record, so a roster with repeated records is searched
      exactly too. */
  lemma {:induction false} SearchCounts(r: seq<Employee>, keyword: string, salaryText: int -> string)
    ensures forall y :: multiset(SearchEmployees(r, keyword, salaryText))[y]
                     == if Matches(y, keyword, salaryText) then multiset(r)[y] else 0
  {
    if r != [] {
      SearchCounts(r[1..], keyword, salaryText);
      assert r == [r[0]] + r[1..];
    }
  }

  /** The search result is the only subsequence of the roster that holds
      every hit as often as the roster does and nothing else: the hits, in
      roster order. No uniqueness of IDs is needed. */
  lemma {:induction false} SearchCharacterized(
    r: seq<Employee>, keyword: string, salaryText: int -> string, t: seq<Employee>)
    requires IsSubsequence(t, r)
    requires forall y :: multiset(t)[y] == if Matches(y, keyword, salaryText) then multiset(r)[y] else 0
    ensures t == SearchEmployees(r, keyword, salaryText)
    decreases |r|
  {
    if r == [] {
      return;
    }
    var x, r' := r[0], r[1..];
    assert r == [x] + r';
    assert forall y :: multiset(r)[y] == multiset(r')[y] + (if y == x then 1 else 0);
    if Matches(x, keyword, salaryText) {
      if !(t != [] && t[0] == x && IsSubsequence(t[1..], r')) {
        assert IsSubsequence(t, r');
        SubsequenceMultiset(t, r');
        assert false;
      }
      assert t == [x] + t[1..];
      assert forall y :: multiset(t)[y] == multiset(t[1..])[y] + (if y == x then 1 else 0);
      SearchCharacterized(r', keyword, salaryText, t[1..]);
    } else {
      if t != [] && t[0] == x {
        assert false;
      }
      if t != [] {
        assert IsSubsequence(t, r');
      }
      SearchCharacterized(r', keyword, salaryText, t);
    }
  }

  /** Every string contains the empty keyword, so searching for it returns
      the whole roster. */
  lemma {:induction false} SearchEmptyKeyword(r: seq<Employee>, salaryText: int -> string)
    ensures SearchEmployees(r, "", salaryText) == r
  {
    if r != [] {
      ContainsEmpty(r[0].name);
      SearchEmptyKeyword(r[1..], salaryText);
      assert r == [r[0]] + r[1..];
    }
  }

  /** A keyword no record matches gives an empty result. */
  lemma SearchNoHit(r: seq<Employee>, keyword: string, salaryText: int -> string)
    requires forall i :: 0 <= i < |r| ==> !Matches(r[i], keyword, salaryText)
    ensures SearchEmployees(r, keyword, salaryText) == []
  {
    var res := SearchEmployees(r, keyword, salaryText);
    if res != [] {
      SubsequenceMembers(res, r, res[0]);
      assert false;
    }
  }

  /** A keyword longer than every name, position and salary text finds
      nothing. */
  lemma SearchLongKeyword(r: seq<Employee>, keyword: string, salaryText: int -> string)
    requires forall i :: 0 <= i < |r| ==>
      |keyword| > |r[i].name| && |keyword| > |r[i].position| && |keyword| > |salaryText(r[i].salary)|
    ensures SearchEmployees(r, keyword, salaryText) == []
  {
    forall i | 0 <= i < |r|
      ensures !Matches(r[i], keyword, salaryText)
    {
      ContainsBoundsLength(r[i].name, keyword);
      ContainsBoundsLength(r[i].position, keyword);
      ContainsBoundsLength(salaryText(r[i].salary), keyword);
    }
    SearchNoHit(r, keyword, salaryText);
  }
}
