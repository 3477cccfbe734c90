/**
 `sortEmployeesBySalary`: `Collections.sort` with a comparator on salary, a
 stable sort into ascending salary order. The model sorts by insertion; the
 lemma `StableSortUnique` shows that every stable sort produces the same list,
 so the choice of algorithm does not matter.
 */
module Sorting {
  import opened Employees
  import Roster

  /** Salaries never decrease along `s`. */
  ghost predicate SortedBySalary(s: seq<Employee>) {
    forall i, j :: 0 <= i < j < |s| ==> s[i].salary <= s[j].salary
  }

  /** The records of `s` whose salary is `k`, in their order in `s`. */
  function WithSalary(s: seq<Employee>, k: int): seq<Employee>
  {
    if s == [] then []
    else (if s[0].salary == k then [s[0]] else []) + WithSalary(s[1..], k)
  }

  /** `out` keeps the relative order of every group of records of `s` that
      share a salary: the meaning of a stable sort. */
  ghost predicate StableFor(out: seq<Employee>, s: seq<Employee>) {
    forall k :: WithSalary(out, k) == WithSalary(s, k)
  }

  /** Places `x` just before the first record whose salary is at least its
      own, so that `x` stays ahead of records it ties with. */
  function Insert(x: Employee, s: seq<Employee>): (res: seq<Employee>)
    ensures |res| == |s| + 1
    ensures multiset(res) == multiset(s) + multiset{x}
  {
    if s == [] || x.salary <= s[0].salary then [x] + s
    else
      assert s == [s[0]] + s[1..];
      [s[0]] + Insert(x, s[1..])
  }

  /** Inserting into a sorted list keeps it sorted. */
  lemma {:induction false} InsertKeepsSorted(x: Employee, s: seq<Employee>)
    requires SortedBySalary(s)
    ensures SortedBySalary(Insert(x, s))
  {
    if s != [] && x.salary > s[0].salary {
      var t := Insert(x, s[1..]);
      InsertKeepsSorted(x, s[1..]);
      forall j | 0 <= j < |t|
        ensures s[0].salary <= t[j].salary
      {
        assert t[j] in multiset(s[1..]) + multiset{x};
        if t[j] != x {
          var m :| 0 <= m < |s[1..]| && s[1..][m] == t[j];
          assert s[m + 1] == t[j];
        }
      }
      var r := [s[0]] + t;
      forall i, j | 0 <= i < j < |r|
        ensures r[i].salary <= r[j].salary
      {
        assert r[j] == t[j - 1];
        if i > 0 {
          assert r[i] == t[i - 1];
        }
      }
    }
  }

  /** Sorts `s` into ascending salary order, records with equal salaries
      keeping their order. */
  function SortBySalary(s: seq<Employee>): (res: seq<Employee>)
    ensures |res| == |s|
    ensures multiset(res) == multiset(s)
    ensures SortedBySalary(res)
  {
    if s == [] then []
    else
      assert s == [s[0]] + s[1..];
      InsertKeepsSorted(s[0], SortBySalary(s[1..]));
      Insert(s[0], SortBySalary(s[1..]))
  }

  /** Inserting `x` puts it at the front of the records that share its
      salary and leaves every other salary group as it was. */
  lemma {:induction false} InsertWithSalary(x: Employee, s: seq<Employee>, k: int)
    ensures WithSalary(Insert(x, s), k) == (if x.salary == k then [x] else []) + WithSalary(s, k)
  {
    if s == [] || x.salary <= s[0].salary {
      assert ([x] + s)[1..] == s;
    } else {
      var t := Insert(x, s[1..]);
      assert ([s[0]] + t)[1..] == t;
      InsertWithSalary(x, s[1..], k);
    }
  }

  /** The sort is stable. */
  lemma {:induction false} SortIsStable(s: seq<Employee>)
    ensures StableFor(SortBySalary(s), s)
  {
    if s != [] {
      SortIsStable(s[1..]);
      forall k
        ensures WithSalary(SortBySalary(s), k) == WithSalary(s, k)
      {
        InsertWithSalary(s[0], SortBySalary(s[1..]), k);
      }
    }
  }

  /** Every record picked out by `WithSalary` comes from `s` and has salary `k`. */
  lemma {:induction false} WithSalaryMembers(s: seq<Employee>, k: int, y: Employee)
    ensures y in WithSalary(s, k) <==> y in s && y.salary == k
  {
    if s != [] {
      WithSalaryMembers(s[1..], k, y);
      assert s == [s[0]] + s[1..];
    }
  }

  /** A list with the same salary groups as the empty list is empty. */
  lemma StableForEmpty(a: seq<Employee>, b: seq<Employee>)
    requires StableFor(a, b)
    ensures a == [] <==> b == []
  {
    if b != [] {
      assert WithSalary(b, b[0].salary) != [];
    }
    if a != [] {
      assert WithSalary(a, a[0].salary) != [];
    }
  }

  /** Sorted lists with the same salary groups start with the same record:
      the first record of the lowest salary group. */
  lemma StableSortSameHead(a: seq<Employee>, b: seq<Employee>)
    requires a != [] && b != []
    requires SortedBySalary(a) && SortedBySalary(b)
    requires StableFor(a, b)
    ensures a[0] == b[0]
  {
    var ka, kb := a[0].salary, b[0].salary;
    assert WithSalary(a, ka) == WithSalary(b, ka);
    assert a[0] in WithSalary(a, ka);
    WithSalaryMembers(b, ka, a[0]);
    assert WithSalary(a, kb) == WithSalary(b, kb);
    assert b[0] in WithSalary(b, kb);
    WithSalaryMembers(a, kb, b[0]);
    var i :| 0 <= i < |a| && a[i] == b[0];
    var j :| 0 <= j < |b| && b[j] == a[0];
    assert ka <= a[i].salary && kb <= b[j].salary;
    assert ka == kb;
    assert WithSalary(a, ka) == [a[0]] + WithSalary(a[1..], ka);
    assert WithSalary(b, ka) == [b[0]] + WithSalary(b[1..], ka);
    assert WithSalary(a, ka)[0] == a[0] && WithSalary(b, ka)[0] == b[0];
  }

  /** Lists with the same salary groups and the same first record have tails
      with the same salary groups. */
  lemma StableForTails(a: seq<Employee>, b: seq<Employee>)
    requires a != [] && b != [] && a[0] == b[0]
    requires StableFor(a, b)
    ensures StableFor(a[1..], b[1..])
  {
    forall k
      ensures WithSalary(a[1..], k) == WithSalary(b[1..], k)
    {
      var h := if a[0].salary == k then [a[0]] else [];
      assert WithSalary(a, k) == h + WithSalary(a[1..], k);
      assert WithSalary(b, k) == h + WithSalary(b[1..], k);
      assert WithSalary(a, k) == WithSalary(b, k);
      assert WithSalary(a, k)[|h|..] == WithSalary(a[1..], k);
      assert WithSalary(b, k)[|h|..] == WithSalary(b[1..], k);
    }
  }

  /** Two sorted lists with the same salary groups, each in the same order,
      are equal: there is only one stable sort of a list. */
  lemma {:induction false} StableSortUnique(a: seq<Employee>, b: seq<Employee>)
    requires SortedBySalary(a) && SortedBySalary(b)
    requires StableFor(a, b)
    ensures a == b
    decreases |a|
  {
    StableForEmpty(a, b);
    if a != [] {
      StableSortSameHead(a, b);
      StableForTails(a, b);
      StableSortUnique(a[1..], b[1..]);
      assert a == [a[0]] + a[1..] && b == [b[0]] + b[1..];
    }
  }

  /** Any stable sort of `s` into ascending salary order is `SortBySalary(s)`. */
  lemma SortCharacterized(s: seq<Employee>, t: seq<Employee>)
    requires SortedBySalary(t) && StableFor(t, s)
    ensures t == SortBySalary(s)
  {
    SortIsStable(s);
    StableSortUnique(t, SortBySalary(s));
  }

  /** Sorting a sorted list changes nothing. */
  lemma {:induction false} SortSortedIsIdentity(s: seq<Employee>)
    requires SortedBySalary(s)
    ensures SortBySalary(s) == s
  {
    SortIsStable(s);
    StableSortUnique(SortBySalary(s), s);
  }

  /** Sorting twice gives the same list as sorting once. */
  lemma {:induction false} SortIdempotent(s: seq<Employee>)
    ensures SortBySalary(SortBySalary(s)) == SortBySalary(s)
  {
    SortSortedIsIdentity(SortBySalary(s));
  }

  /** Inserting a record with a fresh ID keeps the IDs unique. */
  lemma {:induction false} InsertKeepsUniqueIds(x: Employee, s: seq<Employee>)
    requires UniqueIds(s) && !HasId(s, x.id)
    ensures UniqueIds(Insert(x, s))
  {
    UniqueIdsCons(x, s);
    if s != [] && x.salary > s[0].salary {
      assert s == [s[0]] + s[1..];
      UniqueIdsCons(s[0], s[1..]);
      InsertKeepsUniqueIds(x, s[1..]);
      var t := Insert(x, s[1..]);
      SameRecordsSameIds(t, s[1..] + [x], s[0].id);
      assert !HasId(s[1..] + [x], s[0].id) by {
        var u := s[1..] + [x];
        forall j | 0 <= j < |u|
          ensures u[j].id != s[0].id
        {
          if j < |s| - 1 {
            assert u[j] == s[1..][j];
          } else {
            assert u[j] == x && s[0] in s;
          }
        }
      }
      UniqueIdsCons(s[0], t);
    }
  }

  /** Sorting keeps every ID that is in use, and adds none. */
  lemma SortKeepsId(s: seq<Employee>, id: EmployeeId)
    ensures HasId(SortBySalary(s), id) <==> HasId(s, id)
  {
    SameRecordsSameIds(SortBySalary(s), s, id);
  }

  /** Sorting keeps the roster's invariant. */
  lemma {:induction false} SortKeepsUniqueIds(s: seq<Employee>)
    requires UniqueIds(s)
    ensures UniqueIds(SortBySalary(s))
  {
    if s != [] {
      assert s == [s[0]] + s[1..];
      UniqueIdsCons(s[0], s[1..]);
      SortKeepsUniqueIds(s[1..]);
      SortKeepsId(s[1..], s[0].id);
      InsertKeepsUniqueIds(s[0], SortBySalary(s[1..]));
    }
  }

  /** Sorting does not change the total salary. */
  lemma SortKeepsTotal(s: seq<Employee>)
    ensures Roster.SalarySum(SortBySalary(s)) == Roster.SalarySum(s)
  {
    Roster.SalarySumPermutation(SortBySalary(s), s);
  }
}
