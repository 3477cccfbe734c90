/**
 The employee record (the `Employee` interface together with its one
 implementation `FullTimeEmployee`) and the predicates about identifiers that
 the roster's operations rely on.
 */
module Employees {

  /** Java's 32-bit `int`, the type of an employee ID. IDs are only compared
      for equality, so no arithmetic on them needs modelling. */
  type EmployeeId = i: int | -0x8000_0000 <= i < 0x8000_0000

  /** One employee. The salary is a Java `double`; it is modelled as an exact
      integer so that sums and comparisons are exact. */
  datatype Employee = Employee(id: EmployeeId, name: string, position: string, salary: int)

  /** Some record of `r` carries the identifier `id`. */
  ghost predicate HasId(r: seq<Employee>, id: EmployeeId) {
    exists i :: 0 <= i < |r| && r[i].id == id
  }

  /** The roster's invariant: no two records share an identifier. */
  ghost predicate UniqueIds(r: seq<Employee>) {
    forall i, j :: 0 <= i < j < |r| ==> r[i].id != r[j].id
  }

  /** `i` is the position of the first record of `r` with identifier `id`,
      the one a front-to-back scan stops at. */
  ghost predicate FirstWithId(r: seq<Employee>, id: EmployeeId, i: int) {
    && 0 <= i < |r|
    && r[i].id == id
    && forall j :: 0 <= j < i ==> r[j].id != id
  }

  /** A list starting with `h` has unique identifiers exactly when its tail
      does and does not use `h`'s identifier. */
  lemma UniqueIdsCons(h: Employee, t: seq<Employee>)
    ensures UniqueIds([h] + t) <==> UniqueIds(t) && !HasId(t, h.id)
  {
    var r := [h] + t;
    if UniqueIds(r) {
      forall j | 0 <= j < |t|
        ensures t[j].id != h.id
      {
        assert r[0] == h && r[j + 1] == t[j];
      }
      forall i, j | 0 <= i < j < |t|
        ensures t[i].id != t[j].id
      {
        assert r[i + 1] == t[i] && r[j + 1] == t[j];
      }
    }
    if UniqueIds(t) && !HasId(t, h.id) {
      forall i, j | 0 <= i < j < |r|
        ensures r[i].id != r[j].id
      {
        assert r[j] == t[j - 1];
        if i > 0 {
          assert r[i] == t[i - 1];
        }
      }
    }
  }

  /** Two lists holding the same records (in any order) use the same
      identifiers. */
  lemma SameRecordsSameIds(a: seq<Employee>, b: seq<Employee>, id: EmployeeId)
    requires multiset(a) == multiset(b)
    ensures HasId(a, id) <==> HasId(b, id)
  {
    if HasId(a, id) {
      var i :| 0 <= i < |a| && a[i].id == id;
      assert a[i] in multiset(b);
      var j :| 0 <= j < |b| && b[j] == a[i];
    }
    if HasId(b, id) {
      var j :| 0 <= j < |b| && b[j].id == id;
      assert b[j] in multiset(a);
      var i :| 0 <= i < |a| && a[i] == b[j];
    }
  }
}
