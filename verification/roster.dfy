/**
 The roster (class `Assignment2`): an ordered list of employee records with
 add, remove, lookup, update and total-salary operations. The list is a value:
 an operation that succeeds returns the new list, and one that fails returns
 the error Java throws, so the caller's list stays as it was.
 */
module Roster {
  import opened Wrappers
  import opened Employees

  /** The exceptions the roster throws: `IllegalArgumentException` for a null
      record or a reused ID, `NoSuchElementException` for a missing ID. */
  datatype RosterError =
    | InvalidInput
    | DuplicateId
    | NotFound(id: EmployeeId)

  /** The front-to-back scan every operation starts with: the position of the
      first record carrying `id`, if there is one. */
  function IndexOf(r: seq<Employee>, id: EmployeeId): (res: Option<nat>)
    ensures res.None? <==> !HasId(r, id)
    ensures res.Some? ==> FirstWithId(r, id, res.value)
  {
    if r == [] then None
    else if r[0].id == id then Some(0)
    else match IndexOf(r[1..], id)
      case None => None
      case Some(i) => Some(i + 1)
  }

  /** `addEmployee`: appends a record whose ID is not yet used. */
  function Add(r: seq<Employee>, e: Option<Employee>): (res: Result<seq<Employee>, RosterError>)
    ensures e.None? ==> res == Failure(InvalidInput)
    ensures e.Some? && HasId(r, e.value.id) ==> res == Failure(DuplicateId)
    ensures e.Some? && !HasId(r, e.value.id) ==> res == Success(r + [e.value])
    ensures res.Success? && UniqueIds(r) ==> UniqueIds(res.value) && |res.value| == |r| + 1
  {
    match e
    case None => Failure(InvalidInput)
    case Some(emp) =>
      if IndexOf(r, emp.id).Some? then Failure(DuplicateId)
      else
        UniqueIdsSnoc(r, emp);
        Success(r + [emp])
  }

  /** Appending a record with a fresh ID keeps the IDs unique. */
  lemma UniqueIdsSnoc(r: seq<Employee>, e: Employee)
    requires !HasId(r, e.id)
    ensures UniqueIds(r) ==> UniqueIds(r + [e])
  {
    var s := r + [e];
    if UniqueIds(r) {
      forall i, j | 0 <= i < j < |s|
        ensures s[i].id != s[j].id
      {
        assert s[i] == r[i];
        if j < |r| {
          assert s[j] == r[j];
        }
      }
    }
  }

  /** `removeEmployee`: deletes the first record carrying `id`, keeping the
      others in order. */
  function Remove(r: seq<Employee>, id: EmployeeId): (res: Result<seq<Employee>, RosterError>)
    ensures res.Failure? <==> !HasId(r, id)
    ensures res.Failure? ==> res.error == NotFound(id)
    ensures res.Success? ==> |res.value| == |r| - 1
    ensures res.Success? ==>
      exists i :: FirstWithId(r, id, i) && res.value == r[..i] + r[i + 1..]
    ensures res.Success? && UniqueIds(r) ==> UniqueIds(res.value) && !HasId(res.value, id)
  {
    match IndexOf(r, id)
    case None => Failure(NotFound(id))
    case Some(i) =>
      RemoveAtKeepsUnique(r, i);
      assert FirstWithId(r, id, i);
      Success(r[..i] + r[i + 1..])
  }

  /** Deleting position `i` from a list with unique IDs leaves unique IDs, none
      of which is the deleted record's. */
  lemma RemoveAtKeepsUnique(r: seq<Employee>, i: nat)
    requires i < |r|
    ensures UniqueIds(r) ==> UniqueIds(r[..i] + r[i + 1..]) && !HasId(r[..i] + r[i + 1..], r[i].id)
  {
    var s := r[..i] + r[i + 1..];
    assert forall k :: 0 <= k < |s| ==> s[k] == if k < i then r[k] else r[k + 1];
  }

  /** `displayEmployeeInfo` without the printing: the first record carrying
      `id`. */
  function Lookup(r: seq<Employee>, id: EmployeeId): (res: Result<Employee, RosterError>)
    ensures res.Failure? <==> !HasId(r, id)
    ensures res.Failure? ==> res.error == NotFound(id)
    ensures res.Success? ==> res.value.id == id && exists i :: FirstWithId(r, id, i) && res.value == r[i]
  {
    match IndexOf(r, id)
    case None => Failure(NotFound(id))
    case Some(i) => Success(r[i])
  }

  /** `updateEmployeeInfo`: rewrites the name, position and salary of the
      first record carrying `id`; its ID and every other record stay. */
  function Update(r: seq<Employee>, id: EmployeeId, name: string, position: string, salary: int)
    : (res: Result<seq<Employee>, RosterError>)
    ensures res.Failure? <==> !HasId(r, id)
    ensures res.Failure? ==> res.error == NotFound(id)
    ensures res.Success? ==> |res.value| == |r|
    ensures res.Success? ==> forall j :: 0 <= j < |r| ==> res.value[j].id == r[j].id
    ensures res.Success? ==>
      exists i :: FirstWithId(r, id, i) && res.value[i] == Employee(id, name, position, salary)
        && forall j :: 0 <= j < |r| && j != i ==> res.value[j] == r[j]
    ensures res.Success? && UniqueIds(r) ==> UniqueIds(res.value)
  {
    match IndexOf(r, id)
    case None => Failure(NotFound(id))
    case Some(i) =>
      var s := r[i := r[i].(name := name, position := position, salary := salary)];
      assert s[i] == Employee(id, name, position, salary);
      Success(s)
  }

  /** The sum of the salaries in `r`, the reference definition of the total. */
  function SalarySum(r: seq<Employee>): int
  {
    if r == [] then 0 else r[0].salary + SalarySum(r[1..])
  }

  /** The total of a concatenation is the sum of the totals. */
  lemma {:induction false} SalarySumConcat(a: seq<Employee>, b: seq<Employee>)
    ensures SalarySum(a + b) == SalarySum(a) + SalarySum(b)
  {
    if a != [] {
      assert (a + b)[0] == a[0];
      assert (a + b)[1..] == a[1..] + b;
      SalarySumConcat(a[1..], b);
    } else {
      assert a + b == b;
    }
  }

  /** `calculateTotalSalary`: adds up the salaries front to back. */
  method TotalSalary(r: seq<Employee>) returns (total: int)
    ensures total == SalarySum(r)
    ensures r == [] ==> total == 0
  {
    total := 0;
    var k := 0;
    while k < |r|
      invariant 0 <= k <= |r|
      invariant total == SalarySum(r[..k])
    {
      SalarySumConcat(r[..k], [r[k]]);
      assert r[..k + 1] == r[..k] + [r[k]];
      total := total + r[k].salary;
      k := k + 1;
    }
    assert r[..k] == r;
  }

  /** Taking out the record at position `j` lowers the total by its salary. */
  lemma {:induction false} SalarySumRemoveAt(b: seq<Employee>, j: nat)
    requires j < |b|
    ensures SalarySum(b) == b[j].salary + SalarySum(b[..j] + b[j + 1..])
  {
    assert b == b[..j] + [b[j]] + b[j + 1..];
    SalarySumConcat(b[..j] + [b[j]], b[j + 1..]);
    SalarySumConcat(b[..j], [b[j]]);
    SalarySumConcat(b[..j], b[j + 1..]);
  }

  /** Taking out position `j` takes exactly that record out of the multiset. */
  lemma MultisetRemoveAt(b: seq<Employee>, j: nat)
    requires j < |b|
    ensures multiset(b[..j] + b[j + 1..]) == multiset(b) - multiset{b[j]}
  {
    assert b == b[..j] + [b[j]] + b[j + 1..];
  }

  /** The same records in another order have the same total. */
  lemma {:induction false} SalarySumPermutation(a: seq<Employee>, b: seq<Employee>)
    requires multiset(a) == multiset(b)
    ensures SalarySum(a) == SalarySum(b)
    decreases |a|
  {
    if a != [] {
      assert a[0] in multiset(b);
      var j :| 0 <= j < |b| && b[j] == a[0];
      SalarySumRemoveAt(b, j);
      MultisetRemoveAt(b, j);
      assert a == [a[0]] + a[1..];
      assert multiset(a[1..]) == multiset(a) - multiset{a[0]};
      SalarySumPermutation(a[1..], b[..j] + b[j + 1..]);
    } else {
      assert |b| == |multiset(b)| == 0;
    }
  }

  /** A successful add raises the total by the new record's salary. */
  lemma TotalAfterAdd(r: seq<Employee>, e: Employee)
    requires !HasId(r, e.id)
    ensures Add(r, Some(e)).Success?
    ensures SalarySum(Add(r, Some(e)).value) == SalarySum(r) + e.salary
  {
    SalarySumConcat(r, [e]);
  }

  /** A successful remove lowers the total by the removed record's salary. */
  lemma {:induction false} TotalAfterRemove(r: seq<Employee>, id: EmployeeId)
    requires HasId(r, id)
    ensures Remove(r, id).Success? && Lookup(r, id).Success?
    ensures SalarySum(Remove(r, id).value) == SalarySum(r) - Lookup(r, id).value.salary
  {
    SalarySumRemoveAt(r, IndexOf(r, id).value);
  }

  /** Replacing the record at position `i` changes the total by the
      difference between the new and the old salary there. */
  lemma {:induction false} SalarySumReplace(r: seq<Employee>, i: nat, x: Employee)
    requires i < |r|
    ensures SalarySum(r[i := x]) == SalarySum(r) - r[i].salary + x.salary
  {
    var s := r[i := x];
    if i > 0 {
      assert s[1..] == r[1..][i - 1 := x];
      SalarySumReplace(r[1..], i - 1, x);
    } else {
      assert s[1..] == r[1..];
    }
  }

  /** A successful update changes the total by the difference between the new
      and the old salary of the record. */
  lemma {:induction false} TotalAfterUpdate(r: seq<Employee>, id: EmployeeId, name: string, position: string, salary: int)
    requires HasId(r, id)
    ensures Update(r, id, name, position, salary).Success? && Lookup(r, id).Success?
    ensures SalarySum(Update(r, id, name, position, salary).value)
         == SalarySum(r) - Lookup(r, id).value.salary + salary
  {
    var i := IndexOf(r, id).value;
    SalarySumReplace(r, i, r[i].(name := name, position := position, salary := salary));
  }

  /** After adding a record, looking up its ID finds it. */
  lemma LookupAfterAdd(r: seq<Employee>, e: Employee)
    requires Add(r, Some(e)).Success?
    ensures Lookup(Add(r, Some(e)).value, e.id) == Success(e)
  {
    var s := r + [e];
    assert s[|r|] == e;
    assert FirstWithId(s, e.id, |r|);
  }

  /** After removing an ID from a roster with unique IDs, looking it up fails. */
  lemma LookupAfterRemove(r: seq<Employee>, id: EmployeeId)
    requires UniqueIds(r) && Remove(r, id).Success?
    ensures Lookup(Remove(r, id).value, id) == Failure(NotFound(id))
  {
  }

  /** After updating an ID, looking it up yields the rewritten record. */
  lemma LookupAfterUpdate(r: seq<Employee>, id: EmployeeId, name: string, position: string, salary: int)
    requires Update(r, id, name, position, salary).Success?
    ensures Lookup(Update(r, id, name, position, salary).value, id)
         == Success(Employee(id, name, position, salary))
  {
    var i := IndexOf(r, id).value;
    var s := Update(r, id, name, position, salary).value;
    assert FirstWithId(s, id, i);
  }

  /** A run of `addEmployee` calls, stopping at the first exception as the
      demonstration's `try` block does. */
  function AddAll(r: seq<Employee>, es: seq<Employee>): (res: Result<seq<Employee>, RosterError>)
    decreases |es|
  {
    if es == [] then Success(r)
    else match Add(r, Some(es[0]))
      case Failure(err) => Failure(err)
      case Success(r') => AddAll(r', es[1..])
  }

  /** Adding records whose IDs are distinct and new succeeds, appends them all
      in order and keeps the IDs unique. */
  lemma {:induction false} AddAllFresh(r: seq<Employee>, es: seq<Employee>)
    requires UniqueIds(r + es)
    ensures AddAll(r, es) == Success(r + es)
    ensures UniqueIds(AddAll(r, es).value) && |AddAll(r, es).value| == |r| + |es|
    decreases |es|
  {
    if es != [] {
      assert (r + [es[0]]) + es[1..] == r + es;
      assert r + es == r + [es[0]] + es[1..];
      assert !HasId(r, es[0].id) by {
        var s := r + es;
        forall j | 0 <= j < |r|
          ensures r[j].id != es[0].id
        {
          assert s[j] == r[j] && s[|r|] == es[0];
        }
      }
      assert Add(r, Some(es[0])) == Success(r + [es[0]]);
      AddAllFresh(r + [es[0]], es[1..]);
    } else {
      assert r + es == r;
    }
  }

  /** Adding a record whose ID the roster already uses makes the whole run
      fail with a duplicate-ID error. */
  lemma AddAllDuplicate(r: seq<Employee>, e: Employee, es: seq<Employee>)
    requires HasId(r, e.id)
    ensures AddAll(r, [e] + es) == Failure(DuplicateId)
  {
    assert ([e] + es)[0] == e;
  }
}
