# Employee roster manager in Dafny

This project models the employee roster manager `Assignment2`. The roster is an
ordered list of employee records. Each record has an ID, a name, a position and
a salary. The roster supports these operations:

- add, with a uniqueness check on the ID;
- remove by ID;
- lookup by ID (`displayEmployeeInfo` without the printing);
- update of name, position and salary by ID;
- total salary;
- stable sort by salary;
- keyword search over name, position and salary text.

The shared invariant is that no two records share an ID (`UniqueIds`).

The model is functional. The roster is a `seq<Employee>`. Each mutating
operation returns `Result<seq<Employee>, RosterError>`. `Success` carries the
new list. `Failure` carries the exception Java would throw:

- `InvalidInput` for a null record (`IllegalArgumentException`);
- `DuplicateId` for a reused ID (`IllegalArgumentException`);
- `NotFound(id)` for a missing ID (`NoSuchElementException`).

On failure no new list exists, so the caller's list is unchanged, as in Java.
Every operation finds its record with the same front-to-back scan, `IndexOf`.
Its contract ties the scan to the specification predicates `HasId` and
`FirstWithId`.

Modules:

- `Wrappers` (wrappers.dfy): `Option` and `Result`.
- `Employees` (employees.dfy): the record, which collapses the `Employee`
  interface and its only implementation `FullTimeEmployee` into one type. It
  also holds the ID predicates.
- `Text` (text.dfy): `String.contains` as a scan, proved equal to "occurs as a
  substring".
- `Roster` (roster.dfy): add, remove, lookup, update and total salary.
- `Sorting` (sorting.dfy): `Collections.sort` by salary, as a stable insertion
  sort.
- `Search` (search.dfy): `searchEmployees`.
- `Scenario` (scenario.dfy): the demonstration in `main`, replayed as lemmas.

Modelling choices:

- Salary is a Java `double`. Here it is an exact `int`, so sums and
  comparisons are exact.
- The ID is a Java `int`, modelled as the subset type `EmployeeId` of 32-bit
  values. IDs are only compared, never computed with.
- The rendering `String.valueOf(double)` used by search is a function
  parameter `salaryText` of `SearchEmployees`.
- `Scenario.WholeSalaryText` is one concrete rendering: Java's output for
  whole numbers of magnitude below 10^7 (digits followed by ".0"). Only the
  scenario uses it.
- A null record passed to add is `None` of an `Option`.
- Stability has its own definition. `StableFor(out, in)` holds when, for every
  salary `k`, the records with salary `k` appear in the same order in `out` as
  in `in`.
- `StableSortUnique` proves that only one sorted list is stable for a given
  input. So the insertion sort used here gives exactly what Java's merge-based
  `Collections.sort` gives.

Two behaviours of the code may be unexpected. The model keeps both:

- Searching with the empty keyword returns every record, including records
  with empty fields, because every string contains "".
- `saveToFile` and `loadFromFile` print their errors instead of throwing
  them. Both are left out anyway (see below).

## Model

| member | source | states |
|---|---|---|
| Roster.IndexOf | Assignment2.java:76-83 | The front-to-back scan returns no position exactly when no record has the ID; otherwise it returns the first position holding that ID. |
| Roster.Add | Assignment2.java:62-72 | A null record fails with `InvalidInput`. A record whose ID is already used fails with `DuplicateId`. Otherwise the result is exactly the old list with the record appended at the end. Unique IDs stay unique and the length grows by one. |
| Roster.Remove | Assignment2.java:75-84 | Fails with `NotFound(id)` exactly when no record has the ID. Otherwise it deletes the first record with that ID, keeps the others in order, and shortens the list by one. On a list with unique IDs the result keeps unique IDs and no longer holds the ID. |
| Roster.Lookup | Assignment2.java:87-95 | Fails with `NotFound(id)` exactly when no record has the ID. Otherwise it returns the first record with that ID. |
| Roster.Update | Assignment2.java:130-140 | Fails with `NotFound(id)` exactly when no record has the ID. Otherwise the first record with that ID gets the new name, position and salary and keeps its ID. The length, every other record, every ID and the uniqueness of IDs are unchanged. |
| Roster.TotalSalary | Assignment2.java:105-111 | The accumulating loop returns the sum of all salaries, and 0 for an empty roster. |
| Roster.SalarySumConcat | Assignment2.java:105-111 | The total of two lists put together is the sum of their totals. |
| Roster.SalarySumPermutation | Assignment2.java:105-111 | Two lists holding the same records in any order have the same total. |
| Roster.TotalAfterAdd | Assignment2.java:62-72 | Adding a record with a fresh ID succeeds and raises the total by that record's salary. |
| Roster.TotalAfterRemove | Assignment2.java:75-84 | Removing a present ID succeeds and lowers the total by the salary of the record that lookup finds for it. |
| Roster.TotalAfterUpdate | Assignment2.java:130-140 | Updating a present ID changes the total by the new salary minus the record's old salary. |
| Roster.LookupAfterAdd | Assignment2.java:62-72 | After a successful add, looking up the new ID returns the added record. |
| Roster.LookupAfterRemove | Assignment2.java:75-95 | On a roster with unique IDs, after a successful remove, looking up the removed ID fails with `NotFound`. |
| Roster.LookupAfterUpdate | Assignment2.java:130-140 | After a successful update, looking up the ID returns the record with the new name, position and salary. |
| Roster.AddAllFresh | Assignment2.java:62-72 | A run of adds whose IDs are distinct and not yet used succeeds. It appends all the records in order, so the length grows by their number, and the IDs stay unique. |
| Roster.AddAllDuplicate | Assignment2.java:66-69 | A run of adds that starts with an already-used ID fails with `DuplicateId`. |
| Employees.UniqueIdsCons | Assignment2.java:66-71 | A list with a record in front has unique IDs exactly when its tail has unique IDs and the tail does not use the front record's ID. |
| Employees.SameRecordsSameIds | Assignment2.java:114-116 | Two lists holding the same records use the same IDs. |
| Sorting.Insert | Assignment2.java:115 | Inserting a record adds exactly that record to the list's contents. |
| Sorting.InsertKeepsSorted | Assignment2.java:115 | Inserting into a list sorted by salary leaves it sorted. |
| Sorting.SortBySalary | Assignment2.java:114-116 | The result is in ascending salary order and is a permutation of the input, of the same length. |
| Sorting.InsertWithSalary | Assignment2.java:115 | An inserted record goes ahead of the records it ties with, and every other salary group is untouched. |
| Sorting.SortIsStable | Assignment2.java:114-116 | The sort is stable: records with equal salaries keep their prior relative order. |
| Sorting.WithSalaryMembers | Assignment2.java:115 | A salary group holds exactly the list's records with that salary. |
| Sorting.StableSortUnique | Assignment2.java:115 | Two sorted lists with the same salary groups, each group in the same order, are equal. So any stable sort, such as Java's, gives the same result. |
| Sorting.SortCharacterized | Assignment2.java:114-116 | Every sorted, stable rearrangement of a list equals `SortBySalary` of it. |
| Sorting.SortSortedIsIdentity | Assignment2.java:114-116 | Sorting a list that is already sorted by salary leaves it unchanged. |
| Sorting.SortIdempotent | Assignment2.java:114-116 | Sorting twice gives the same list as sorting once. |
| Sorting.InsertKeepsUniqueIds | Assignment2.java:115 | Inserting a record with a fresh ID into a list with unique IDs keeps the IDs unique. |
| Sorting.SortKeepsId | Assignment2.java:114-116 | Sorting keeps every ID in use and introduces none. |
| Sorting.SortKeepsUniqueIds | Assignment2.java:114-116 | Sorting a roster with unique IDs keeps them unique. |
| Sorting.SortKeepsTotal | Assignment2.java:105-116 | Sorting does not change the total salary. |
| Text.ContainsIffOccurs | Assignment2.java:122 | The `contains` scan succeeds exactly when the keyword occurs at some position of the string. |
| Text.ContainsEmpty | Assignment2.java:122 | Every string contains the empty keyword. |
| Text.ContainsBoundsLength | Assignment2.java:122 | A string only contains keywords no longer than itself. |
| Text.MissingCharNotContained | Assignment2.java:122 | A keyword with a character the string lacks is not contained in the string. |
| Search.SubsequenceMembers | Assignment2.java:119-127 | Every element of a subsequence belongs to the whole list. |
| Search.SubsequenceMultiset | Assignment2.java:119-127 | A subsequence holds each record at most as often as the whole list. |
| Search.SearchEmployees | Assignment2.java:119-127 | The result is a subsequence of the roster and keeps roster order. Every returned record matches the keyword in its name, position or salary text. Every matching record of the roster is returned. |
| Search.SearchCounts | Assignment2.java:119-127 | On any roster, even one with repeated records, the result holds each matching record exactly as often as the roster does, and no other record. |
| Search.SearchCharacterized | Assignment2.java:119-127 | On any roster, even one with repeated records, a subsequence equals the search result when it holds each matching record as often as the roster does and holds nothing else. So the result is exactly the matches, in roster order. |
| Search.SearchEmptyKeyword | Assignment2.java:119-127 | Searching for the empty keyword returns the whole roster. |
| Search.SearchNoHit | Assignment2.java:119-127 | When no record matches, the result is empty. |
| Search.SearchLongKeyword | Assignment2.java:122 | A keyword longer than every name, position and salary text finds nothing. |
| Scenario.ScenarioHires | Assignment2.java:168-170 | The demonstration's three adds succeed and give John, Alice, Bob in that order. |
| Scenario.ScenarioLookupAndTotal | Assignment2.java:178-181 | Looking up ID 2 returns Alice, and the total salary is 165000. |
| Scenario.ScenarioSort | Assignment2.java:184 | Sorting by salary gives John (50000), Bob (55000), Alice (60000). |
| Scenario.ScenarioUpdateAndRemove | Assignment2.java:189-194 | Updating ID 1 rewrites John in place as "John Smith", "Senior Manager", 60000. Removing ID 3 leaves two records, and ID 3 is then not found. |
| Scenario.MainRun | Assignment2.java:168-194 | The demonstration as one chained run, each step starting from the roster the previous one left. The hires succeed, ID 2 is Alice and the total is 165000. The sort gives John, Bob, Alice. Updating ID 1 yields "John Smith". Removing ID 3 leaves two records, and ID 3 is then not found. |
| Scenario.SalaryTextSearch | Assignment2.java:122 | With Java's rendering of whole salaries, searching "5000" returns John and Bob through their salary texts "50000.0" and "55000.0". |

## Left out

- `saveToFile` and `loadFromFile` (Assignment2.java:143-160) are left out. They do file I/O through Java object serialization, a library whose format is not part of this model. Their errors are printed, not returned, so they have no outcome to model.
- `displayAllEmployees` and the printing in `displayEmployeeInfo` are left out, as is all other console output. Listing all records is the roster list itself. Displaying one record is `Lookup`.
- `FullTimeEmployee.toString` (Assignment2.java:48-50) is left out. It only renders a record for display, and its salary part depends on Java's `double` formatting.
- `main` (Assignment2.java:162-205) is console glue. Its steps are restated as the `Scenario` lemmas. The save and reload at its end are not.
- IEEE-754 `double` salaries are left out: rounding, summation order, NaN and negative zero. Salaries are exact integers instead.
- `String.valueOf(double)` is not modelled. Search takes the rendering as a parameter, and `Scenario.WholeSalaryText` covers only whole numbers below 10^7 in magnitude.
- Java `null` is left out, except for the null record passed to add. A null name or position in search would throw `NullPointerException` in Java. Records here cannot be null.
- Java object aliasing is left out. Java's search results and the roster share the same record objects, so a later update shows through both. Here records are values.
- Repeated IDs can reach a Java roster by two routes: `loadFromFile`, and changing the public field `employeeID` (Assignment2.java:15) through a reference kept after `addEmployee` stored it (Assignment2.java:71). Both routes are left out, with persistence and aliasing. The model itself accepts any list. Remove, lookup and update act on the first matching record, exactly as the Java loops do.
- Roster.LookupAfterRemove: assumes the roster invariant `UniqueIds`. With a repeated ID, Java's remove deletes only the first match, and a later lookup finds the second one.
- Strings are sequences of Unicode scalar values, while a Java `String` is a sequence of UTF-16 code units and `contains` (Assignment2.java:122) matches code units. Text with a lone surrogate is not covered. Neither is a keyword that matches half of a surrogate pair. For well-formed text the two kinds of matching agree.
