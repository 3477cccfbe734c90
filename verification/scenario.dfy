/**
 The demonstration in `Assignment2.main`, replayed on the model: three hires,
 a lookup, the total, a sort, an update and a removal.
 */
module Scenario {
  import opened Wrappers
  import opened Employees
  import opened Roster
  import opened Sorting
  import opened Search
  import opened Text

  const John := Employee(1, "John Doe", "Manager", 50000)
  const Alice := Employee(2, "Alice Smith", "Developer", 60000)
  const Bob := Employee(3, "Bob Johnson", "Designer", 55000)
  const JohnSmith := Employee(1, "John Smith", "Senior Manager", 60000)

  /** The decimal digits of `n`. */
  function DecimalDigits(n: nat): string
    decreases n
  {
    (if n < 10 then "" else DecimalDigits(n / 10)) + ["0123456789"[n % 10]]
  }

  /** How Java renders a whole-number `double` of magnitude below 10^7:
      its digits followed by ".0". Larger magnitudes switch to scientific
      notation, which the demonstration never reaches. */
  function WholeSalaryText(x: int): string {
    if x < 0 then "-" + DecimalDigits(-x) + ".0" else DecimalDigits(x) + ".0"
  }

  /** The three hires succeed and keep their order. */
  lemma ScenarioHires()
    ensures AddAll([], [John, Alice, Bob]) == Success([John, Alice, Bob])
  {
    AddAllFresh([], [John, Alice, Bob]);
    assert [] + [John, Alice, Bob] == [John, Alice, Bob];
  }

  /** Looking up ID 2 finds Alice, and the total salary is 165000. */
  lemma ScenarioLookupAndTotal()
    ensures Lookup([John, Alice, Bob], 2) == Success(Alice)
    ensures SalarySum([John, Alice, Bob]) == 165000
  {
    assert [John, Alice, Bob][1..] == [Alice, Bob];
    assert [Alice, Bob][1..] == [Bob];
    assert SalarySum([Bob]) == 55000;
    assert IndexOf([Alice, Bob], 2) == Some(0);
  }

  /** Sorting by salary gives John, Bob, Alice. */
  lemma ScenarioSort()
    ensures SortBySalary([John, Alice, Bob]) == [John, Bob, Alice]
  {
    assert [John, Alice, Bob][1..] == [Alice, Bob];
    assert [Alice, Bob][1..] == [Bob];
    assert SortBySalary([Bob]) == [Bob];
    assert SortBySalary([Alice, Bob]) == [Bob, Alice];
  }

  /** Updating ID 1 rewrites John in place; removing ID 3 drops Bob, after
      which ID 3 is not found. */
  lemma ScenarioUpdateAndRemove()
    ensures Update([John, Bob, Alice], 1, "John Smith", "Senior Manager", 60000)
         == Success([JohnSmith, Bob, Alice])
    ensures Remove([JohnSmith, Bob, Alice], 3) == Success([JohnSmith, Alice])
    ensures Lookup([JohnSmith, Alice], 3) == Failure(NotFound(3))
  {
    assert [JohnSmith, Bob, Alice][1..] == [Bob, Alice];
    assert [JohnSmith, Alice][1..] == [Alice];
    assert IndexOf([John, Bob, Alice], 1) == Some(0);
    assert [John, Bob, Alice][0 := JohnSmith] == [JohnSmith, Bob, Alice];
    assert IndexOf([Bob, Alice], 3) == Some(0);
    assert IndexOf([JohnSmith, Bob, Alice], 3) == Some(1);
    assert [JohnSmith, Bob, Alice][..1] + [JohnSmith, Bob, Alice][2..] == [JohnSmith, Alice];
    assert !HasId([JohnSmith, Alice], 3);
  }

  /** The demonstration as one run: each step starts from the roster the
      previous step left. The hires succeed; ID 2 is Alice; the total is
      165000; the sort gives John, Bob, Alice; updating ID 1 rewrites John;
      removing ID 3 leaves two records and ID 3 is no longer found. */
  lemma MainRun()
    ensures var hired := AddAll([], [John, Alice, Bob]);
      && hired.Success?
      && Lookup(hired.value, 2) == Success(Alice)
      && SalarySum(hired.value) == 165000
      && var sorted := SortBySalary(hired.value);
      && sorted == [John, Bob, Alice]
      && var updated := Update(sorted, 1, "John Smith", "Senior Manager", 60000);
      && updated.Success?
      && Lookup(updated.value, 1) == Success(JohnSmith)
      && var removed := Remove(updated.value, 3);
      && removed.Success?
      && |removed.value| == 2
      && Lookup(removed.value, 3) == Failure(NotFound(3))
  {
    ScenarioHires();
    ScenarioLookupAndTotal();
    ScenarioSort();
    ScenarioUpdateAndRemove();
    LookupAfterUpdate([John, Bob, Alice], 1, "John Smith", "Senior Manager", 60000);
  }

  /** Searching "5000" matches salaries 50000 and 55000 through their text
      "50000.0" and "55000.0", though no name or position contains it. */
  lemma SalaryTextSearch()
    ensures SearchEmployees([John, Alice, Bob], "5000", WholeSalaryText) == [John, Bob]
  {
    JohnIsHit();
    SearchAliceBob();
    var r := [John, Alice, Bob];
    assert r[1..] == [Alice, Bob];
    assert SearchEmployees(r, "5000", WholeSalaryText)
        == [John] + SearchEmployees([Alice, Bob], "5000", WholeSalaryText);
  }

  /** The search over the last two records keeps Bob only. */
  lemma SearchAliceBob()
    ensures SearchEmployees([Alice, Bob], "5000", WholeSalaryText) == [Bob]
  {
    AliceIsMiss();
    SearchBob();
    assert [Alice, Bob][1..] == [Bob];
  }

  /** The search over Bob alone keeps him. */
  lemma SearchBob()
    ensures SearchEmployees([Bob], "5000", WholeSalaryText) == [Bob]
  {
    BobIsHit();
    assert [Bob][1..] == [];
  }

  /** Appending a zero digit: `10 * n` is written as `n` followed by "0". */
  lemma DecimalDigitsTimesTen(n: nat)
    requires n > 0
    ensures DecimalDigits(10 * n) == DecimalDigits(n) + "0"
  {
    assert (10 * n) / 10 == n && (10 * n) % 10 == 0;
  }

  /** The salary texts of the demonstration's records. */
  lemma ScenarioSalaryTexts()
    ensures WholeSalaryText(50000) == "50000.0"
    ensures WholeSalaryText(55000) == "55000.0"
    ensures WholeSalaryText(60000) == "60000.0"
  {
    assert DecimalDigits(5) == "5" && DecimalDigits(6) == "6";
    assert DecimalDigits(55) == "55";
    DecimalDigitsTimesTen(5);
    DecimalDigitsTimesTen(50);
    DecimalDigitsTimesTen(500);
    DecimalDigitsTimesTen(5000);
    DecimalDigitsTimesTen(55);
    DecimalDigitsTimesTen(550);
    DecimalDigitsTimesTen(5500);
    DecimalDigitsTimesTen(6);
    DecimalDigitsTimesTen(60);
    DecimalDigitsTimesTen(600);
    DecimalDigitsTimesTen(6000);
  }

  /** John's salary text "50000.0" starts with "5000". */
  lemma JohnIsHit()
    ensures Matches(John, "5000", WholeSalaryText)
  {
    ScenarioSalaryTexts();
    var text := WholeSalaryText(John.salary);
    assert text == "50000.0";
    assert StartsWith(text, "5000");
  }

  /** Bob's salary text "55000.0" holds "5000" from its second character. */
  lemma BobIsHit()
    ensures Matches(Bob, "5000", WholeSalaryText)
  {
    ScenarioSalaryTexts();
    var text := WholeSalaryText(Bob.salary);
    assert text == "55000.0";
    assert text[1..] == "5000.0";
    assert StartsWith(text[1..], "5000");
  }

  /** No field of Alice's record holds a '5', so none contains "5000". */
  lemma AliceIsMiss()
    ensures !Matches(Alice, "5000", WholeSalaryText)
  {
    AliceNameMisses();
    AlicePositionMisses();
    AliceSalaryTextMisses();
  }

  /** Alice's name does not contain "5000". */
  lemma AliceNameMisses()
    ensures !Contains(Alice.name, "5000")
  {
    TextMisses(Alice.name);
  }

  /** Alice's position does not contain "5000". */
  lemma AlicePositionMisses()
    ensures !Contains(Alice.position, "5000")
  {
    TextMisses(Alice.position);
  }

  /** Alice's salary text "60000.0" does not contain "5000". */
  lemma AliceSalaryTextMisses()
    ensures !Contains(WholeSalaryText(Alice.salary), "5000")
  {
    ScenarioSalaryTexts();
    TextMisses(WholeSalaryText(Alice.salary));
  }

  /** A string without the character '5' does not contain "5000". */
  lemma TextMisses(s: string)
    requires '5' !in s
    ensures !Contains(s, "5000")
  {
    MissingCharNotContained(s, "5000", "5000"[0]);
  }
}
