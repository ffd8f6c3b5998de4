/** Age from a birth date, on calendar triples instead of JavaScript `Date`
    objects. Months are 0-based, as `getMonth()` returns them; days are the
    1-based day of the month that `getDate()` returns. */
module Age {

  datatype Date = Date(year: int, month: int, day: int)

  predicate IsLeapYear(year: int)
  {
    year % 4 == 0 && (year % 100 != 0 || year % 400 == 0)
  }

  function DaysInMonth(year: int, month: int): (n: int)
    requires 0 <= month < 12
    ensures 28 <= n <= 31
    ensures month == 1 ==> (n == 29 <==> IsLeapYear(year))
  {
    if month == 1 then (if IsLeapYear(year) then 29 else 28)
    else if month == 3 || month == 5 || month == 8 || month == 10 then 30
    else 31
  }

  predicate ValidDate(d: Date)
  {
    0 <= d.month < 12 && 1 <= d.day <= DaysInMonth(d.year, d.month)
  }

  /** Strict chronological order of calendar dates. */
  predicate Before(a: Date, b: Date)
  {
    a.year < b.year ||
    (a.year == b.year && (a.month < b.month || (a.month == b.month && a.day < b.day)))
  }

  /** The same month and day, `n` years later. */
  function Anniversary(birth: Date, n: int): Date
  {
    Date(birth.year + n, birth.month, birth.day)
  }

  /** The age `calculateAge` reports: the year difference, less one while
      this year's birthday (month, day) is still ahead. It is the number of
      whole years lived: the `r`-th anniversary has been reached and the
      next one has not. */
  function AgeOn(today: Date, birth: Date): (r: int)
    ensures !Before(today, Anniversary(birth, r))
    ensures Before(today, Anniversary(birth, r + 1))
    ensures r == today.year - birth.year || r == today.year - birth.year - 1
    ensures r == today.year - birth.year - 1 <==>
              today.month < birth.month || (today.month == birth.month && today.day < birth.day)
  {
    var monthDiff := today.month - birth.month;
    var age := today.year - birth.year;
    if monthDiff < 0 || (monthDiff == 0 && today.day < birth.day) then age - 1 else age
  }

  /** The whole-years characterisation determines the age uniquely. */
  lemma AgeIsUnique(today: Date, birth: Date, n: int)
    requires !Before(today, Anniversary(birth, n))
    requires Before(today, Anniversary(birth, n + 1))
    ensures n == AgeOn(today, birth)
  {
  }

  /** `calculateAge`: start from the year difference and decrement it while
      the birthday of this year has not come yet. */
  method CalculateAge(today: Date, birth: Date) returns (age: int)
    ensures age == AgeOn(today, birth)
  {
    age := today.year - birth.year;
    var monthDiff := today.month - birth.month;
    if monthDiff < 0 || (monthDiff == 0 && today.day < birth.day) {
      age := age - 1;
    }
  }

  /** Ages are monotone: an earlier birth date never gives a younger age. */
  lemma AgeMonotone(today: Date, earlier: Date, later: Date)
    requires Before(earlier, later)
    ensures AgeOn(today, earlier) >= AgeOn(today, later)
  {
  }

  // ---------------------------------------------------------------------
  // How the source actually reads the birth date.
  //
  // The form yields the birth date as a date-only "YYYY-MM-DD" string.
  // `new Date(s)` reads such a string as midnight UTC, while `getFullYear`,
  // `getMonth` and `getDate` report local time. West of Greenwich (León is
  // at UTC-6) midnight UTC is the evening of the previous local day, so the
  // birth date the age is computed from is one day earlier than entered.
  // ---------------------------------------------------------------------

  /** The calendar day before `d`. */
  function PreviousDay(d: Date): (r: Date)
    requires ValidDate(d)
    ensures ValidDate(r)
    ensures Before(r, d)
    ensures forall e :: ValidDate(e) && Before(e, d) ==> !Before(r, e)
  {
    if d.day > 1 then Date(d.year, d.month, d.day - 1)
    else if d.month > 0 then Date(d.year, d.month - 1, DaysInMonth(d.year, d.month - 1))
    else Date(d.year - 1, 11, 31)
  }

  /** The local calendar date of midnight UTC of the entered date. */
  function LocalBirthDate(entered: Date, westOfUtc: bool): (r: Date)
    requires ValidDate(entered)
    ensures westOfUtc ==> Before(r, entered) && r == PreviousDay(entered)
    ensures !westOfUtc ==> r == entered
  {
    if westOfUtc then PreviousDay(entered) else entered
  }

  /** The age the source computes for an entered birth date. */
  function AgeAsWritten(today: Date, entered: Date, westOfUtc: bool): (r: int)
    requires ValidDate(entered)
    ensures r >= AgeOn(today, entered)
  {
    var local := LocalBirthDate(entered, westOfUtc);
    AgeMonotoneOrSame(today, local, entered);
    AgeOn(today, local)
  }

  lemma AgeMonotoneOrSame(today: Date, a: Date, b: Date)
    requires a == b || Before(a, b)
    ensures AgeOn(today, a) >= AgeOn(today, b)
  {
    if a != b { AgeMonotone(today, a, b); }
  }

  /** The source's age is at most one year more than the true age, so
      whoever passes its adult check is at least 17. */
  lemma AgeAsWrittenAtMostOneEarly(today: Date, entered: Date, westOfUtc: bool)
    requires ValidDate(entered)
    ensures AgeAsWritten(today, entered, westOfUtc) <= AgeOn(today, entered) + 1
  {
  }

  /** West of UTC, on the day before the n-th birthday the source already
      reports age n, one year more than the whole years lived. */
  lemma AgeAsWrittenEarly(entered: Date, n: int)
    requires ValidDate(entered) && entered.day > 1
    ensures AgeAsWritten(Date(entered.year + n, entered.month, entered.day - 1), entered, true) == n
    ensures AgeOn(Date(entered.year + n, entered.month, entered.day - 1), entered) == n - 1
  {
  }

  /** Someone born on 15 October 2008 is let through the adult check on
      14 October 2026 in León, a day before turning 18. */
  lemma AgeAsWrittenAdmitsSeventeen()
    ensures AgeAsWritten(Date(2026, 9, 14), Date(2008, 9, 15), true) == 18
    ensures AgeOn(Date(2026, 9, 14), Date(2008, 9, 15)) == 17
  {
    AgeAsWrittenEarly(Date(2008, 9, 15), 18);
  }
}
