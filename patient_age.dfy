/** The age shown in the doctor's patient list (calculateAge in
    public/js/doctor/patients.js). Today's date is a parameter: the source
    reads the clock. */
module PatientAge {
  import opened Common
  import opened Calendar

  /** The year difference, less one while this year's birthday (month, then
      day) is still ahead. The source compares 0-based months; their
      difference is the same. */
  function AgeInYears(today: Date, birth: Date): (age: int)
    ensures age == today.year - birth.year || age == today.year - birth.year - 1
    ensures NotAfter(birth, today) ==> age >= 0
  {
    var age := today.year - birth.year;
    var monthDiff := today.month - birth.month;
    if monthDiff < 0 || (monthDiff == 0 && today.day < birth.day) then age - 1 else age
  }

  /** a is not later than b in (year, month, day) order. */
  predicate NotAfter(a: Date, b: Date)
  {
    a.year < b.year || (a.year == b.year && (a.month < b.month || (a.month == b.month && a.day <= b.day)))
  }

  /** The n-th anniversary of a birth date; a 29 February birthday keeps its
      day, so in other years it is reached on 1 March. */
  function Anniversary(birth: Date, n: int): Date
  {
    Date(birth.year + n, birth.month, birth.day)
  }

  /** The age is the number of anniversaries reached: the age-th has been
      reached by today and the next one has not. */
  lemma AgeCountsAnniversaries(today: Date, birth: Date)
    ensures NotAfter(Anniversary(birth, AgeInYears(today, birth)), today)
    ensures !NotAfter(Anniversary(birth, AgeInYears(today, birth) + 1), today)
  {
  }

  /** Both cases of the decrement, and a birthday today counts in full. */
  lemma AgeCases(today: Date, birth: Date)
    ensures (today.month, today.day) == (birth.month, birth.day) ==> AgeInYears(today, birth) == today.year - birth.year
    ensures (today.month > birth.month || (today.month == birth.month && today.day >= birth.day)) <==>
            AgeInYears(today, birth) == today.year - birth.year
    ensures (today.month < birth.month || (today.month == birth.month && today.day < birth.day)) <==>
            AgeInYears(today, birth) == today.year - birth.year - 1
  {
  }

  /** Nobody born on or before today has a negative age. */
  lemma AgeNotNegative(today: Date, birth: Date)
    requires NotAfter(birth, today)
    ensures AgeInYears(today, birth) >= 0
  {
  }

  /** The age as a decimal number followed by a space and the word "years". */
  function CalculateAge(today: Date, birth: Date): (s: string)
    ensures |s| > 6 && s[|s| - 6..] == " years"
  {
    IntText(AgeInYears(today, birth)) + " years"
  }

  /** The text reads back as the age: for a birth date not after today the
      part before " years" is the decimal age. */
  lemma AgeTextReadsBack(today: Date, birth: Date)
    requires NotAfter(birth, today)
    ensures var s := CalculateAge(today, birth);
            var digits := s[..|s| - 6];
            (forall i :: 0 <= i < |digits| ==> IsDigit(digits[i])) && DigitsValue(digits) == AgeInYears(today, birth)
  {
    var age := AgeInYears(today, birth);
    var s := CalculateAge(today, birth);
    assert s[..|s| - 6] == NatText(age);
    NatTextValue(age);
  }
}
