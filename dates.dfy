/** Calendar validation for transaction dates (Gregorian calendar, years 1900 to 3000). */
module Dates {

  /** The leap-year rule: divisible by 4 but not by 100, or divisible by 400. */
  predicate IsLeap(y: int) {
    (y % 4 == 0 && y % 100 != 0) || y % 400 == 0
  }

  /** The month-length table, February patched to 29 in a leap year. */
  function DaysInMonth(y: int, m: int): int
    requires 1 <= m <= 12
  {
    var mdays := [0, 31, 28, 31, 30, 31, 30, 31, 31, 30, 31, 30, 31];
    var table := if IsLeap(y) then mdays[2 := 29] else mdays;
    table[m]
  }

  /** A date is valid when the year, the month and then the day are in range, checked in that order. */
  predicate ValidDate(y: int, m: int, d: int) {
    if y < 1900 || y > 3000 then false
    else if m < 1 || m > 12 then false
    else 1 <= d <= DaysInMonth(y, m)
  }

  /** The months with 31 days. */
  predicate LongMonth(m: int) {
    m == 1 || m == 3 || m == 5 || m == 7 || m == 8 || m == 10 || m == 12
  }

  /**
   * An independent statement of the calendar: every month has days 1 to 28, every month but
   * February has 29 and 30, the long months have 31, and February has 29 only in a leap year.
   */
  lemma ValidDateIff(y: int, m: int, d: int)
    ensures ValidDate(y, m, d) <==>
      && 1900 <= y <= 3000
      && 1 <= m <= 12
      && 1 <= d
      && (|| d <= 28
          || (d == 29 && (m != 2 || IsLeap(y)))
          || (d == 30 && m != 2)
          || (d == 31 && LongMonth(m)))
  {
  }

  /** February 29th is a valid date exactly in the leap years of the supported range. */
  lemma LeapDay(y: int)
    ensures ValidDate(y, 2, 29) <==> 1900 <= y <= 3000 && IsLeap(y)
  {
  }

  /** The Gregorian exceptions: 1900 and 2100 are not leap years, 2000 and 2024 are. */
  lemma LeapExamples()
    ensures !ValidDate(1900, 2, 29) && ValidDate(2000, 2, 29)
    ensures ValidDate(2024, 2, 29) && !ValidDate(2100, 2, 29)
    ensures !ValidDate(2025, 4, 31) && ValidDate(2025, 12, 31)
    ensures !ValidDate(1899, 12, 31) && !ValidDate(3001, 1, 1)
  {
  }
}
