/**
 * The dates runScraper asks for: every (month, day) in 1..12 x 1..30, month
 * by month, and the date token makeRequest puts in the request URL.
 */
module DateRange {
  import opened JsText

  /** The number of (month, day) pairs requested per year: 12 months of 30 days. */
  const DateCount: nat := 360

  /** One entry of dateVariables: {i: month, j: day, year}. */
  datatype DateVar = DateVar(month: nat, day: nat, year: nat)

  /** The k-th entry of the enumeration. */
  function DateAt(year: nat, k: nat): (d: DateVar)
    requires k < DateCount
    ensures 1 <= d.month <= 12 && 1 <= d.day <= 30 && d.year == year
  {
    DateVar(k / 30 + 1, k % 30 + 1, year)
  }

  /** The pair (month, day) sits at index (month - 1) * 30 + (day - 1). */
  lemma DateAtIndex(year: nat, month: nat, day: nat)
    requires 1 <= month <= 12 && 1 <= day <= 30
    ensures (month - 1) * 30 + (day - 1) < DateCount
    ensures DateAt(year, (month - 1) * 30 + (day - 1)) == DateVar(month, day, year)
  {
  }

  /** The enumeration is month-major: an earlier index has an earlier month, or the same month and an earlier day. */
  lemma DatesMonthMajor(year: nat, k1: nat, k2: nat)
    requires k1 < k2 < DateCount
    ensures DateAt(year, k1).month < DateAt(year, k2).month
         || (DateAt(year, k1).month == DateAt(year, k2).month && DateAt(year, k1).day < DateAt(year, k2).day)
  {
  }

  /** The nested for loops of runScraper that push {i, j, year} for i in 1..12 and j in 1..30. */
  method EnumerateDates(year: nat) returns (dates: seq<DateVar>)
    ensures |dates| == DateCount
    ensures forall k :: 0 <= k < DateCount ==> dates[k] == DateAt(year, k)
  {
    dates := [];
    for i := 1 to 13
      invariant |dates| == (i - 1) * 30
      invariant forall k :: 0 <= k < |dates| ==> dates[k] == DateAt(year, k)
    {
      for j := 1 to 31
        invariant |dates| == (i - 1) * 30 + (j - 1)
        invariant forall k :: 0 <= k < |dates| ==> dates[k] == DateAt(year, k)
      {
        DateAtIndex(year, i, j);
        dates := dates + [DateVar(i, j, year)];
      }
    }
  }

  /** `${n < 10 ? `0${n}` : n}`: the number in decimal, with a leading zero when it is below 10. */
  function TwoDigits(n: nat): (r: JsString)
    ensures forall k :: 0 <= k < |r| ==> IsDigitIn(r[k], 10)
    ensures n < 10 ==> |r| == 2 && r[0] == 0x30
    ensures n < 100 ==> |r| == 2 && DigitsValue(r, 10) == n
  {
    NumberToStringValue(n, 10);
    if n < 10 then
      var r := Lit("0") + NumberToString(n, 10);
      assert r[..1] == Lit("0") && r[..1][..0] == [];
      r
    else
      assert NumberToString(n, 10) == NumberToString(n / 10, 10) + [DigitChar(n % 10)];
      NumberToString(n, 10)
  }

  /** The date parameter of the request URL: the year, then the month and the day padded to two digits. */
  function DateToken(year: nat, month: nat, day: nat): (t: JsString)
    ensures forall k :: 0 <= k < |t| ==> IsDigitIn(t[k], 10)
    ensures |NumberToString(year, 10)| <= |t| && t[..|NumberToString(year, 10)|] == NumberToString(year, 10)
  {
    NumberToString(year, 10) + TwoDigits(month) + TwoDigits(day)
  }

  /** For month and day below 100 the token is the year's digits plus four, and the month and day read back from it. */
  lemma DateTokenFields(year: nat, month: nat, day: nat)
    requires month < 100 && day < 100
    ensures var y := |NumberToString(year, 10)|;
      var t := DateToken(year, month, day);
      |t| == y + 4
      && (forall k :: 0 <= k < |t| ==> IsDigitIn(t[k], 10))
      && (month < 10 ==> t[y] == 0x30)
      && (day < 10 ==> t[y + 2] == 0x30)
      && DigitsValue(t[..y], 10) == year
      && DigitsValue(t[y..y + 2], 10) == month
      && DigitsValue(t[y + 2..], 10) == day
  {
    var ys := NumberToString(year, 10);
    var t := DateToken(year, month, day);
    NumberToStringValue(year, 10);
    assert t[..|ys|] == ys;
    assert t[|ys|..|ys| + 2] == TwoDigits(month);
    assert t[|ys| + 2..] == TwoDigits(day);
  }

  /** Within one year, distinct (month, day) pairs below 100 give distinct tokens. */
  lemma DateTokenInjective(year: nat, m1: nat, d1: nat, m2: nat, d2: nat)
    requires m1 < 100 && d1 < 100 && m2 < 100 && d2 < 100
    requires DateToken(year, m1, d1) == DateToken(year, m2, d2)
    ensures m1 == m2 && d1 == d2
  {
    DateTokenFields(year, m1, d1);
    DateTokenFields(year, m2, d2);
  }

  /** Every enumerated date has a token of the year's length plus four. */
  lemma EnumeratedTokenLength(year: nat, k: nat)
    requires k < DateCount
    ensures |DateToken(year, DateAt(year, k).month, DateAt(year, k).day)| == |NumberToString(year, 10)| + 4
  {
  }
}
