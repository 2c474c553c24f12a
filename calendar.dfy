/** `datetime.strptime(s, '%d/%m/%Y').date()` and `date.strftime('%d/%m/%Y')`
    over the proleptic Gregorian calendar of Python's `datetime` module. */
module Calendar {
  import opened Wrappers

  /** A `datetime.date`; only values with `IsValidDate` exist in Python. */
  datatype Date = Date(year: int, month: int, day: int)

  const MinYear := 1
  const MaxYear := 9999

  /** The Gregorian rule: every fourth year, except centuries not divisible by 400. */
  predicate IsLeapYear(y: int) {
    y % 4 == 0 && (y % 100 != 0 || y % 400 == 0)
  }

  function DaysInMonth(y: int, m: int): int
    requires 1 <= m <= 12
  {
    if m == 2 then (if IsLeapYear(y) then 29 else 28)
    else if m == 4 || m == 6 || m == 9 || m == 11 then 30
    else 31
  }

  /** What the `date` constructor accepts. */
  predicate IsValidDate(d: Date) {
    && MinYear <= d.year <= MaxYear
    && 1 <= d.month <= 12
    && 1 <= d.day <= DaysInMonth(d.year, d.month)
  }

  // ASCII digits only: the Unicode decimal digits that `\d` also matches are not modelled.
  predicate IsDigit(c: char) { '0' <= c <= '9' }
  predicate IsNonZeroDigit(c: char) { '1' <= c <= '9' }

  function DigitValue(c: char): int
    requires IsDigit(c)
  {
    c as int - '0' as int
  }

  function DigitChar(n: int): (c: char)
    requires 0 <= n <= 9
    ensures IsDigit(c) && DigitValue(c) == n
  {
    ('0' as int + n) as char
  }

  /** The texts matched by the group of `%d`: `3[01]|[12]\d|0[1-9]|[1-9]| [1-9]`. */
  predicate IsDayText(t: string) {
    || (|t| == 2 && t[0] == '3' && (t[1] == '0' || t[1] == '1'))
    || (|t| == 2 && (t[0] == '1' || t[0] == '2') && IsDigit(t[1]))
    || (|t| == 2 && t[0] == '0' && IsNonZeroDigit(t[1]))
    || (|t| == 1 && IsNonZeroDigit(t[0]))
    || (|t| == 2 && t[0] == ' ' && IsNonZeroDigit(t[1]))
  }

  /** The texts matched by the group of `%m`: `1[0-2]|0[1-9]|[1-9]`. */
  predicate IsMonthText(t: string) {
    || (|t| == 2 && t[0] == '1' && '0' <= t[1] <= '2')
    || (|t| == 2 && t[0] == '0' && IsNonZeroDigit(t[1]))
    || (|t| == 1 && IsNonZeroDigit(t[0]))
  }

  /** The texts matched by the group of `%Y`: `\d\d\d\d`. */
  predicate IsYearText(t: string) {
    |t| == 4 && IsDigit(t[0]) && IsDigit(t[1]) && IsDigit(t[2]) && IsDigit(t[3])
  }

  /** `int(t)` of a day field (`int` ignores the leading space). */
  function DayValue(t: string): (v: int)
    requires IsDayText(t)
    ensures 1 <= v <= 31
  {
    if |t| == 1 then DigitValue(t[0])
    else if t[0] == ' ' then DigitValue(t[1])
    else 10 * DigitValue(t[0]) + DigitValue(t[1])
  }

  function MonthValue(t: string): (v: int)
    requires IsMonthText(t)
    ensures 1 <= v <= 12
  {
    if |t| == 1 then DigitValue(t[0]) else 10 * DigitValue(t[0]) + DigitValue(t[1])
  }

  function YearValue(t: string): (v: int)
    requires IsYearText(t)
    ensures 0 <= v <= 9999
  {
    1000 * DigitValue(t[0]) + 100 * DigitValue(t[1]) + 10 * DigitValue(t[2]) + DigitValue(t[3])
  }

  /** `s` is exactly what the pattern of `%d/%m/%Y` matches, with these three groups:
      the match is anchored and must leave no unconverted data. */
  predicate IsFormatMatch(s: string, dayText: string, monthText: string, yearText: string) {
    && s == dayText + "/" + monthText + "/" + yearText
    && IsDayText(dayText)
    && IsMonthText(monthText)
    && IsYearText(yearText)
  }

  function DateOfFields(dayText: string, monthText: string, yearText: string): Date
    requires IsDayText(dayText) && IsMonthText(monthText) && IsYearText(yearText)
  {
    Date(YearValue(yearText), MonthValue(monthText), DayValue(dayText))
  }

  /** The position of the first '/' in `s`, or `|s|` when there is none. */
  function SlashIndex(s: string): (i: nat)
    ensures i <= |s|
    ensures forall k :: 0 <= k < i ==> s[k] != '/'
    ensures i < |s| ==> s[i] == '/'
  {
    if s == [] || s[0] == '/' then 0 else 1 + SlashIndex(s[1..])
  }

  /** `datetime.strptime(s, '%d/%m/%Y').date()`: `None` where it raises `ValueError`.
      No field of the pattern can hold a '/', so the groups are the text around the
      first two slashes. */
  function ParseDate(s: string): (r: Option<Date>)
    ensures r.Some? ==> IsValidDate(r.value)
  {
    var i := SlashIndex(s);
    if i == |s| then None
    else
      var rest := s[i + 1..];
      var j := SlashIndex(rest);
      if j == |rest| then None
      else
        var dayText, monthText, yearText := s[..i], rest[..j], rest[j + 1..];
        if !(IsDayText(dayText) && IsMonthText(monthText) && IsYearText(yearText)) then None
        else
          var d := DateOfFields(dayText, monthText, yearText);
          if IsValidDate(d) then Some(d) else None
  }

  /** `%d` and `%m` of `strftime`: two digits, zero-padded. */
  function TwoDigits(n: int): string
    requires 0 <= n <= 99
  {
    [DigitChar(n / 10), DigitChar(n % 10)]
  }

  /** `%Y` of `strftime` with the C library of Linux (glibc): the year in decimal,
      without padding below 1000. */
  function FormatYear(y: int): (t: string)
    requires MinYear <= y <= MaxYear
    ensures y >= 1000 <==> |t| == 4
  {
    if y >= 1000 then TwoDigits(y / 100) + TwoDigits(y % 100)
    else if y >= 100 then [DigitChar(y / 100)] + TwoDigits(y % 100)
    else if y >= 10 then TwoDigits(y)
    else [DigitChar(y)]
  }

  /** `d.strftime('%d/%m/%Y')` */
  function FormatDate(d: Date): (t: string)
    requires IsValidDate(d)
    ensures d.year >= 1000 <==> IsCanonicalDate(t)
  {
    TwoDigits(d.day) + "/" + TwoDigits(d.month) + "/" + FormatYear(d.year)
  }

  /** The canonical shape `DD/MM/YYYY`: ASCII digits, both separators at their
      fixed places, a year of four digits that does not start with zero. */
  predicate IsCanonicalDate(t: string) {
    && |t| == 10
    && t[2] == '/' && t[5] == '/'
    && IsDigit(t[0]) && IsDigit(t[1]) && IsDigit(t[3]) && IsDigit(t[4])
    && IsNonZeroDigit(t[6]) && IsDigit(t[7]) && IsDigit(t[8]) && IsDigit(t[9])
  }

  /** What `/homilia` puts in its prompt for a date text: parse, then re-encode. */
  function NormaliseDate(s: string): (r: Option<string>)
    ensures r.Some? <==> ParseDate(s).Some?
    ensures r.Some? && ParseDate(s).value.year >= 1000 ==> IsCanonicalDate(r.value)
  {
    match ParseDate(s)
    case Some(d) => Some(FormatDate(d))
    case None => None
  }

  /** No group of the pattern holds a '/'. */
  lemma NoSlashInFields(dayText: string, monthText: string)
    requires IsDayText(dayText) && IsMonthText(monthText)
    ensures forall k :: 0 <= k < |dayText| ==> dayText[k] != '/'
    ensures forall k :: 0 <= k < |monthText| ==> monthText[k] != '/'
  {
  }

  lemma SlashIndexOf(a: string, b: string)
    requires forall k :: 0 <= k < |a| ==> a[k] != '/'
    ensures SlashIndex(a + "/" + b) == |a|
  {
    var s := a + "/" + b;
    assert s[|a|] == '/';
    assert forall k :: 0 <= k < |a| ==> s[k] == a[k];
  }

  /** A text with two slashes that its first two parts do not contain is cut at them. */
  lemma ParseDateOfSplit(dayText: string, monthText: string, yearText: string)
    requires forall k :: 0 <= k < |dayText| ==> dayText[k] != '/'
    requires forall k :: 0 <= k < |monthText| ==> monthText[k] != '/'
    ensures ParseDate(dayText + "/" + monthText + "/" + yearText) ==
      if IsDayText(dayText) && IsMonthText(monthText) && IsYearText(yearText)
         && IsValidDate(DateOfFields(dayText, monthText, yearText))
      then Some(DateOfFields(dayText, monthText, yearText)) else None
  {
    var s := dayText + "/" + monthText + "/" + yearText;
    SlashIndexOf(dayText, monthText + "/" + yearText);
    assert s == dayText + "/" + (monthText + "/" + yearText);
    assert s[..|dayText|] == dayText;
    var rest := s[|dayText| + 1..];
    assert rest == monthText + "/" + yearText;
    SlashIndexOf(monthText, yearText);
    assert rest[..|monthText|] == monthText;
    assert rest[|monthText| + 1..] == yearText;
  }

  /** Every text the pattern matches is parsed into its fields, and accepted
      exactly when the fields form a calendar date. */
  lemma ParseDateOfMatch(s: string, dayText: string, monthText: string, yearText: string)
    requires IsFormatMatch(s, dayText, monthText, yearText)
    ensures ParseDate(s) == (if IsValidDate(DateOfFields(dayText, monthText, yearText))
                             then Some(DateOfFields(dayText, monthText, yearText)) else None)
  {
    NoSlashInFields(dayText, monthText);
    ParseDateOfSplit(dayText, monthText, yearText);
  }

  /** Every accepted text is a match of the pattern, and its date is that of the match. */
  lemma ParsedFields(s: string) returns (dayText: string, monthText: string, yearText: string)
    requires ParseDate(s).Some?
    ensures IsFormatMatch(s, dayText, monthText, yearText)
    ensures ParseDate(s) == Some(DateOfFields(dayText, monthText, yearText))
  {
    var i := SlashIndex(s);
    var rest := s[i + 1..];
    var j := SlashIndex(rest);
    dayText, monthText, yearText := s[..i], rest[..j], rest[j + 1..];
    assert i < |s| && j < |rest|;
    SplitAtSlash(rest, j);
    SplitAtSlash(s, i);
    ConcatFields(s, dayText, rest, monthText, yearText);
  }

  lemma ConcatFields(s: string, dayText: string, rest: string, monthText: string, yearText: string)
    requires s == dayText + "/" + rest && rest == monthText + "/" + yearText
    ensures s == dayText + "/" + monthText + "/" + yearText
  {
  }

  lemma SplitAtSlash(s: string, i: nat)
    requires i < |s| && s[i] == '/'
    ensures s == s[..i] + "/" + s[i + 1..]
  {
  }

  /** `strptime` accepts exactly the matches of the pattern that name a calendar date. */
  lemma ParseDateAccepts(s: string)
    ensures ParseDate(s).Some? <==>
      exists dayText, monthText, yearText ::
        IsFormatMatch(s, dayText, monthText, yearText) && IsValidDate(DateOfFields(dayText, monthText, yearText))
  {
    if ParseDate(s).Some? {
      var dayText, monthText, yearText := ParsedFields(s);
    } else {
      forall dayText, monthText, yearText | IsFormatMatch(s, dayText, monthText, yearText)
        ensures !IsValidDate(DateOfFields(dayText, monthText, yearText))
      {
        ParseDateOfMatch(s, dayText, monthText, yearText);
      }
    }
  }

  lemma TwoDigitsOfDay(n: int)
    requires 1 <= n <= 31
    ensures IsDayText(TwoDigits(n)) && DayValue(TwoDigits(n)) == n
  {
  }

  lemma TwoDigitsOfMonth(n: int)
    requires 1 <= n <= 12
    ensures IsMonthText(TwoDigits(n)) && MonthValue(TwoDigits(n)) == n
  {
  }

  /** Splitting a number at its last one or two decimal digits. */
  lemma DivMod10(v: int, q: int, r: int)
    requires v == 10 * q + r && 0 <= r < 10
    ensures v / 10 == q && v % 10 == r
  {
  }

  lemma DivMod100(v: int, q: int, r: int)
    requires v == 100 * q + r && 0 <= r < 100
    ensures v / 100 == q && v % 100 == r
  {
  }

  lemma TwoDigitsValue(n: int)
    requires 0 <= n <= 99
    ensures 10 * DigitValue(TwoDigits(n)[0]) + DigitValue(TwoDigits(n)[1]) == n
  {
  }

  lemma FourDigitYear(y: int)
    requires 1000 <= y <= MaxYear
    ensures IsYearText(FormatYear(y)) && YearValue(FormatYear(y)) == y
  {
    TwoDigitsValue(y / 100);
    TwoDigitsValue(y % 100);
  }

  /** Re-encoding a date with a four-digit year and parsing it again gives the same date. */
  lemma ParseFormatDate(d: Date)
    requires IsValidDate(d) && d.year >= 1000
    ensures ParseDate(FormatDate(d)) == Some(d)
  {
    TwoDigitsOfDay(d.day);
    TwoDigitsOfMonth(d.month);
    FourDigitYear(d.year);
    ParseDateOfMatch(FormatDate(d), TwoDigits(d.day), TwoDigits(d.month), FormatYear(d.year));
  }

  /** With glibc, a year below 1000 is written with fewer than four digits, so the
      re-encoded text of such a date is not itself accepted. */
  lemma FormatShortYearRejected(d: Date)
    requires IsValidDate(d) && d.year < 1000
    ensures ParseDate(FormatDate(d)) == None
  {
    TwoDigitsOfDay(d.day);
    TwoDigitsOfMonth(d.month);
    NoSlashInFields(TwoDigits(d.day), TwoDigits(d.month));
    ParseDateOfSplit(TwoDigits(d.day), TwoDigits(d.month), FormatYear(d.year));
  }

  /** Normalising a normalised date changes nothing (for years of four digits). */
  lemma NormaliseIdempotent(s: string)
    requires NormaliseDate(s).Some? && ParseDate(s).value.year >= 1000
    ensures NormaliseDate(NormaliseDate(s).value) == NormaliseDate(s)
  {
    ParseFormatDate(ParseDate(s).value);
  }

  /** The texts normalisation leaves unchanged are exactly the accepted texts of canonical shape. */
  lemma NormaliseFixpoint(s: string)
    ensures NormaliseDate(s) == Some(s) <==> IsCanonicalDate(s) && ParseDate(s).Some?
  {
    if IsCanonicalDate(s) && ParseDate(s).Some? {
      NormaliseCanonical(s);
    }
    if NormaliseDate(s) == Some(s) && ParseDate(s).value.year < 1000 {
      FormatShortYearRejected(ParseDate(s).value);
    }
  }

  /** The 29th of February is accepted exactly in Gregorian leap years from year 1 on. */
  lemma LeapDayAccepted(yearText: string)
    requires IsYearText(yearText)
    ensures ParseDate("29/02/" + yearText).Some? <==> YearValue(yearText) >= MinYear && IsLeapYear(YearValue(yearText))
  {
    assert "29/02/" + yearText == "29" + "/" + "02" + "/" + yearText;
    ParseDateOfMatch("29/02/" + yearText, "29", "02", yearText);
  }

  /** A field as `strftime` writes it back: two digits, a missing or blank tens digit becoming '0'. */
  function ZeroPadded(t: string): (r: string)
    requires IsDayText(t) || IsMonthText(t)
  {
    if |t| == 1 then ['0', t[0]] else if t[0] == ' ' then ['0', t[1]] else t
  }

  lemma ZeroPaddedDay(t: string)
    requires IsDayText(t)
    ensures TwoDigits(DayValue(t)) == ZeroPadded(t)
  {
  }

  lemma ZeroPaddedMonth(t: string)
    requires IsMonthText(t)
    ensures TwoDigits(MonthValue(t)) == ZeroPadded(t)
  {
  }

  lemma FormatYearOfText(t: string)
    requires IsYearText(t) && YearValue(t) >= 1000
    ensures FormatYear(YearValue(t)) == t
  {
    var v := YearValue(t);
    var h := 10 * DigitValue(t[0]) + DigitValue(t[1]);
    var l := 10 * DigitValue(t[2]) + DigitValue(t[3]);
    DivMod100(v, h, l);
    DivMod10(h, DigitValue(t[0]), DigitValue(t[1]));
    DivMod10(l, DigitValue(t[2]), DigitValue(t[3]));
    assert TwoDigits(h) == t[..2];
    assert TwoDigits(l) == t[2..];
  }

  /** Normalising an accepted text with a four-digit year only zero-pads its day and month. */
  lemma NormalisePadsFields(s: string, dayText: string, monthText: string, yearText: string)
    requires IsFormatMatch(s, dayText, monthText, yearText)
    requires IsValidDate(DateOfFields(dayText, monthText, yearText)) && YearValue(yearText) >= 1000
    ensures NormaliseDate(s) == Some(ZeroPadded(dayText) + "/" + ZeroPadded(monthText) + "/" + yearText)
  {
    ParseDateOfMatch(s, dayText, monthText, yearText);
    ZeroPaddedDay(dayText);
    ZeroPaddedMonth(monthText);
    FormatYearOfText(yearText);
  }

  /** An accepted text of canonical shape is its own normal form. */
  lemma NormaliseCanonical(s: string)
    requires IsCanonicalDate(s) && ParseDate(s).Some?
    ensures NormaliseDate(s) == Some(s)
  {
    var dayText, monthText, yearText := s[..2], s[3..5], s[6..];
    assert s == dayText + "/" + monthText + "/" + yearText;
    ParseDateOfSplit(dayText, monthText, yearText);
    NormalisePadsFields(s, dayText, monthText, yearText);
  }

  /** A text without the separator is refused (an ISO date such as "2024-12-25", for one). */
  lemma NoSeparatorRejected(s: string)
    requires forall k :: 0 <= k < |s| ==> s[k] != '/'
    ensures ParseDate(s) == None
  {
  }

  /** `strptime` must consume the whole text: anything after an accepted date makes it refuse. */
  lemma TrailingDataRejected(s: string, extra: string)
    requires ParseDate(s).Some? && extra != []
    ensures ParseDate(s + extra) == None
  {
    var dayText, monthText, yearText := ParsedFields(s);
    NoSlashInFields(dayText, monthText);
    assert s + extra == dayText + "/" + monthText + "/" + (yearText + extra);
    ParseDateOfSplit(dayText, monthText, yearText + extra);
  }

  /** A year that is not written with exactly four characters (a two-digit year) is refused. */
  lemma ShortYearRejected(dayText: string, monthText: string, yearText: string)
    requires IsDayText(dayText) && IsMonthText(monthText) && |yearText| != 4
    ensures ParseDate(dayText + "/" + monthText + "/" + yearText) == None
  {
    NoSlashInFields(dayText, monthText);
    ParseDateOfSplit(dayText, monthText, yearText);
  }

  /** A day past the end of its month (the 31st of February, the 31st of April) is refused,
      not clamped. */
  lemma DayBeyondMonthRejected(dayText: string, monthText: string, yearText: string)
    requires IsDayText(dayText) && IsMonthText(monthText) && IsYearText(yearText)
    requires DayValue(dayText) > DaysInMonth(YearValue(yearText), MonthValue(monthText))
    ensures ParseDate(dayText + "/" + monthText + "/" + yearText) == None
  {
    NoSlashInFields(dayText, monthText);
    ParseDateOfSplit(dayText, monthText, yearText);
  }

  /** Year zero ("01/01/0000") is refused: `date` starts at year 1. */
  lemma YearZeroRejected(dayText: string, monthText: string)
    requires IsDayText(dayText) && IsMonthText(monthText)
    ensures ParseDate(dayText + "/" + monthText + "/" + "0000") == None
  {
    NoSlashInFields(dayText, monthText);
    ParseDateOfSplit(dayText, monthText, "0000");
  }
}
