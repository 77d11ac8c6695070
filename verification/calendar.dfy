/** Calendar dates as Python's `datetime.date` holds them, the subset of
    `strftime` the scraper uses, and the URL form of a date. */
module Calendar {
  import opened Results
  import opened Text
  import opened Digits
  import opened PyFormat

  /** `datetime.MINYEAR` and `datetime.MAXYEAR`. */
  const MinYear: nat := 1
  const MaxYear: nat := 9999

  datatype CalendarDate = CalendarDate(year: nat, month: nat, day: nat)

  predicate IsLeapYear(year: nat) {
    year % 4 == 0 && (year % 100 != 0 || year % 400 == 0)
  }

  function DaysInMonth(year: nat, month: nat): nat
    requires 1 <= month <= 12
  {
    if month == 2 then (if IsLeapYear(year) then 29 else 28)
    else if month == 4 || month == 6 || month == 9 || month == 11 then 30
    else 31
  }

  predicate ValidDate(d: CalendarDate) {
    && MinYear <= d.year <= MaxYear
    && 1 <= d.month <= 12
    && 1 <= d.day <= DaysInMonth(d.year, d.month)
  }

  /** A value `datetime.date` can hold. */
  type Date = d: CalendarDate | ValidDate(d) witness CalendarDate(2017, 7, 3)

  /** The `ValueError`s of the `datetime` constructor, in the order it checks them. */
  datatype DateError = YearOutOfRange | MonthOutOfRange | DayOutOfRange

  /** `datetime.date(year, month, day)`. */
  function FromValues(year: int, month: int, day: int): (r: Result<Date, DateError>)
    ensures r.Ok? <==> MinYear <= year <= MaxYear && 1 <= month <= 12 && 1 <= day <= DaysInMonth(year, month)
    ensures r.Ok? ==> r.value.year == year && r.value.month == month && r.value.day == day
    ensures !(MinYear <= year <= MaxYear) ==> r == Err(YearOutOfRange)
    ensures MinYear <= year <= MaxYear && !(1 <= month <= 12) ==> r == Err(MonthOutOfRange)
  {
    if !(MinYear <= year <= MaxYear) then Err(YearOutOfRange)
    else if !(1 <= month <= 12) then Err(MonthOutOfRange)
    else if !(1 <= day <= DaysInMonth(year, month)) then Err(DayOutOfRange)
    else Ok(CalendarDate(year, month, day))
  }

  datatype StrftimeError = UnsupportedDirective(directive: char) | TrailingPercent

  /** `date.strftime(fmt)` for the directives `%d`, `%m`, `%Y` and `%%`; any
      other directive is reported instead of being interpreted. `%Y` is written
      with four digits for every year. */
  function Strftime(fmt: string, d: Date): (r: Result<string, StrftimeError>)
    ensures '%' !in fmt ==> r == Ok(fmt)
    decreases |fmt|
  {
    if |fmt| == 0 then Ok([])
    else if fmt[0] != '%' then
      assert fmt == [fmt[0]] + fmt[1..];
      Prepend([fmt[0]], Strftime(fmt[1..], d))
    else if |fmt| == 1 then Err(TrailingPercent)
    else
      var field :-
        match fmt[1]
        case 'd' => Ok(ZeroPad(d.day, 2))
        case 'm' => Ok(ZeroPad(d.month, 2))
        case 'Y' => Ok(ZeroPad(d.year, 4))
        case '%' => Ok("%")
        case _ => Err(UnsupportedDirective(fmt[1]));
      Prepend(field, Strftime(fmt[2..], d))
  }

  /** The `strftime` format of the date: dashes first, so that `strftime`
      sees no `%2F`. */
  const DateFormat: string := "%d-%m-%Y"

  /** The template `'{0}-{1}-{2}'` the scraper fills to obtain `DateFormat`. */
  const DateTemplate: string := "{0}" + ("-" + ("{1}" + ("-" + "{2}")))

  /** Filling the template with the three directives gives exactly `DateFormat`. */
  lemma DateFormatAssembled()
    ensures DateTemplate == "{0}-{1}-{2}"
    ensures Format(DateTemplate, ["%d", "%m", "%Y"]) == Ok(DateFormat)
  {
    var args := ["%d", "%m", "%Y"];
    var t2 := "{2}";
    var d2 := "-" + t2;
    var t1 := "{1}" + d2;
    var d1 := "-" + t1;
    var t0 := "{0}" + d1;
    var y := "%Y";
    var dy := "-" + y;
    var my := "%m" + dy;
    var dmy := "-" + my;
    DateFormatParts();
    assert BraceFree("-");
    FormatDigitField(t2, 2, args);
    assert t2[3..] == [] && y + [] == y;
    assert Format(t2, args) == Ok(y);
    FormatBraceFreePrefix("-", t2, args);
    assert Format(d2, args) == Ok(dy);
    FormatDigitField(t1, 1, args);
    assert t1[3..] == d2;
    assert Format(t1, args) == Ok(my);
    FormatBraceFreePrefix("-", t1, args);
    assert Format(d1, args) == Ok(dmy);
    FormatDigitField(t0, 0, args);
    assert t0[3..] == d1;
  }

  /** A fact about literals, split off so that `DateFormatAssembled` does not
      compare them in the presence of its formatting facts. */
  lemma DateFormatParts()
    ensures "%d" + ("-" + ("%m" + ("-" + "%Y"))) == DateFormat
  {
  }

  /** Two-digit day, two-digit month and four-digit year joined by `sep`. */
  function Joined(d: Date, sep: string): string {
    ZeroPad(d.day, 2) + sep + ZeroPad(d.month, 2) + sep + ZeroPad(d.year, 4)
  }

  lemma PadWidths(d: Date)
    ensures |ZeroPad(d.day, 2)| == 2 && |ZeroPad(d.month, 2)| == 2 && |ZeroPad(d.year, 4)| == 4
  {
    DecimalWidth(d.day, 2);
    DecimalWidth(d.month, 2);
    DecimalWidth(d.year, 4);
  }

  lemma StrftimeStep(fmt: string, d: Date)
    requires |fmt| >= 2
    ensures fmt[0] != '%' ==> Strftime(fmt, d) == Prepend([fmt[0]], Strftime(fmt[1..], d))
    ensures fmt[0] == '%' && fmt[1] == 'd' ==> Strftime(fmt, d) == Prepend(ZeroPad(d.day, 2), Strftime(fmt[2..], d))
    ensures fmt[0] == '%' && fmt[1] == 'm' ==> Strftime(fmt, d) == Prepend(ZeroPad(d.month, 2), Strftime(fmt[2..], d))
    ensures fmt[0] == '%' && fmt[1] == 'Y' ==> Strftime(fmt, d) == Prepend(ZeroPad(d.year, 4), Strftime(fmt[2..], d))
  {
  }

  lemma StrftimeDateFormat(d: Date)
    ensures Strftime(DateFormat, d) == Ok(Joined(d, "-"))
  {
    var f := DateFormat;
    assert |f| == 8 && f[0] == '%' && f[1] == 'd' && f[2] == '-' && f[3] == '%';
    assert f[4] == 'm' && f[5] == '-' && f[6] == '%' && f[7] == 'Y';
    StrftimeDayMonthYear(f, d);
  }

  lemma StrftimeDayMonthYear(f: string, d: Date)
    requires |f| == 8 && f[0] == '%' && f[1] == 'd' && f[2] == '-' && f[3] == '%'
    requires f[4] == 'm' && f[5] == '-' && f[6] == '%' && f[7] == 'Y'
    ensures Strftime(f, d) == Ok(Joined(d, "-"))
  {
    var day, month, year := ZeroPad(d.day, 2), ZeroPad(d.month, 2), ZeroPad(d.year, 4);
    var f6, f5, f3, f2 := f[6..], f[5..], f[3..], f[2..];
    StrftimeStep(f6, d);
    assert f6[2..] == [];
    assert year + [] == year;
    assert Strftime(f6, d) == Ok(year);
    StrftimeStep(f5, d);
    assert f5[1..] == f6;
    StrftimeStep(f3, d);
    assert f3[2..] == f5;
    StrftimeStep(f2, d);
    assert f2[1..] == f3;
    StrftimeStep(f, d);
    assert f[2..] == f2;
    assert day + ("-" + (month + ("-" + year))) == Joined(d, "-");
  }

  /** The date as it appears in the query string: `strftime('%d-%m-%Y')` with
      every `-` replaced by `%2F`, for example `03%2F07%2F2017`. */
  function UrlDate(d: Date): (r: string)
    ensures r == Joined(d, "%2F")
    ensures |r| == 14
  {
    StrftimeDateFormat(d);
    var formatted := Strftime(DateFormat, d).value;
    DigitsReplaceUnchanged(d);
    PadWidths(d);
    ReplaceCharAppend(ZeroPad(d.day, 2) + "-" + ZeroPad(d.month, 2) + "-", ZeroPad(d.year, 4), '-', "%2F");
    ReplaceCharAppend(ZeroPad(d.day, 2) + "-" + ZeroPad(d.month, 2), "-", '-', "%2F");
    ReplaceCharAppend(ZeroPad(d.day, 2) + "-", ZeroPad(d.month, 2), '-', "%2F");
    ReplaceCharAppend(ZeroPad(d.day, 2), "-", '-', "%2F");
    ReplaceChar(formatted, '-', "%2F")
  }

  lemma DigitsReplaceUnchanged(d: Date)
    ensures ReplaceChar(ZeroPad(d.day, 2), '-', "%2F") == ZeroPad(d.day, 2)
    ensures ReplaceChar(ZeroPad(d.month, 2), '-', "%2F") == ZeroPad(d.month, 2)
    ensures ReplaceChar(ZeroPad(d.year, 4), '-', "%2F") == ZeroPad(d.year, 4)
    ensures ReplaceChar("-", '-', "%2F") == "%2F"
  {
    NoDashInDigits(ZeroPad(d.day, 2));
    NoDashInDigits(ZeroPad(d.month, 2));
    NoDashInDigits(ZeroPad(d.year, 4));
  }

  lemma NoDashInDigits(s: string)
    requires AllDigits(s)
    ensures '-' !in s
  {
  }

  /** Reads a date back from its URL form. */
  function ParseUrlDate(s: string): (r: Option<CalendarDate>)
    ensures r.Some? ==> |s| == 14
  {
    if |s| == 14 && s[2..5] == "%2F" && s[7..10] == "%2F"
       && AllDigits(s[..2]) && AllDigits(s[5..7]) && AllDigits(s[10..])
    then Some(CalendarDate(Value(s[10..]), Value(s[5..7]), Value(s[..2])))
    else None
  }

  lemma ParseJoined(day: string, month: string, year: string)
    requires |day| == 2 && |month| == 2 && |year| == 4
    requires AllDigits(day) && AllDigits(month) && AllDigits(year)
    ensures ParseUrlDate(day + "%2F" + month + "%2F" + year)
            == Some(CalendarDate(Value(year), Value(month), Value(day)))
  {
    var a := day + "%2F";
    var b := a + month;
    var c := b + "%2F";
    var s := c + year;
    assert s[..10] == c && s[10..] == year;
    assert c[..7] == b && c[7..] == "%2F";
    assert b[..5] == a && b[5..] == month;
    assert a[..2] == day && a[2..] == "%2F";
    assert s[..2] == day;
    assert s[2..5] == "%2F";
    assert s[5..7] == month;
    assert s[7..10] == "%2F";
  }

  /** The URL form of a date determines the date. */
  lemma UrlDateRoundTrip(d: Date)
    ensures ParseUrlDate(UrlDate(d)) == Some(d)
  {
    PadWidths(d);
    ParseJoined(ZeroPad(d.day, 2), ZeroPad(d.month, 2), ZeroPad(d.year, 4));
    ZeroPadValue(d.day, 2);
    ZeroPadValue(d.month, 2);
    ZeroPadValue(d.year, 4);
  }

  lemma UrlDateInjective(d1: Date, d2: Date)
    ensures UrlDate(d1) == UrlDate(d2) <==> d1 == d2
  {
    UrlDateRoundTrip(d1);
    UrlDateRoundTrip(d2);
  }
}
