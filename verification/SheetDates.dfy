/**
 Date cells: the Excel serial printed as `dd/mm/yyyy` (`spreadsheet-text.ts`) and
 the ISO date read back from it (`spreadsheet-grid.ts`).
 */
module SheetDates {
  import opened Text
  import opened Calendar
  import opened DateKeys

  /** `Math.round`. */
  function Round(x: real): int {
    (x + 0.5).Floor
  }

  /** Day 0 of the 1904 system, or of the 1900 system as the code anchors it. */
  function EpochDay(date1904: bool): int {
    if date1904 then UtcDay(1904, 0, 1) else UtcDay(1899, 11, 30)
  }

  /** `String(n)` of any integer. */
  function Int(n: int): string {
    if n < 0 then "-" + Dec(-n) else Dec(n)
  }

  /** The farthest a JavaScript date reaches from 1970, in days. */
  const MaxDay := 100_000_000

  function SerialToSpanishDate(serial: real, date1904: bool): string {
    var day := EpochDay(date1904) + Round(serial);
    if -MaxDay <= day <= MaxDay then
      var date := DateOf(day);
      Padded(date.day, 2) + "/" + Padded(date.month, 2) + "/" + Int(date.year)
    else "NaN/NaN/NaN"
  }

  predicate Digits(s: string, least: nat, most: nat) {
    least <= |s| <= most && AllDigits(s)
  }

  predicate IsoShape(parts: seq<string>) {
    |parts| == 3 && Digits(parts[0], 4, 4) && Digits(parts[1], 2, 2) && Digits(parts[2], 2, 2)
  }

  predicate SpanishShape(parts: seq<string>) {
    |parts| == 3 && Digits(parts[0], 1, 2) && Digits(parts[1], 1, 2) && Digits(parts[2], 4, 4)
  }

  predicate IsRealDay(year: int, month: int, day: int) {
    DateOf(UtcDay(year, month - 1, day)) == Date(year, month, day)
  }

  function ToIsoDate(value: string): Option<string> {
    var trimmed := Trim(value);
    var iso := Split(trimmed, '-');
    var dmy := Split(trimmed, '/');
    if IsoShape(iso) then
      if IsRealDay(Value(iso[0]), Value(iso[1]), Value(iso[2])) then Some(trimmed) else None
    else if SpanishShape(dmy) then
      var year, month, day := Value(dmy[2]), Value(dmy[1]), Value(dmy[0]);
      if IsRealDay(year, month, day) then
        Some(Dec(year) + "-" + Padded(month, 2) + "-" + Padded(day, 2))
      else None
    else None
  }

  /**
   A real day is exactly a day of the Gregorian calendar whose year `Date.UTC`
   does not move: years 0 to 99 are read as 1900 to 1999 and refused.
   */
  lemma RealDays(year: int, month: int, day: int)
    ensures IsRealDay(year, month, day) <==> Valid(Date(year, month, day)) && !(0 <= year <= 99)
  {
    hide DateOf, YearStart, MonthStart, MonthLength;
    var date := Date(year, month, day);
    if Valid(date) {
      if 0 <= year <= 99 {
        var moved := UtcDay(year, month - 1, day);
        MovedYear(date);
        DaysOfDateOf(moved);
      } else {
        DateOfDaysOf(date);
        assert UtcDay(year, month - 1, day) == DaysOf(date);
      }
    }
  }

  /** A two-digit year lands nineteen centuries away. */
  lemma MovedYear(date: Date)
    requires Valid(date) && 0 <= date.year <= 99
    ensures UtcDay(date.year, date.month - 1, date.day) > DaysOf(date)
  {
    hide YearStart, MonthStart, MonthLength;
    var moved := date.(year := 1900 + date.year);
    assert UtcDay(date.year, date.month - 1, date.day) == YearStart(moved.year) + MonthStart(moved.year, date.month) + date.day - 1;
    YearStartMonotone(date.year, moved.year);
    DateSpan(date);
    YearStartStep(date.year);
    YearStartMonotone(date.year + 1, moved.year);
  }

  /** The ISO text of a date, as a template literal writes it: the year unpadded. */
  function IsoText(date: Date): string
    requires Valid(date) && date.year >= 0
  {
    Dec(date.year) + "-" + Padded(date.month, 2) + "-" + Padded(date.day, 2)
  }

  lemma IsoIsKey(date: Date)
    requires Valid(date) && 1000 <= date.year <= 9999
    ensures IsoText(date) == KeyText(date) && |Dec(date.year)| == 4
  {
    hide Padded, Dec, MonthLength;
    SmallPowers();
    assert Pow10(3) == 1000;
    DecLength(date.year, 3);
    DecLength(date.year, 4);
    FourDigitsUnpadded(date.year);
  }

  lemma FourDigitsUnpadded(n: nat)
    requires |Dec(n)| == 4
    ensures Padded(n, 4) == Dec(n)
  {
    assert Zeros(0) + Dec(n) == Dec(n);
  }

  /** Reading a Spanish date whose three fields are digits. */
  lemma ReadSpanish(day: string, month: string, year: string)
    requires AllDigits(day) && AllDigits(month) && AllDigits(year)
    requires day != "" && year != ""
    ensures var text := day + "/" + month + "/" + year;
            (Trim(text) == text && Split(text, '/') == [day, month, year] && !IsoShape(Split(text, '-')))
  {
    hide Trim;
    var text := day + "/" + month + "/" + year;
    assert text[0] == day[0] && text[|text| - 1] == year[|year| - 1];
    assert day[0] in day && year[|year| - 1] in year;
    TrimIdentity(text);
    SplitFields(day, month, year, '/');
    assert forall c | c in text :: c == '/' || IsDigit(c);
    SplitWhole(text, '-');
  }

  /** A field of a Spanish date that is not a run of digits is refused. */
  lemma ReadSpanishBadYear(day: string, month: string, year: string)
    requires AllDigits(day) && AllDigits(month) && AllDigits(year) && day != "" && year != ""
    requires |year| != 4
    ensures ToIsoDate(day + "/" + month + "/" + year) == None
  {
    hide Trim, Split, IsRealDay;
    ReadSpanish(day, month, year);
  }

  lemma NegativeYearRefused(day: string, month: string, year: string)
    requires |day| == 2 && |month| == 2 && AllDigits(day) && AllDigits(month) && AllDigits(year) && year != ""
    ensures ToIsoDate(day + "/" + month + "/" + ("-" + year)) == None
  {
    hide Trim, IsRealDay;
    var text := day + "/" + month + "/" + ("-" + year);
    assert text[0] in day && text[|text| - 1] in year;
    TrimIdentity(text);
    assert text == (day + "/" + month + "/") + "-" + year;
    assert '-' !in day + "/" + month + "/";
    SplitPrefix(day + "/" + month + "/", year, '-');
    SplitWhole(year, '-');
    assert |Split(text, '-')| == 2;
    assert text == day + "/" + (month + "/" + ("-" + year));
    SplitPrefix(day, month + "/" + ("-" + year), '/');
    SplitPrefix(month, "-" + year, '/');
    SplitWhole("-" + year, '/');
    assert Split(text, '/')[2] == "-" + year;
    assert ("-" + year)[0] == '-' && '-' in "-" + year;
  }

  lemma NaNRefused()
    ensures ToIsoDate("NaN/NaN/NaN") == None
  {
    hide Trim, IsRealDay, Split, AllDigits;
    var nan, text := "NaN", "NaN/NaN/NaN";
    assert text[0] == 'N' && text[|text| - 1] == 'N';
    TrimIdentity(text);
    SplitWhole(text, '-');
    SplitNaN(nan, text);
    NotDigits(nan);
  }

  lemma SplitNaN(nan: string, text: string)
    requires nan == "NaN" && text == "NaN/NaN/NaN"
    ensures Split(text, '/')[0] == nan
  {
    hide Split;
    assert text == nan + ['/'] + "NaN/NaN";
    SplitPrefix(nan, "NaN/NaN", '/');
  }

  lemma NotDigits(s: string)
    requires s != "" && !IsDigit(s[0])
    ensures !AllDigits(s)
  {
    assert s[0] in s;
  }

  /** The printed date of a valid date of a four-digit year reads back as its key. */
  lemma SpanishRoundTrip(date: Date)
    requires Valid(date) && date.year >= 0
    ensures ToIsoDate(Padded(date.day, 2) + "/" + Padded(date.month, 2) + "/" + Dec(date.year))
         == KeyOrNone(date)
  {
    hide Trim, Split, Padded, Dec, Value, IsRealDay, MonthLength, KeyText;
    var day, month, year := Padded(date.day, 2), Padded(date.month, 2), Dec(date.year);
    SmallPowers();
    assert Pow10(3) == 1000;
    PaddedReads(date.day, 2);
    PaddedReads(date.month, 2);
    ValueDec(date.year);
    DecLength(date.year, 3);
    DecLength(date.year, 4);
    ReadSpanish(day, month, year);
    if 1000 <= date.year <= 9999 {
      RealDays(date.year, date.month, date.day);
      IsoIsKey(date);
    } else {
      ReadSpanishBadYear(day, month, year);
    }
  }

  function KeyOrNone(date: Date): Option<string>
    requires Valid(date)
  {
    if 1000 <= date.year <= 9999 then Some(KeyText(date)) else None
  }

  /** The day a serial stands for. */
  function SerialDate(serial: real, date1904: bool): (date: Date)
    ensures Valid(date)
  {
    DateOf(EpochDay(date1904) + Round(serial))
  }

  lemma FarDays(day: int)
    requires !(-MaxDay <= day <= MaxDay)
    ensures !(1000 <= DateOf(day).year <= 9999)
  {
    hide DateOf;
    var date := DateOf(day);
    DaysOfDateOf(day);
    DateSpan(date);
    assert YearStart(10000) == 2932897 && YearStart(1000) == -354285;
    if 1000 <= date.year <= 9999 {
      YearStartMonotone(1000, date.year);
      YearStartMonotone(date.year + 1, 10000);
    }
  }

  /**
   Every serial, in both date systems: the printed cell reads back as the key of
   its day when that day's year has four significant digits, and as no date
   otherwise.
   */
  lemma SerialRoundTrip(serial: real, date1904: bool)
    ensures ToIsoDate(SerialToSpanishDate(serial, date1904)) == KeyOrNone(SerialDate(serial, date1904))
  {
    hide DateOf, ToIsoDate, Padded, Dec, KeyText, YearStart, MonthStart, MonthLength;
    var day := EpochDay(date1904) + Round(serial);
    var date := DateOf(day);
    if !(-MaxDay <= day <= MaxDay) {
      FarDays(day);
      NaNRefused();
    } else if date.year >= 0 {
      SpanishRoundTrip(date);
    } else {
      TwoDigits(date);
      NegativeYearRefused(Padded(date.day, 2), Padded(date.month, 2), Dec(-date.year));
    }
  }

  lemma TwoDigits(date: Date)
    requires Valid(date)
    ensures |Padded(date.day, 2)| == 2 && |Padded(date.month, 2)| == 2
  {
    hide Padded, MonthLength;
    SmallPowers();
    PaddedReads(date.day, 2);
    PaddedReads(date.month, 2);
  }

  /** A serial counts calendar days: it is that many days after the system's day 0. */
  lemma SerialCountsDays(serial: real, date1904: bool)
    requires Round(serial) >= 0
    ensures SerialDate(serial, date1904)
         == Later(if date1904 then Date(1904, 1, 1) else Date(1899, 12, 30), Round(serial))
  {
    hide DateOf, YearStart, MonthStart;
    var epoch := if date1904 then Date(1904, 1, 1) else Date(1899, 12, 30);
    assert EpochDay(date1904) == DaysOf(epoch);
    LaterNumber(epoch, Round(serial));
  }

  /**
   The 1900 system as Excel numbers it, where serial 60 is the day 1900-02-29
   that never was: 1 is 1900-01-01 and 61 is 1900-03-01.
   */
  function ExcelDate(serial: nat): Date
    requires serial >= 1 && serial != 60
  {
    if serial < 60 then Later(Date(1900, 1, 1), serial - 1) else Later(Date(1900, 3, 1), serial - 61)
  }

  /** The code agrees with Excel's own numbering exactly from serial 61 on. */
  lemma ExcelAgreement(serial: nat)
    requires serial >= 1 && serial != 60
    ensures SerialDate(serial as real, false) == ExcelDate(serial) <==> serial >= 61
  {
    hide DateOf, YearStart, MonthStart, Later;
    assert Round(serial as real) == serial;
    var start := if serial < 60 then Date(1900, 1, 1) else Date(1900, 3, 1);
    var back := if serial < 60 then 1 else 61;
    LaterNumber(start, serial - back);
    DaysOfDateOf(EpochDay(false) + serial);
    EpochNumbers();
  }

  lemma December(year: int)
    ensures MonthStart(year, 12) == YearLength(year) - 31
  {
    MonthStartTotal(year);
  }

  lemma EpochNumbers()
    ensures DaysOf(Date(1900, 1, 1)) == EpochDay(false) + 2
    ensures DaysOf(Date(1900, 3, 1)) == EpochDay(false) + 61
  {
    December(1899);
    assert MonthStart(1900, 2) == 31 && MonthStart(1900, 3) == 59;
  }

  /**
   Where the promised `YYYY-MM-DD` shape fails: a Spanish date of a year from 0100
   to 0999 is accepted and printed with its year unpadded. Every other accepted
   value comes out well formed.
   */
  lemma IsoShapeOfResult(value: string)
    requires ToIsoDate(value).Some?
    ensures IsoShape(Split(ToIsoDate(value).value, '-')) <==>
              !(SpanishShape(Split(Trim(value), '/')) && Value(Split(Trim(value), '/')[2]) < 1000)
  {
    hide Trim, Split, Padded, Dec, Value, IsRealDay;
    var trimmed := Trim(value);
    if IsoShape(Split(trimmed, '-')) {
      IsoHasNoSlash(trimmed);
    } else {
      var dmy := Split(trimmed, '/');
      var year, month, day := Value(dmy[2]), Value(dmy[1]), Value(dmy[0]);
      RealDays(year, month, day);
      SplitFields(Dec(year), Padded(month, 2), Padded(day, 2), '-');
      TwoDigits(Date(year, month, day));
      SmallPowers();
      ValueBelow(dmy[2]);
      assert Pow10(3) == 1000;
      DecLength(year, 3);
      DecLength(year, 4);
    }
  }

  /** Every Spanish date of a year from 0100 to 0999 is accepted, and printed with its year unpadded. */
  lemma UnpaddedYears(date: Date)
    requires Valid(date) && 100 <= date.year <= 999
    ensures ToIsoDate(Padded(date.day, 2) + "/" + Padded(date.month, 2) + "/" + Padded(date.year, 4)) == Some(IsoText(date))
    ensures |Dec(date.year)| == 3
  {
    hide Trim, Split, Padded, Dec, Value, IsRealDay, MonthLength;
    SmallPowers();
    assert Pow10(3) == 1000;
    PaddedReads(date.day, 2);
    PaddedReads(date.month, 2);
    PaddedReads(date.year, 4);
    DecLength(date.year, 2);
    DecLength(date.year, 3);
    ReadSpanish(Padded(date.day, 2), Padded(date.month, 2), Padded(date.year, 4));
    RealDays(date.year, date.month, date.day);
  }

  lemma FirstOfJanuary500()
    ensures ToIsoDate("01/01/0500") == Some("500-01-01")
  {
    hide ToIsoDate, Valid;
    assert Dec(1) == "1" && Dec(5) == "5" && Dec(50) == "50" && Dec(500) == "500";
    assert Zeros(1) == "0";
    assert Padded(1, 2) == "01" && Padded(500, 4) == "0500";
    JanuaryIsValid();
    UnpaddedYears(Date(500, 1, 1));
    assert "01" + "/" + "01" + "/" + "0500" == "01/01/0500";
    assert "500" + "-" + "01" + "-" + "01" == "500-01-01";
  }

  lemma JanuaryIsValid()
    ensures Valid(Date(500, 1, 1))
  {
  }

  lemma IsoHasNoSlash(text: string)
    requires IsoShape(Split(text, '-'))
    ensures |Split(text, '/')| == 1
  {
    hide Split;
    SplitParts(text, '-');
    var parts := Split(text, '-');
    assert forall p | p in parts :: p == parts[0] || p == parts[1] || p == parts[2];
    assert '/' !in text;
    SplitWhole(text, '/');
  }

  lemma {:induction false} SplitParts(text: string, sep: char)
    ensures forall c | c in text && c != sep :: exists p | p in Split(text, sep) :: c in p
  {
    if text != "" {
      SplitParts(text[1..], sep);
      var rest := Split(text[1..], sep);
      forall c | c in text && c != sep ensures exists p | p in Split(text, sep) :: c in p {
        if c == text[0] {
          assert c in Split(text, sep)[0];
        } else {
          assert c in text[1..];
          var p :| p in rest && c in p;
          if p == rest[0] && text[0] != sep {
            assert c in Split(text, sep)[0];
          } else {
            assert p in Split(text, sep);
          }
        }
      }
    }
  }

  // ------------------------------------------------------------ the other cells

  /** A fraction of a day goes to the nearest day, halves up. */
  lemma RoundsToNearest(serial: real)
    ensures Round(serial) as real - 0.5 <= serial < Round(serial) as real + 0.5
  {
  }

  /** An ISO date, blanks around it or not, is itself when it is a real day, and no date otherwise. */
  lemma IsoRead(year: nat, month: nat, day: nat, value: string)
    requires year <= 9999 && month <= 99 && day <= 99
    requires var text := Padded(year, 4) + "-" + Padded(month, 2) + "-" + Padded(day, 2); Trim(value) == text
    ensures ToIsoDate(value)
      == if Valid(Date(year, month, day)) && year >= 100 then Some(Trim(value)) else None
  {
    hide Trim, Split, Padded, Value, IsRealDay, Valid;
    SmallPowers();
    PaddedReads(year, 4);
    PaddedReads(month, 2);
    PaddedReads(day, 2);
    RealDays(year, month, day);
    SplitFields(Padded(year, 4), Padded(month, 2), Padded(day, 2), '-');
  }

  /** A Spanish date, its day and month of one digit or two, is its ISO text when it is a real day, and no date otherwise. */
  lemma SpanishRead(day: string, month: string, year: string)
    requires AllDigits(day) && AllDigits(month) && AllDigits(year)
    requires 1 <= |day| <= 2 && 1 <= |month| <= 2 && |year| == 4
    ensures ToIsoDate(day + "/" + month + "/" + year)
      == if Valid(Date(Value(year), Value(month), Value(day))) && Value(year) >= 100
         then Some(IsoText(Date(Value(year), Value(month), Value(day)))) else None
  {
    hide Trim, Split, Padded, Dec, Value, IsRealDay, MonthLength;
    ReadSpanish(day, month, year);
    RealDays(Value(year), Value(month), Value(day));
  }
}
