/** Timestamps as pandas holds them (`datetime64[ns]`), the two textual
    formats the scripts parse (`%d/%m/%Y` and `%Y-%m-%d %H:%M:%S`) and the
    formatting used when dates are written back. */
module Dates {
  import opened Options
  import opened Text

  /** A calendar date and wall-clock time, to the second. */
  datatype Stamp = Stamp(year: nat, month: nat, day: nat, hour: nat, minute: nat, second: nat)

  predicate IsLeap(y: nat) {
    y % 4 == 0 && (y % 100 != 0 || y % 400 == 0)
  }

  function DaysInMonth(y: nat, m: nat): nat {
    if m == 2 then (if IsLeap(y) then 29 else 28)
    else if m == 4 || m == 6 || m == 9 || m == 11 then 30
    else 31
  }

  /** What Python's `datetime` accepts. */
  predicate OnCalendar(t: Stamp) {
    && 1 <= t.year <= 9999
    && 1 <= t.month <= 12
    && 1 <= t.day <= DaysInMonth(t.year, t.month)
    && t.hour < 24 && t.minute < 60 && t.second < 60
  }

  /** Strict chronological order (lexicographic on the fields). */
  predicate Before(a: Stamp, b: Stamp) {
    if a.year != b.year then a.year < b.year
    else if a.month != b.month then a.month < b.month
    else if a.day != b.day then a.day < b.day
    else if a.hour != b.hour then a.hour < b.hour
    else if a.minute != b.minute then a.minute < b.minute
    else a.second < b.second
  }

  predicate AtOrBefore(a: Stamp, b: Stamp) {
    !Before(b, a)
  }

  lemma BeforeIsStrictTotalOrder(a: Stamp, b: Stamp, c: Stamp)
    ensures !Before(a, a)
    ensures a != b ==> Before(a, b) || Before(b, a)
    ensures Before(a, b) && Before(b, c) ==> Before(a, c)
  {
  }

  /** The first and last whole seconds of pandas' nanosecond timestamps
      (`Timestamp.min` is 1677-09-21 00:12:43.145224193, `Timestamp.max`
      2262-04-11 23:47:16.854775807). A parse outside them is coerced to NaT. */
  const Earliest := Stamp(1677, 9, 21, 0, 12, 44)
  const Latest := Stamp(2262, 4, 11, 23, 47, 16)

  predicate Representable(t: Stamp) {
    OnCalendar(t) && AtOrBefore(Earliest, t) && AtOrBefore(t, Latest)
  }

  /** A date without a time of day, as `%d/%m/%Y` produces. */
  predicate IsMidnight(t: Stamp) {
    t.hour == 0 && t.minute == 0 && t.second == 0
  }

  // ---------------------------------------------------------------- digits

  predicate IsDigit(c: char) {
    '0' <= c <= '9'
  }

  predicate AllDigits(s: string) {
    forall i :: 0 <= i < |s| ==> IsDigit(s[i])
  }

  function DigitValue(c: char): nat
    requires IsDigit(c)
  {
    c as int - '0' as int
  }

  /** The number an ASCII digit string denotes. */
  function Decimal(s: string): nat
    requires AllDigits(s)
  {
    if s == [] then 0 else 10 * Decimal(s[..|s| - 1]) + DigitValue(s[|s| - 1])
  }

  function Pow10(w: nat): nat {
    if w == 0 then 1 else 10 * Pow10(w - 1)
  }

  /** `n` written with exactly `w` digits, zero-padded (the `%02d`-style
      padding of `strftime`). */
  function Digits(n: nat, w: nat): (s: string)
    ensures |s| == w && AllDigits(s)
  {
    if w == 0 then [] else Digits(n / 10, w - 1) + [('0' as int + n % 10) as char]
  }

  lemma {:induction false} DecimalOfDigits(n: nat, w: nat)
    requires n < Pow10(w)
    ensures Decimal(Digits(n, w)) == n
  {
    if w > 0 {
      var s := Digits(n, w);
      assert s[..|s| - 1] == Digits(n / 10, w - 1);
      DecimalOfDigits(n / 10, w - 1);
    }
  }

  /** Reading a digit string as a number and writing it back at the same
      width gives the same string: leading zeros are exactly the padding. */
  lemma {:induction false} DigitsOfDecimal(s: string)
    requires AllDigits(s)
    ensures Digits(Decimal(s), |s|) == s
  {
    if s != [] {
      var init := s[..|s| - 1];
      DigitsOfDecimal(init);
      var n := Decimal(s);
      assert n / 10 == Decimal(init) && n % 10 == DigitValue(s[|s| - 1]);
      assert s == init + [s[|s| - 1]];
    }
  }

  // ------------------------------------------------ %d/%m/%Y (eccn_MCM.py)

  /** CPython's `%d` pattern `3[01]|[12]\d|0[1-9]|[1-9]| [1-9]`, ASCII digits. */
  function DayField(s: string): Option<nat> {
    if |s| == 1 && '1' <= s[0] <= '9' then Some(DigitValue(s[0]))
    else if |s| == 2 && s[0] == ' ' && '1' <= s[1] <= '9' then Some(DigitValue(s[1]))
    else if |s| == 2 && AllDigits(s) && 1 <= Decimal(s) <= 31 then Some(Decimal(s))
    else None
  }

  /** CPython's `%m` pattern `1[0-2]|0[1-9]|[1-9]`. */
  function MonthField(s: string): Option<nat> {
    if |s| == 1 && '1' <= s[0] <= '9' then Some(DigitValue(s[0]))
    else if |s| == 2 && AllDigits(s) && 1 <= Decimal(s) <= 12 then Some(Decimal(s))
    else None
  }

  /** CPython's `%Y` pattern: exactly four digits. */
  function YearField(s: string): Option<nat> {
    if |s| == 4 && AllDigits(s) then Some(Decimal(s)) else None
  }

  /** `pd.to_datetime(s, format='%d/%m/%Y', errors='coerce')`: the whole
      string must match, the date must exist and fit pandas' range;
      otherwise the result is NaT (`None`). The texts `now` and `today`,
      which pandas reads as the current time, give NaT here too. */
  function ParseDayMonthYear(s: string): (r: Option<Stamp>)
    ensures r.Some? ==> Representable(r.value) && IsMidnight(r.value)
    ensures r.Some? ==> s in Spellings(r.value)
  {
    var parts := Split(s, '/');
    if |parts| != 3 then None
    else
      match (DayField(parts[0]), MonthField(parts[1]), YearField(parts[2]))
      case (Some(d), Some(m), Some(y)) =>
        FieldsSpellDate(s, parts, d, m, y);
        var t := Stamp(y, m, d, 0, 0, 0);
        if Representable(t) then Some(t) else None
      case _ => None
  }

  /** The ways `%d` may spell day `n`: two digits, or for a single-digit
      day also one digit alone or after a space. */
  function DaySpellings(n: nat): set<string> {
    {Digits(n, 2)} + (if 1 <= n <= 9 then {Digits(n, 1), " " + Digits(n, 1)} else {})
  }

  /** The ways `%m` may spell month `n`: two digits, or one for a
      single-digit month. */
  function MonthSpellings(n: nat): set<string> {
    {Digits(n, 2)} + (if 1 <= n <= 9 then {Digits(n, 1)} else {})
  }

  /** Every text `%d/%m/%Y` reads as the date of `t`. */
  function Spellings(t: Stamp): set<string> {
    set d, m | d in DaySpellings(t.day) && m in MonthSpellings(t.month) :: d + "/" + m + "/" + Digits(t.year, 4)
  }

  lemma DayFieldSpelled(p: string)
    requires DayField(p).Some?
    ensures p in DaySpellings(DayField(p).value)
  {
    if |p| == 2 && AllDigits(p) && DayField(p) == Some(Decimal(p)) {
      DigitsOfDecimal(p);
    } else if |p| == 1 {
      DigitsOfDecimal(p);
    } else {
      DigitsOfDecimal(p[1..]);
      assert p == " " + p[1..];
    }
  }

  lemma MonthFieldSpelled(p: string)
    requires MonthField(p).Some?
    ensures p in MonthSpellings(MonthField(p).value)
  {
    DigitsOfDecimal(p);
  }

  lemma Spelled(t: Stamp, d: string, m: string)
    requires d in DaySpellings(t.day) && m in MonthSpellings(t.month)
    ensures d + "/" + m + "/" + Digits(t.year, 4) in Spellings(t)
  {
  }

  /** Three fields that `%d`, `%m` and `%Y` accept spell the date they
      denote. */
  lemma FieldsSpellDate(s: string, parts: seq<string>, d: nat, m: nat, y: nat)
    requires parts == Split(s, '/') && |parts| == 3
    requires DayField(parts[0]) == Some(d) && MonthField(parts[1]) == Some(m) && YearField(parts[2]) == Some(y)
    ensures s in Spellings(Stamp(y, m, d, 0, 0, 0))
  {
    JoinSplit(s, '/');
    JoinThree(parts, '/');
    DayFieldSpelled(parts[0]);
    MonthFieldSpelled(parts[1]);
    DigitsOfDecimal(parts[2]);
    Spelled(Stamp(y, m, d, 0, 0, 0), parts[0], parts[1]);
  }

  lemma DaySpellingParses(n: nat, p: string)
    requires 1 <= n <= 31 && p in DaySpellings(n)
    ensures DayField(p) == Some(n)
  {
    if p == Digits(n, 2) {
      DayOfDigits(n);
    } else {
      DecimalOfDigits(n, 1);
    }
  }

  lemma MonthSpellingParses(n: nat, p: string)
    requires 1 <= n <= 12 && p in MonthSpellings(n)
    ensures MonthField(p) == Some(n)
  {
    if p == Digits(n, 2) {
      MonthOfDigits(n);
    } else {
      DecimalOfDigits(n, 1);
    }
  }

  /** Every spelling of a midnight date pandas can hold parses to it. */
  lemma SpellingParses(s: string, t: Stamp)
    requires Representable(t) && IsMidnight(t) && s in Spellings(t)
    ensures ParseDayMonthYear(s) == Some(t)
  {
    var d, m :| d in DaySpellings(t.day) && m in MonthSpellings(t.month) && s == d + "/" + m + "/" + Digits(t.year, 4);
    var y := Digits(t.year, 4);
    DigitsHaveNoSeparator(t.year, 4, '/');
    DigitsHaveNoSeparator(t.day, 2, '/');
    DigitsHaveNoSeparator(t.day, 1, '/');
    DigitsHaveNoSeparator(t.month, 2, '/');
    DigitsHaveNoSeparator(t.month, 1, '/');
    assert '/' !in d && '/' !in m;
    SplitThree(d, m, y, '/');
    DaySpellingParses(t.day, d);
    MonthSpellingParses(t.month, m);
    YearOfDigits(t.year);
    assert Split(s, '/') == [d, m, y];
    assert t == Stamp(t.year, t.month, t.day, 0, 0, 0);
  }

  /** `%d/%m/%Y` parses a text to `t` exactly when `t` is a midnight date
      pandas can hold and the text is one of its spellings: every other
      text, an impossible date such as `31/02/2024` included, gives NaT. */
  lemma ParseDayMonthYearExact(s: string, t: Stamp)
    ensures ParseDayMonthYear(s) == Some(t) <==> Representable(t) && IsMidnight(t) && s in Spellings(t)
  {
    if Representable(t) && IsMidnight(t) && s in Spellings(t) {
      SpellingParses(s, t);
    }
  }

  /** `strftime('%d/%m/%Y')`. */
  function FormatDayMonthYear(t: Stamp): string {
    Digits(t.day, 2) + "/" + Digits(t.month, 2) + "/" + Digits(t.year, 4)
  }

  lemma DigitsHaveNoSeparator(n: nat, w: nat, sep: char)
    requires !IsDigit(sep)
    ensures sep !in Digits(n, w)
  {
  }

  /** The three fields of a `%d/%m/%Y` text, split back apart. */
  lemma SplitDayMonthYear(t: Stamp)
    ensures Split(FormatDayMonthYear(t), '/') == [Digits(t.day, 2), Digits(t.month, 2), Digits(t.year, 4)]
  {
    var d, m, y := Digits(t.day, 2), Digits(t.month, 2), Digits(t.year, 4);
    DigitsHaveNoSeparator(t.day, 2, '/');
    DigitsHaveNoSeparator(t.month, 2, '/');
    DigitsHaveNoSeparator(t.year, 4, '/');
    assert [d, m, y][1..] == [m, y] && [m, y][1..] == [y];
    assert Join([y], '/') == y;
    assert Join([m, y], '/') == m + "/" + y;
    assert Join([d, m, y], '/') == d + "/" + (m + "/" + y);
    assert Join([d, m, y], '/') == FormatDayMonthYear(t);
    SplitJoin([d, m, y], '/');
  }

  /** A date written back with `%d/%m/%Y` parses to the same date. */
  lemma FormatThenParseDayMonthYear(t: Stamp)
    requires Representable(t) && IsMidnight(t)
    ensures ParseDayMonthYear(FormatDayMonthYear(t)) == Some(t)
  {
    SplitDayMonthYear(t);
    DayOfDigits(t.day);
    MonthOfDigits(t.month);
    YearOfDigits(t.year);
  }

  lemma DayOfDigits(n: nat)
    requires 1 <= n <= 31
    ensures DayField(Digits(n, 2)) == Some(n)
  {
    DecimalOfDigits(n, 2);
    assert Digits(n, 2)[0] != ' ';
  }

  lemma MonthOfDigits(n: nat)
    requires 1 <= n <= 12
    ensures MonthField(Digits(n, 2)) == Some(n)
  {
    DecimalOfDigits(n, 2);
  }

  lemma YearOfDigits(n: nat)
    requires n <= 9999
    ensures YearField(Digits(n, 4)) == Some(n)
  {
    DecimalOfDigits(n, 4);
  }

  /** Parsing normalises: the canonical text of a parsed date parses to the
      same date, so reading back what was written is stable. */
  lemma ParseDayMonthYearNormalises(s: string)
    requires ParseDayMonthYear(s).Some?
    ensures ParseDayMonthYear(FormatDayMonthYear(ParseDayMonthYear(s).value)) == ParseDayMonthYear(s)
  {
    FormatThenParseDayMonthYear(ParseDayMonthYear(s).value);
  }

  // ----------------------------------- %Y-%m-%d %H:%M:%S (eccn_MCM_polo.py)

  /** `pd.to_datetime(s, format='%Y-%m-%d %H:%M:%S', errors='coerce')` as
      pandas 2.x matches the format exactly, for the zero-padded
      19-character form with a single space. pandas reads the texts `now`
      and `today` as the current time; with no clock here they give NaT. */
  function ParseIsoDateTime(s: string): (r: Option<Stamp>)
    ensures r.Some? ==> Representable(r.value)
    ensures r.Some? ==> s == FormatIsoDateTime(r.value)
  {
    if IsoShaped(s) then
      IsoFieldsRoundTrip(s);
      var t := IsoFields(s);
      if Representable(t) then Some(t) else None
    else None
  }

  /** The layout `dddd-dd-dd dd:dd:dd`. */
  predicate IsoShaped(s: string) {
    && |s| == 19 && s[4] == '-' && s[7] == '-' && s[10] == ' ' && s[13] == ':' && s[16] == ':'
    && AllDigits(s[..4]) && AllDigits(s[5..7]) && AllDigits(s[8..10])
    && AllDigits(s[11..13]) && AllDigits(s[14..16]) && AllDigits(s[17..])
  }

  function IsoFields(s: string): Stamp
    requires IsoShaped(s)
  {
    Stamp(Decimal(s[..4]), Decimal(s[5..7]), Decimal(s[8..10]),
          Decimal(s[11..13]), Decimal(s[14..16]), Decimal(s[17..]))
  }

  /** A text of the right layout is the canonical spelling of its fields. */
  lemma IsoFieldsRoundTrip(s: string)
    requires IsoShaped(s)
    ensures s == FormatIsoDateTime(IsoFields(s))
  {
    DigitsOfDecimal(s[..4]);
    DigitsOfDecimal(s[5..7]);
    DigitsOfDecimal(s[8..10]);
    DigitsOfDecimal(s[11..13]);
    DigitsOfDecimal(s[14..16]);
    DigitsOfDecimal(s[17..]);
    assert s == s[..4] + "-" + s[5..7] + "-" + s[8..10] + " " + s[11..13] + ":" + s[14..16] + ":" + s[17..];
  }

  /** `str()` of a pandas Timestamp with no fractional second. */
  function FormatIsoDateTime(t: Stamp): string {
    Digits(t.year, 4) + "-" + Digits(t.month, 2) + "-" + Digits(t.day, 2) + " "
    + Digits(t.hour, 2) + ":" + Digits(t.minute, 2) + ":" + Digits(t.second, 2)
  }

  /** The `YYYY-MM-DD` text pandas gives every timestamp of a column whose
      timestamps all fall at midnight. */
  function FormatIsoDate(t: Stamp): string {
    Digits(t.year, 4) + "-" + Digits(t.month, 2) + "-" + Digits(t.day, 2)
  }

  /** A `YYYY-MM-DD` text is too short for `%Y-%m-%d %H:%M:%S`. */
  lemma IsoDateDoesNotParse(t: Stamp)
    ensures |FormatIsoDate(t)| == 10
    ensures ParseIsoDateTime(FormatIsoDate(t)) == None
  {
  }

  /** A timestamp written as `YYYY-MM-DD HH:MM:SS` parses back to itself. */
  lemma FormatThenParseIsoDateTime(t: Stamp)
    requires Representable(t)
    ensures ParseIsoDateTime(FormatIsoDateTime(t)) == Some(t)
  {
    var s := FormatIsoDateTime(t);
    assert s[..4] == Digits(t.year, 4);
    assert s[5..7] == Digits(t.month, 2);
    assert s[8..10] == Digits(t.day, 2);
    assert s[11..13] == Digits(t.hour, 2);
    assert s[14..16] == Digits(t.minute, 2);
    assert s[17..] == Digits(t.second, 2);
    DecimalOfDigits(t.year, 4);
    DecimalOfDigits(t.month, 2);
    DecimalOfDigits(t.day, 2);
    DecimalOfDigits(t.hour, 2);
    DecimalOfDigits(t.minute, 2);
    DecimalOfDigits(t.second, 2);
  }

  /** A text the format rejects spells no timestamp pandas can hold. */
  lemma IsoUnmatched(s: string)
    requires ParseIsoDateTime(s).None?
    ensures forall t :: Representable(t) ==> s != FormatIsoDateTime(t)
  {
    forall t | Representable(t) ensures s != FormatIsoDateTime(t) {
      FormatThenParseIsoDateTime(t);
    }
  }

  /** `%Y-%m-%d %H:%M:%S` parses a text to `t` exactly when pandas can hold
      `t` and the text is its zero-padded spelling; every other text gives
      NaT. */
  lemma ParseIsoDateTimeExact(s: string, t: Stamp)
    ensures ParseIsoDateTime(s) == Some(t) <==> Representable(t) && s == FormatIsoDateTime(t)
  {
    if Representable(t) && s == FormatIsoDateTime(t) {
      FormatThenParseIsoDateTime(t);
    }
  }
}
