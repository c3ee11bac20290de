/**
 * Calendar dates as the watcher reads and writes them: datetime.strptime(s, "%Y%m%d")
 * on a command-line date, strftime("%Y%m%d") and strftime("%Y%m") on a date, and the
 * re.match(r'^\d{n}$', s) format checks that guard them.
 */
module Calendar {
  import opened Base
  import opened Text

  datatype Date = Date(year: nat, month: nat, day: nat)

  predicate IsLeap(y: nat) {
    y % 4 == 0 && (y % 100 != 0 || y % 400 == 0)
  }

  function DaysInMonth(y: nat, m: nat): nat
    requires 1 <= m <= 12
  {
    if m == 2 then (if IsLeap(y) then 29 else 28)
    else if m == 4 || m == 6 || m == 9 || m == 11 then 30
    else 31
  }

  /** A date datetime.date accepts: year 1 to 9999, a real month, a day that month has. */
  predicate IsCalendarDate(d: Date) {
    1 <= d.year <= 9999 && 1 <= d.month <= 12 && 1 <= d.day <= DaysInMonth(d.year, d.month)
  }

  function Pow10(w: nat): nat {
    if w == 0 then 1 else 10 * Pow10(w - 1)
  }

  /** The last w decimal digits of n, zero-padded: what %Y (w = 4), %m and %d (w = 2) print. */
  function Digits(n: nat, w: nat): (s: string)
    ensures |s| == w && AllDigits(s)
  {
    if w == 0 then [] else Digits(n / 10, w - 1) + [DigitChar(n % 10)]
  }

  /** Reading back w padded digits of a number below 10^w gives the number. */
  lemma {:induction false} DigitsValueOfDigits(n: nat, w: nat)
    requires n < Pow10(w)
    ensures DigitsValue(Digits(n, w)) == n
  {
    if w > 0 {
      DigitsValueOfDigits(n / 10, w - 1);
      var s := Digits(n, w);
      assert s[..|s| - 1] == Digits(n / 10, w - 1);
    }
  }

  /** Printing the value of a run of digits with as many places as it has gives the run back. */
  lemma {:induction false} DigitsOfDigitsValue(t: string)
    requires AllDigits(t)
    ensures Digits(DigitsValue(t), |t|) == t
    decreases |t|
  {
    if t != [] {
      var u := t[..|t| - 1];
      DigitsOfDigitsValue(u);
      var v := DigitsValue(t);
      assert v == DigitsValue(u) * 10 + (t[|t| - 1] as int - '0' as int);
      assert v / 10 == DigitsValue(u) && v % 10 == t[|t| - 1] as int - '0' as int;
      assert DigitChar(v % 10) == t[|t| - 1];
      assert u + [t[|t| - 1]] == t;
    }
  }

  /** date.strftime("%Y%m%d"), four-digit years as on Windows. */
  function FormatYmd(d: Date): string {
    Digits(d.year, 4) + Digits(d.month, 2) + Digits(d.day, 2)
  }

  /** date.strftime("%Y%m"). */
  function FormatYm(d: Date): string {
    Digits(d.year, 4) + Digits(d.month, 2)
  }

  /**
   * datetime.strptime(s, "%Y%m%d").date() on a string of ASCII digits: eight digits
   * read as year, month and day, accepted only when they name a real date; anything
   * else raises ValueError (None here).
   */
  function ParseYmd(s: string): (r: Option<Date>)
    ensures r.Some? ==> IsCalendarDate(r.value) && |s| == 8 && AllDigits(s)
  {
    if |s| == 8 && AllDigits(s) then
      var d := Date(DigitsValue(s[..4]), DigitsValue(s[4..6]), DigitsValue(s[6..]));
      if IsCalendarDate(d) then Some(d) else None
    else None
  }

  /** Parsing a printed date gives the date back. */
  lemma ParseFormatYmd(d: Date)
    requires IsCalendarDate(d)
    ensures ParseYmd(FormatYmd(d)) == Some(d)
  {
    var s := FormatYmd(d);
    assert s[..4] == Digits(d.year, 4) && s[4..6] == Digits(d.month, 2) && s[6..] == Digits(d.day, 2);
    DigitsValueOfDigits(d.year, 4);
    DigitsValueOfDigits(d.month, 2);
    DigitsValueOfDigits(d.day, 2);
  }

  /** Printing a parsed date gives the string that was parsed, and its month is the first six characters. */
  lemma FormatParseYmd(s: string)
    requires ParseYmd(s).Some?
    ensures FormatYmd(ParseYmd(s).value) == s
    ensures FormatYm(ParseYmd(s).value) == s[..6]
  {
    DigitsOfDigitsValue(s[..4]);
    DigitsOfDigitsValue(s[4..6]);
    DigitsOfDigitsValue(s[6..]);
    assert s[..4] + s[4..6] + s[6..] == s;
    assert s[..4] + s[4..6] == s[..6];
  }

  /**
   * re.match(r'^\d{n}$', s) on ASCII digits: exactly n digits, where Python's "$" also
   * lets one trailing "\n" through.
   */
  predicate MatchesDigits(s: string, n: nat) {
    (|s| == n && AllDigits(s)) || (|s| == n + 1 && AllDigits(s[..n]) && s[n] == '\n')
  }

  /** What the daily scan makes of its date argument. */
  datatype DateChoice =
    | Target(date: Date, text: string)  // the date to process and its YYYYMMDD spelling
    | BadFormat                         // the regex rejected it
    | BadDate                           // strptime rejected it

  /**
   * The date handling of the daily scan: no argument (or an empty one) means today;
   * otherwise the argument must pass the eight-digit regex and then strptime.
   */
  function ChooseDailyDate(arg: Option<string>, today: Date): (c: DateChoice)
    requires IsCalendarDate(today)
  {
    if arg.None? || arg.value == [] then Target(today, FormatYmd(today))
    else if !MatchesDigits(arg.value, 8) then BadFormat
    else
      match ParseYmd(arg.value)
      case None => BadDate
      case Some(d) => Target(d, arg.value)
  }

  /**
   * The date a daily scan processes is a real date spelt by its text: the argument
   * itself when it is eight digits naming a real date, today when it is absent or
   * empty; every other argument is rejected, a regex mismatch as BadFormat and the
   * rest (a trailing newline, an impossible day) as BadDate.
   */
  lemma DailyDateChoice(arg: Option<string>, today: Date)
    requires IsCalendarDate(today)
    ensures var c := ChooseDailyDate(arg, today);
      (c.Target? ==>
         IsCalendarDate(c.date) && FormatYmd(c.date) == c.text && |c.text| == 8 && FormatYm(c.date) == c.text[..6])
      && (c.Target? <==> arg.None? || arg.value == [] || ParseYmd(arg.value).Some?)
      && (c.BadFormat? <==> arg.Some? && arg.value != [] && !MatchesDigits(arg.value, 8))
      && (c.Target? && arg.Some? && arg.value != [] ==> c.text == arg.value)
  {
    var c := ChooseDailyDate(arg, today);
    if arg.None? || arg.value == [] {
      FormatYmdShape(today);
      ParseFormatYmd(today);
      FormatParseYmd(FormatYmd(today));
    } else if ParseYmd(arg.value).Some? {
      FormatParseYmd(arg.value);
    }
  }

  lemma FormatYmdShape(d: Date)
    ensures |FormatYmd(d)| == 8 && FormatYmd(d)[..6] == FormatYm(d)
  {
  }
}
