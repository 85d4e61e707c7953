/**
 * The address of a hosted newsletter: the site's newsletter directory, the
 * issue's date in the ISO 8601 calendar-date extended format (YYYY-MM-DD,
 * ISO 8601:2004 section 4.1.2.2), and `.html`. The current time, the default
 * date, is a parameter.
 */
module UrlBuilder {
  import opened Wrappers

  const NewslettersBase: string := "https://samuelrumbley.com/newsletters/"
  const PageSuffix: string := ".html"

  /** A `datetime`: a calendar date and a time of day. */
  datatype DateTime = DateTime(year: int, month: int, day: int, hour: int, minute: int, second: int)

  predicate IsLeapYear(y: int) {
    (y % 4 == 0 && y % 100 != 0) || y % 400 == 0
  }

  function DaysInMonth(y: int, m: int): int
    requires 1 <= m <= 12
  {
    if m == 2 then (if IsLeapYear(y) then 29 else 28)
    else if m == 4 || m == 6 || m == 9 || m == 11 then 30
    else 31
  }

  /** What the `datetime` constructor accepts: years 1 to 9999 and real calendar days. */
  predicate ValidDate(d: DateTime) {
    1 <= d.year <= 9999 && 1 <= d.month <= 12 && 1 <= d.day <= DaysInMonth(d.year, d.month)
    && 0 <= d.hour < 24 && 0 <= d.minute < 60 && 0 <= d.second < 60
  }

  // ---------------------------------------------------------------- decimal digits

  function DigitChar(n: int): char
    requires 0 <= n < 10
  {
    "0123456789"[n]
  }

  function DigitValue(c: char): int {
    if '0' <= c <= '9' then c as int - '0' as int else 0
  }

  predicate IsDigit(c: char) {
    '0' <= c <= '9'
  }

  /** The decimal numeral of `n`, without leading zeros. */
  function Digits(n: nat): (s: string)
    ensures |s| >= 1
    ensures forall i :: 0 <= i < |s| ==> IsDigit(s[i])
    decreases n
  {
    if n < 10 then [DigitChar(n)] else Digits(n / 10) + [DigitChar(n % 10)]
  }

  /** The number a string of decimal digits denotes. */
  function Value(s: string): nat {
    if s == [] then 0 else 10 * Value(s[..|s| - 1]) + DigitValue(s[|s| - 1])
  }

  lemma {:induction false} ValueOfDigits(n: nat)
    ensures Value(Digits(n)) == n
    decreases n
  {
    if n >= 10 {
      ValueOfDigits(n / 10);
      var s := Digits(n);
      assert s[..|s| - 1] == Digits(n / 10);
      assert DigitValue(DigitChar(n % 10)) == n % 10;
    } else {
      assert DigitValue(DigitChar(n)) == n;
    }
  }

  /** Four digits exactly for the years 1000 to 9999. */
  lemma {:induction false} DigitsFourWide(n: nat)
    requires 1000 <= n <= 9999
    ensures |Digits(n)| == 4
  {
    var a := n / 10;
    assert 100 <= a <= 999;
    var b := a / 10;
    assert 10 <= b <= 99;
    var c := b / 10;
    assert 1 <= c <= 9;
    assert |Digits(b)| == |Digits(c)| + 1 == 2;
    assert |Digits(a)| == |Digits(b)| + 1;
  }

  /** `%m` and `%d`: two digits, zero-padded. */
  function Pad2(n: int): (s: string)
    requires 0 <= n < 100
    ensures |s| == 2 && IsDigit(s[0]) && IsDigit(s[1])
    ensures Value(s) == n
  {
    var s := [DigitChar(n / 10), DigitChar(n % 10)];
    assert s[..1] == [DigitChar(n / 10)] && s[..1][..0] == [];
    assert DigitValue(s[0]) == n / 10 && DigitValue(s[1]) == n % 10;
    assert Value(s[..1]) == n / 10;
    s
  }

  // ---------------------------------------------------------------- the date stamp

  /** `date.strftime("%Y-%m-%d")`: the year's numeral, then month and day on two digits each. */
  function DateStamp(d: DateTime): (s: string)
    requires ValidDate(d)
  {
    Digits(d.year) + "-" + Pad2(d.month) + "-" + Pad2(d.day)
  }

  /** Reading a stamp back: the year is all but the last six characters `-MM-DD`. */
  function ParseStamp(s: string): (ymd: (int, int, int))
    requires |s| >= 6
  {
    (Value(s[..|s| - 6]), Value(s[|s| - 5..|s| - 3]), Value(s[|s| - 2..]))
  }

  /** The stamp round-trips to the calendar date it was made from. */
  lemma DateStampRoundTrip(d: DateTime)
    requires ValidDate(d)
    ensures |DateStamp(d)| >= 7
    ensures ParseStamp(DateStamp(d)) == (d.year, d.month, d.day)
  {
    var y, m, dd := Digits(d.year), Pad2(d.month), Pad2(d.day);
    var s := DateStamp(d);
    assert s == y + "-" + m + "-" + dd;
    assert s[..|s| - 6] == y;
    assert s[|s| - 5..|s| - 3] == m;
    assert s[|s| - 2..] == dd;
    ValueOfDigits(d.year);
  }

  /** The stamp is `YYYY-MM-DD`, ten characters, for every four-digit year. */
  lemma DateStampShape(d: DateTime)
    requires ValidDate(d) && d.year >= 1000
    ensures |DateStamp(d)| == 10
    ensures DateStamp(d)[4] == '-' && DateStamp(d)[7] == '-'
    ensures forall i :: 0 <= i < 10 && i != 4 && i != 7 ==> IsDigit(DateStamp(d)[i])
  {
    DigitsFourWide(d.year);
    var y, m, dd := Digits(d.year), Pad2(d.month), Pad2(d.day);
    var s := DateStamp(d);
    assert s == y + "-" + m + "-" + dd;
    assert s[0] == y[0] && s[1] == y[1] && s[2] == y[2] && s[3] == y[3];
  }

  // ---------------------------------------------------------------- the URL

  /** `build_newsletter_url(date)`, with `now` standing for `datetime.now()` when no date is given. */
  function BuildNewsletterUrl(date: Option<DateTime>, now: DateTime): (url: string)
    requires date.Some? ==> ValidDate(date.value)
    requires ValidDate(now)
  {
    NewslettersBase + DateStamp(if date.Some? then date.value else now) + PageSuffix
  }

  /** The address of the issue of `date`: the newsletter directory, the date stamp, `.html`. */
  lemma UrlShape(date: Option<DateTime>, now: DateTime)
    requires date.Some? ==> ValidDate(date.value)
    requires ValidDate(now)
    ensures var url := BuildNewsletterUrl(date, now);
      var d := if date.Some? then date.value else now;
      |url| == |NewslettersBase| + |DateStamp(d)| + |PageSuffix|
      && url[..|NewslettersBase|] == NewslettersBase
      && url[|NewslettersBase|..|url| - |PageSuffix|] == DateStamp(d)
      && url[|url| - |PageSuffix|..] == PageSuffix
  {
  }

  /** The time of day plays no part; only the calendar date does. */
  lemma UrlIgnoresTime(a: DateTime, b: DateTime, now: DateTime)
    requires ValidDate(a) && ValidDate(b) && ValidDate(now)
    requires a.year == b.year && a.month == b.month && a.day == b.day
    ensures BuildNewsletterUrl(Some(a), now) == BuildNewsletterUrl(Some(b), now)
  {
  }

  /** Different days have different addresses. */
  lemma UrlInjective(a: DateTime, b: DateTime, now: DateTime)
    requires ValidDate(a) && ValidDate(b) && ValidDate(now)
    requires BuildNewsletterUrl(Some(a), now) == BuildNewsletterUrl(Some(b), now)
    ensures a.year == b.year && a.month == b.month && a.day == b.day
  {
    UrlShape(Some(a), now);
    UrlShape(Some(b), now);
    var url := BuildNewsletterUrl(Some(a), now);
    assert DateStamp(a) == url[|NewslettersBase|..|url| - |PageSuffix|] == DateStamp(b);
    DateStampRoundTrip(a);
    DateStampRoundTrip(b);
  }

  /**
   * `archive_newsletter(html, date)`: the content is not stored anywhere yet;
   * the address returned is the one `build_newsletter_url` gives.
   */
  function ArchiveNewsletter(htmlContent: string, date: Option<DateTime>, now: DateTime): (url: string)
    requires date.Some? ==> ValidDate(date.value)
    requires ValidDate(now)
    ensures url == BuildNewsletterUrl(date, now)
  {
    NewslettersBase + DateStamp(if date.Some? then date.value else now) + ".html"
  }

  /** The archive's example issue date, 29 April 2025, stamps as `2025-04-29`. */
  lemma ExampleIssue()
    ensures DateStamp(DateTime(2025, 4, 29, 0, 0, 0)) == "2025-04-29"
  {
    assert Digits(2025) == "2025" by {
      assert Digits(2) == "2";
      assert Digits(20) == "20";
      assert Digits(202) == "202";
    }
  }
}
