/** `date.strftime` for the two patterns the script uses: `'%d/%m/%Y'` in the
    discharge note and `'%d %B %Y'` in the sidebar. Both are given a strict
    parser that recovers the date, which is how zero padding and the layout
    are pinned down. */
module DateFormat {
  import opened Calendar
  import opened PyDate
  import opened Results

  predicate IsDigit(c: char) {
    '0' <= c <= '9'
  }

  predicate AllDigits(s: string) {
    forall i :: 0 <= i < |s| ==> IsDigit(s[i])
  }

  function DigitChar(n: int): (c: char)
    requires 0 <= n <= 9
    ensures IsDigit(c) && c as int - '0' as int == n
  {
    ('0' as int + n) as char
  }

  /** The value of one decimal digit. */
  function DigitValue(c: char): int {
    c as int - '0' as int
  }

  /** The number a string of decimal digits denotes, most significant digit first. */
  function ReadNumber(s: string): nat
    requires AllDigits(s)
  {
    if s == [] then 0
    else 10 * ReadNumber(s[..|s| - 1]) + DigitValue(s[|s| - 1])
  }

  /** What two and four digits denote, written out. */
  lemma ReadDigits(s: string)
    requires AllDigits(s)
    ensures |s| == 2 ==> ReadNumber(s) == 10 * DigitValue(s[0]) + DigitValue(s[1])
    ensures |s| == 4 ==>
      ReadNumber(s) == 1000 * DigitValue(s[0]) + 100 * DigitValue(s[1]) + 10 * DigitValue(s[2]) + DigitValue(s[3])
  {
    if |s| == 2 || |s| == 4 {
      var s1, s2 := s[..1], s[..2];
      assert s1[..0] == [] && s2[..1] == s1;
      assert ReadNumber(s1) == DigitValue(s[0]);
      assert ReadNumber(s2) == 10 * DigitValue(s[0]) + DigitValue(s[1]);
      if |s| == 4 {
        var s3 := s[..3];
        assert s3[..2] == s2;
        assert ReadNumber(s3) == 10 * ReadNumber(s2) + DigitValue(s[2]);
        assert ReadNumber(s) == 10 * ReadNumber(s3) + DigitValue(s[3]);
      }
    }
  }

  /** `n` in two digits with a leading zero, as `%d` and `%m` write it. */
  function Pad2(n: int): (s: string)
    requires 0 <= n <= 99
    ensures |s| == 2 && AllDigits(s) && ReadNumber(s) == n
  {
    var s := [DigitChar(n / 10), DigitChar(n % 10)];
    ReadDigits(s);
    s
  }

  /** `n` in four digits with leading zeros. */
  function Pad4(n: int): (s: string)
    requires 0 <= n <= 9999
    ensures |s| == 4 && AllDigits(s) && ReadNumber(s) == n
  {
    var w := n % 1000;
    var x := w % 100;
    var s := [DigitChar(n / 1000), DigitChar(w / 100), DigitChar(x / 10), DigitChar(x % 10)];
    ReadDigits(s);
    s
  }

  /** A two-digit string is the padded form of the number it denotes. */
  lemma Pad2OfRead(s: string)
    requires |s| == 2 && AllDigits(s)
    ensures ReadNumber(s) <= 99 && Pad2(ReadNumber(s)) == s
  {
    ReadDigits(s);
  }

  /** A four-digit string is the padded form of the number it denotes. */
  lemma Pad4OfRead(s: string)
    requires |s| == 4 && AllDigits(s)
    ensures ReadNumber(s) <= 9999 && Pad4(ReadNumber(s)) == s
  {
    ReadDigits(s);
    var a, b, c, d := DigitValue(s[0]), DigitValue(s[1]), DigitValue(s[2]), DigitValue(s[3]);
    var n := ReadNumber(s);
    assert n / 1000 == a && n % 1000 == 100 * b + 10 * c + d;
    var w := n % 1000;
    assert w / 100 == b && w % 100 == 10 * c + d;
    var x := w % 100;
    assert x / 10 == c && x % 10 == d;
  }

  // ---------------------------------------------------------------------------
  // '%d/%m/%Y'

  /** `d.strftime('%d/%m/%Y')`: DD/MM/YYYY with zero padding. */
  function FormatDmy(d: Date): (s: string)
    requires IsDate(d)
    ensures |s| == 10 && s[2] == '/' && s[5] == '/'
    ensures AllDigits(s[0..2]) && AllDigits(s[3..5]) && AllDigits(s[6..10])
    ensures ReadNumber(s[0..2]) == d.day
    ensures ReadNumber(s[3..5]) == d.month
    ensures ReadNumber(s[6..10]) == d.year
  {
    var s := Pad2(d.day) + "/" + Pad2(d.month) + "/" + Pad4(d.year);
    assert s[0..2] == Pad2(d.day);
    assert s[3..5] == Pad2(d.month);
    assert s[6..10] == Pad4(d.year);
    s
  }

  /** Reads DD/MM/YYYY back; accepts exactly the strings `FormatDmy` writes. */
  function ParseDmy(s: string): Option<Date> {
    if |s| == 10 && s[2] == '/' && s[5] == '/'
       && AllDigits(s[0..2]) && AllDigits(s[3..5]) && AllDigits(s[6..10])
    then
      var d := Date(ReadNumber(s[6..10]), ReadNumber(s[3..5]), ReadNumber(s[0..2]));
      if IsDate(d) then Some(d) else None
    else None
  }

  /** Formatting then parsing gives back the date. */
  lemma ParseFormatDmy(d: Date)
    requires IsDate(d)
    ensures ParseDmy(FormatDmy(d)) == Some(d)
  {
  }

  /** Parsing then formatting gives back the string: the format is canonical. */
  lemma FormatParseDmy(s: string)
    requires ParseDmy(s).Some?
    ensures FormatDmy(ParseDmy(s).value) == s
  {
    var d := ParseDmy(s).value;
    Pad2OfRead(s[0..2]);
    Pad2OfRead(s[3..5]);
    Pad4OfRead(s[6..10]);
    assert s == s[0..2] + "/" + s[3..5] + "/" + s[6..10];
  }

  /** Two dates with the same DD/MM/YYYY text are the same date. */
  lemma FormatDmyInjective(a: Date, b: Date)
    requires IsDate(a) && IsDate(b) && FormatDmy(a) == FormatDmy(b)
    ensures a == b
  {
    ParseFormatDmy(a);
    ParseFormatDmy(b);
  }

  // ---------------------------------------------------------------------------
  // '%d %B %Y'

  /** `%B` in the C locale, which Python keeps for `LC_TIME` unless the program changes it. */
  function MonthName(m: int): (name: string)
    requires 1 <= m <= 12
    ensures 3 <= |name| && ' ' !in name
  {
    if m == 1 then "January" else if m == 2 then "February" else if m == 3 then "March"
    else if m == 4 then "April" else if m == 5 then "May" else if m == 6 then "June"
    else if m == 7 then "July" else if m == 8 then "August" else if m == 9 then "September"
    else if m == 10 then "October" else if m == 11 then "November" else "December"
  }

  /** The month number of a full month name, searching from month `m` on. */
  function MonthNumber(name: string, m: int): (r: Option<int>)
    requires 1 <= m <= 12
    ensures r.Some? ==> m <= r.value <= 12 && MonthName(r.value) == name
    ensures r.None? ==> forall k :: m <= k <= 12 ==> MonthName(k) != name
    decreases 12 - m
  {
    if MonthName(m) == name then Some(m)
    else if m == 12 then None
    else MonthNumber(name, m + 1)
  }

  lemma MonthNamesDistinct(j: int, k: int)
    requires 1 <= j <= 12 && 1 <= k <= 12 && j != k
    ensures MonthName(j) != MonthName(k)
  {
  }

  /** `d.strftime('%d %B %Y')`, e.g. "03 March 2026". */
  function FormatLong(d: Date): (s: string)
    requires IsDate(d)
  {
    Pad2(d.day) + " " + MonthName(d.month) + " " + Pad4(d.year)
  }

  /** Reads "DD Month YYYY" back. */
  function ParseLong(s: string): Option<Date> {
    var n := |s|;
    if n >= 10 && s[2] == ' ' && s[n - 5] == ' ' && AllDigits(s[0..2]) && AllDigits(s[n - 4..]) then
      match MonthNumber(s[3..n - 5], 1)
      case None => None
      case Some(m) =>
        var d := Date(ReadNumber(s[n - 4..]), m, ReadNumber(s[0..2]));
        if IsDate(d) then Some(d) else None
    else None
  }

  lemma ParseFormatLong(d: Date)
    requires IsDate(d)
    ensures ParseLong(FormatLong(d)) == Some(d)
  {
    var s := FormatLong(d);
    var n := |s|;
    var name := MonthName(d.month);
    assert s[0..2] == Pad2(d.day);
    assert s[3..n - 5] == name;
    assert s[n - 4..] == Pad4(d.year);
    var r := MonthNumber(name, 1);
    if r.Some? && r.value != d.month {
      MonthNamesDistinct(r.value, d.month);
    }
  }

  /** The sidebar and the discharge note show the same date: each text reads back to it. */
  lemma RenderingsAgree(d: Date)
    requires IsDate(d)
    ensures ParseLong(FormatLong(d)) == ParseDmy(FormatDmy(d)) == Some(d)
  {
    ParseFormatLong(d);
    ParseFormatDmy(d);
  }
}
