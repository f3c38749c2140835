/** The "Patient Advice" text under "Discharge Summary Text (Copy/Paste)": a
    fixed sentence template with three holes, the condition, the number of
    months (as Python's `str(int)` writes it) and the return date as DD/MM/YYYY. */
module Advice {
  import opened Calendar
  import opened PyDate
  import opened DateFormat
  import opened Results

  /** `str(n)` for a non-negative integer: decimal, no leading zeros. */
  function Decimal(n: nat): (s: string)
    ensures s != [] && AllDigits(s) && ReadNumber(s) == n
    ensures |s| > 1 ==> s[0] != '0'
  {
    if n < 10 then
      var s := [DigitChar(n)];
      assert s[..0] == [];
      s
    else
      var p := Decimal(n / 10);
      var s := p + [DigitChar(n % 10)];
      assert s[..|s| - 1] == p;
      s
  }

  /** A decimal numeral without leading zeros is the one `Decimal` writes. */
  lemma {:induction false} DecimalCanonical(s: string)
    requires s != [] && AllDigits(s) && (|s| > 1 ==> s[0] != '0')
    ensures Decimal(ReadNumber(s)) == s
  {
    var p := s[..|s| - 1];
    if |s| > 1 {
      assert p[0] == s[0];
      DecimalCanonical(p);
      var n := ReadNumber(s);
      assert n == 10 * ReadNumber(p) + DigitValue(s[|s| - 1]);
      assert n / 10 == ReadNumber(p) && n % 10 == DigitValue(s[|s| - 1]);
      assert ReadNumber(p) > 0 by {
        assert p[..|p| - 1] + [p[|p| - 1]] == p;
        LeadingDigitPositive(p);
      }
      assert s == p + [s[|s| - 1]];
    }
  }

  /** A numeral whose first digit is not 0 denotes a positive number. */
  lemma {:induction false} LeadingDigitPositive(s: string)
    requires s != [] && AllDigits(s) && s[0] != '0'
    ensures ReadNumber(s) > 0
  {
    if |s| > 1 {
      var p := s[..|s| - 1];
      assert p[0] == s[0];
      LeadingDigitPositive(p);
    }
  }

  const Opening := "Following your "
  const BeforeMonths := ", you have been advised that you must not drive for "
  const BeforeDate := " month(s). Based on current DVLA guidance, your earliest date to resume driving is "
  const Closing := ". It is your legal responsibility to notify the DVLA if required."

  /** The advice text for `condition`, `months` months off and return date `ret`. */
  function Snippet(condition: string, months: nat, ret: Date): string
    requires IsDate(ret)
  {
    Opening + condition + BeforeMonths + Decimal(months) + BeforeDate + FormatDmy(ret) + Closing
  }

  /** Where each of seven concatenated pieces sits in the whole. */
  lemma PiecesAt(a: string, b: string, c: string, d: string, e: string, f: string, g: string)
    ensures var s := a + b + c + d + e + f + g;
      var i := |a| + |b| + |c|;
      var j := |s| - |g|;
      && s[..|a|] == a
      && s[|a|..|a| + |b|] == b
      && s[|a| + |b|..i] == c
      && s[i..j - |f| - |e|] == d
      && s[j - |f| - |e|..j - |f|] == e
      && s[j - |f|..j] == f
      && s[j..] == g
  {
    var s := a + b + c + d + e + f + g;
    assert s == (a + b + c) + d + (e + f + g);
  }

  /** The part of an advice text for `condition` where the months stand. */
  function MonthsField(s: string, condition: string): string
    requires |Opening| + |condition| + |BeforeMonths| <= |s| - |Closing| - 10 - |BeforeDate|
  {
    s[|Opening| + |condition| + |BeforeMonths|..|s| - |Closing| - 10 - |BeforeDate|]
  }

  /** The part of an advice text where the return date stands. */
  function DateField(s: string): string
    requires |Closing| + 10 <= |s|
  {
    s[|s| - |Closing| - 10..|s| - |Closing|]
  }

  /** The text holds, in this order and at these places, the condition verbatim,
      the months in decimal and the return date as DD/MM/YYYY; each reads back. */
  lemma SnippetReadsBack(condition: string, months: nat, ret: Date)
    requires IsDate(ret)
    ensures var s := Snippet(condition, months, ret);
      var c := |Opening|;
      var m := c + |condition| + |BeforeMonths|;
      var e := |s| - |Closing|;
      && m < e - 10 - |BeforeDate|
      && s[..c] == Opening
      && s[c..c + |condition|] == condition
      && s[c + |condition|..m] == BeforeMonths
      && AllDigits(MonthsField(s, condition))
      && ReadNumber(MonthsField(s, condition)) == months
      && s[e - 10 - |BeforeDate|..e - 10] == BeforeDate
      && ParseDmy(DateField(s)) == Some(ret)
      && s[e..] == Closing
  {
    var d, f := Decimal(months), FormatDmy(ret);
    var s := Snippet(condition, months, ret);
    PiecesAt(Opening, condition, BeforeMonths, d, BeforeDate, f, Closing);
    assert |f| == 10;
    assert MonthsField(s, condition) == d;
    assert DateField(s) == f;
    ParseFormatDmy(ret);
  }

  /** For one condition, the text determines the months and the return date. */
  lemma SnippetDetermines(condition: string, m1: nat, d1: Date, m2: nat, d2: Date)
    requires IsDate(d1) && IsDate(d2)
    requires Snippet(condition, m1, d1) == Snippet(condition, m2, d2)
    ensures m1 == m2 && d1 == d2
  {
    var s := Snippet(condition, m1, d1);
    SnippetReadsBack(condition, m1, d1);
    SnippetReadsBack(condition, m2, d2);
    assert ReadNumber(MonthsField(s, condition)) == m1 && ReadNumber(MonthsField(s, condition)) == m2;
    assert ParseDmy(DateField(s)) == Some(d1) && ParseDmy(DateField(s)) == Some(d2);
  }
}
