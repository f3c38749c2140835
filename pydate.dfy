/** Python's `datetime.date` and the one operation the script applies to it,
    `date + timedelta(days=k)`, which CPython computes as
    `date.fromordinal(self.toordinal() + k)` and refuses with `OverflowError`
    when the ordinal leaves 1 .. `date.max.toordinal()`. */
module PyDate {
  import opened Calendar
  import opened Results

  const MinYear := 1
  const MaxYear := 9999

  /** The ordinal of `date.max`, 9999-12-31. */
  const MaxOrdinal := 3652059

  /** A value of type `datetime.date`: a valid calendar date in years 1 .. 9999. */
  predicate IsDate(d: Date) {
    Valid(d) && MinYear <= d.year <= MaxYear
  }

  /** The dates Python can represent are exactly those with ordinals 1 .. `MaxOrdinal`. */
  lemma DateRange(d: Date)
    requires Valid(d)
    ensures ToOrdinal(Date(MaxYear, 12, 31)) == MaxOrdinal
    ensures 1 <= ToOrdinal(d)
    ensures IsDate(d) <==> ToOrdinal(d) <= MaxOrdinal
  {
    var last := Date(MaxYear, 12, 31);
    assert ToOrdinal(last) == MaxOrdinal;
    OrdinalOrder(d, last);
    if d.year > MaxYear {
      YearStep(MaxYear);
      YearsMonotone(MaxYear + 1, d.year);
    }
  }

  /** `d + timedelta(days=k)`. */
  function AddTimedelta(d: Date, k: int): (r: Result<Date, PyError>)
    requires IsDate(d)
    ensures r.Ok? <==> 1 <= ToOrdinal(d) + k <= MaxOrdinal
    ensures r.Ok? ==> IsDate(r.value) && ToOrdinal(r.value) == ToOrdinal(d) + k
    ensures r.Err? ==> r.error == OverflowError
  {
    var o := ToOrdinal(d) + k;
    if 0 < o <= MaxOrdinal then
      var e := AddDays(d, k);
      DateRange(e);
      Ok(e)
    else
      Err(OverflowError)
  }
}
