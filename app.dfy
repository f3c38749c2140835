/** One run of the script: the sidebar's return-to-drive calculator, then the
    main panel for the condition chosen in the drop-down. */
module App {
  import opened Calendar
  import opened PyDate
  import opened DateFormat
  import opened Results
  import opened Catalog
  import opened Notification
  import opened Advice

  /** What "Months recommended off:" can hold: an integer from 0 to 24. */
  type MonthsOff = m: int | 0 <= m <= 24

  /** The calculator's flat month. */
  const DaysPerMonth := 30

  /** `event_date + timedelta(days=(months_off * 30))`. */
  function ReturnDate(event: Date, months: MonthsOff): (r: Result<Date, PyError>)
    requires IsDate(event)
    ensures r.Ok? <==> ToOrdinal(event) + DaysPerMonth * months <= MaxOrdinal
    ensures r.Ok? ==> IsDate(r.value) && ToOrdinal(r.value) - ToOrdinal(event) == DaysPerMonth * months
    ensures r.Err? ==> r.error == OverflowError
  {
    DateRange(event);
    AddTimedelta(event, DaysPerMonth * months)
  }

  /** The return date is the calendar date exactly 30 days per month later. */
  lemma ReturnDateIsCalendarShift(event: Date, months: MonthsOff)
    requires IsDate(event) && ReturnDate(event, months).Ok?
    ensures ReturnDate(event, months).value == AddDays(event, DaysPerMonth * months)
  {
    OrdinalOrder(ReturnDate(event, months).value, AddDays(event, DaysPerMonth * months));
  }

  /** No months off: the return date is the event date. */
  lemma ReturnDateZero(event: Date)
    requires IsDate(event)
    ensures ReturnDate(event, 0) == Ok(event)
  {
    OrdinalOrder(ReturnDate(event, 0).value, event);
  }

  /** More months never give an earlier date; strictly more give a later one. */
  lemma ReturnDateMonotone(event: Date, m1: MonthsOff, m2: MonthsOff)
    requires IsDate(event) && m1 <= m2 && ReturnDate(event, m2).Ok?
    ensures ReturnDate(event, m1).Ok?
    ensures !Before(ReturnDate(event, m2).value, ReturnDate(event, m1).value)
    ensures m1 < m2 ==> Before(ReturnDate(event, m1).value, ReturnDate(event, m2).value)
  {
    var r1, r2 := ReturnDate(event, m1).value, ReturnDate(event, m2).value;
    OrdinalOrder(r1, r2);
    OrdinalOrder(r2, r1);
  }

  /** The return date is never before the event and at most 720 days after it. */
  lemma ReturnDateWithin720Days(event: Date, months: MonthsOff)
    requires IsDate(event) && ReturnDate(event, months).Ok?
    ensures var r := ReturnDate(event, months).value;
      !Before(r, event) && ToOrdinal(r) <= ToOrdinal(event) + 720
  {
    OrdinalOrder(ReturnDate(event, months).value, event);
  }

  /** The calculator only overflows for events in the last two years Python can hold. */
  lemma ReturnDateDefined(event: Date, months: MonthsOff)
    requires IsDate(event) && event.year <= MaxYear - 2
    ensures ReturnDate(event, months).Ok?
  {
    DayOfYearBound(event);
    YearStep(event.year);
    YearsMonotone(event.year + 1, MaxYear - 1);
    assert DaysBeforeYear(MaxYear - 1) + 730 <= MaxOrdinal;
  }

  /** At the top of the range the calculator does overflow. */
  lemma ReturnDateOverflows()
    ensures ReturnDate(Date(9999, 12, 31), 1) == Err(OverflowError)
  {
    DateRange(Date(9999, 12, 31));
  }

  /** Worked example: across the end of a month in a leap year. */
  lemma ReturnDateExampleLeapFebruary()
    ensures ReturnDate(Date(2024, 2, 15), 1) == Ok(Date(2024, 3, 16))
  {
    ShiftExample(Date(2024, 2, 15), 1, Date(2024, 3, 16));
  }

  /** Worked example: across the end of a year. */
  lemma ReturnDateExampleYearEnd()
    ensures ReturnDate(Date(2023, 12, 15), 1) == Ok(Date(2024, 1, 14))
  {
    ShiftExample(Date(2023, 12, 15), 1, Date(2024, 1, 14));
  }

  /** Worked example: 30 days from 31 January run past the whole of a leap February. */
  lemma ReturnDateExampleJanuaryEndLeap()
    ensures ReturnDate(Date(2024, 1, 31), 1) == Ok(Date(2024, 3, 1))
  {
    ShiftExample(Date(2024, 1, 31), 1, Date(2024, 3, 1));
  }

  /** Worked example: 30 days from 31 January run past the whole of a common February. */
  lemma ReturnDateExampleJanuaryEndCommon()
    ensures ReturnDate(Date(2023, 1, 31), 1) == Ok(Date(2023, 3, 2))
  {
    ShiftExample(Date(2023, 1, 31), 1, Date(2023, 3, 2));
  }

  /** Worked example: twelve months of 30 days from 29 February fall short of a year. */
  lemma ReturnDateExampleFromLeapDay()
    ensures ReturnDate(Date(2024, 2, 29), 12) == Ok(Date(2025, 2, 23))
  {
    ShiftExample(Date(2024, 2, 29), 12, Date(2025, 2, 23));
  }

  /** A claimed return date is the one computed once its ordinal is right. */
  lemma ShiftExample(event: Date, months: MonthsOff, expected: Date)
    requires IsDate(event) && IsDate(expected)
    requires ToOrdinal(expected) == ToOrdinal(event) + DaysPerMonth * months
    ensures ReturnDate(event, months) == Ok(expected)
  {
    DateRange(expected);
    OrdinalOrder(ReturnDate(event, months).value, expected);
  }

  // ---------------------------------------------------------------------------
  // The page

  /** The main panel: the prompt, or the guidance for one condition. */
  datatype Panel =
    | Prompt
    | Guidance(notifiable: string, colour: Colour, group1: string, group2: string, advice: string)

  /** What one run shows: the sidebar's "Earliest return date" and the main panel. */
  datatype Page = Page(sidebarDate: string, panel: Panel)

  /** One run of the script over table `t` (the script's own is `DvlaData`) for an
      event date, a number of months and a drop-down choice. The colour follows the
      script's rule as written, `Notification.NotifColour`. */
  function RunPage(t: Table, event: Date, months: MonthsOff, choice: string): Result<Page, PyError>
    requires IsDate(event)
  {
    match ReturnDate(event, months)
    case Err(e) => Err(e)
    case Ok(ret) =>
      var sidebar := FormatLong(ret);
      if choice == Placeholder then Ok(Page(sidebar, Prompt))
      else
        match Get(t, choice)
        case Err(e) => Err(e)
        case Ok(entry) =>
          Ok(Page(sidebar, Guidance(entry.notifiable, NotifColour(entry.notifiable),
                                    entry.group1, entry.group2, Snippet(choice, months, ret))))
  }

  /** A choice from the drop-down never raises `KeyError`; the only failure is the
      calculator's overflow, and it cannot happen before year 9998. */
  lemma PageNeverKeyError(t: Table, event: Date, months: MonthsOff, choice: string)
    requires IsDate(event) && choice in Options(t)
    ensures RunPage(t, event, months, choice).Err? ==> RunPage(t, event, months, choice).error == OverflowError
    ensures event.year <= MaxYear - 2 ==> RunPage(t, event, months, choice).Ok?
  {
    if choice != Placeholder {
      SelectionResolves(t, choice);
    }
    if event.year <= MaxYear - 2 {
      ReturnDateDefined(event, months);
    }
  }

  /** A choice outside the table and other than the placeholder raises `KeyError`. */
  lemma PageUnknownChoice(t: Table, event: Date, months: MonthsOff, choice: string)
    requires IsDate(event) && event.year <= MaxYear - 2
    requires choice != Placeholder && choice !in Keys(t)
    ensures RunPage(t, event, months, choice) == Err(KeyError)
  {
    ReturnDateDefined(event, months);
  }

  /** The sidebar shows the return date, and the placeholder, and only it, shows the prompt. */
  lemma PageSidebarAndPrompt(t: Table, event: Date, months: MonthsOff, choice: string)
    requires IsDate(event) && RunPage(t, event, months, choice).Ok?
    ensures var page := RunPage(t, event, months, choice).value;
      && ParseLong(page.sidebarDate) == Some(ReturnDate(event, months).value)
      && (choice == Placeholder <==> page.panel == Prompt)
  {
    ParseFormatLong(ReturnDate(event, months).value);
  }

  /** For the condition in row `i`, the panel shows that row's fields and colour, and
      advice naming the condition, the months and the sidebar's date. */
  lemma PageGuidance(t: Table, event: Date, months: MonthsOff, i: int)
    requires IsDate(event) && IsDict(t) && 0 <= i < |t| && t[i].0 != Placeholder
    requires RunPage(t, event, months, t[i].0).Ok?
    ensures var page := RunPage(t, event, months, t[i].0).value;
      var entry := t[i].1;
      && page.panel.Guidance?
      && page.panel == Guidance(entry.notifiable, NotifColour(entry.notifiable), entry.group1,
                                entry.group2, Snippet(t[i].0, months, ReturnDate(event, months).value))
      && var advice := page.panel.advice;
      && advice[|Opening|..|Opening| + |t[i].0|] == t[i].0
      && AllDigits(MonthsField(advice, t[i].0))
      && ReadNumber(MonthsField(advice, t[i].0)) == months
      && ParseDmy(DateField(advice)) == ParseLong(page.sidebarDate)
  {
    var ret := ReturnDate(event, months).value;
    ParseFormatLong(ret);
    GetAt(t, i);
    SnippetReadsBack(t[i].0, months, ret);
  }

  /** The script's page: `RunPage` over the shipped table. Every drop-down choice works
      for events up to 9997, and each condition's panel shows that condition's row, its
      colour and the advice snippet for that condition, months and return date. */
  lemma ScriptPage(event: Date, months: MonthsOff, i: int)
    requires IsDate(event) && event.year <= MaxYear - 2 && 0 <= i < |DvlaData|
    ensures RunPage(DvlaData, event, months, Placeholder).Ok?
    ensures RunPage(DvlaData, event, months, DvlaData[i].0).Ok?
    ensures RunPage(DvlaData, event, months, DvlaData[i].0).value.panel == Guidance(
      DvlaData[i].1.notifiable, NotifColour(DvlaData[i].1.notifiable),
      DvlaData[i].1.group1, DvlaData[i].1.group2,
      Snippet(DvlaData[i].0, months, ReturnDate(event, months).value))
  {
    ShippedOptions();
    OptionsLayout(DvlaData);
    assert Options(DvlaData)[i + 1] == DvlaData[i].0;
    PageNeverKeyError(DvlaData, event, months, Placeholder);
    PageNeverKeyError(DvlaData, event, months, DvlaData[i].0);
    PageGuidance(DvlaData, event, months, i);
  }

  /** The script's page shows every condition green, Epilepsy included, although the
      corrected rule marks Epilepsy, and only it, red. */
  lemma ScriptPageColours(event: Date, months: MonthsOff, i: int)
    requires IsDate(event) && event.year <= MaxYear - 2 && 0 <= i < |DvlaData|
    ensures RunPage(DvlaData, event, months, DvlaData[i].0).Ok?
    ensures var panel := RunPage(DvlaData, event, months, DvlaData[i].0).value.panel;
      && panel.Guidance?
      && panel.colour == Green
      && (IntendedColour(panel.notifiable) == Red <==> DvlaData[i].0 == "Epilepsy (First Seizure)")
  {
    ScriptPage(event, months, i);
    ShippedAllGreen();
    ShippedIntendedColours();
  }

  /** The worked scenario: TIA / Stroke, event on 1 February 2026, one month off. */
  lemma StrokeScenario()
    ensures RunPage(DvlaData, Date(2026, 2, 1), 1, "TIA / Stroke") == Ok(Page("03 March 2026", Guidance(
      "Only if multiple TIAs over short period or residual deficit after 1 month.",
      Green,
      "Must not drive for 1 month. May resume after 1 month if no residual deficit.",
      "Licence refused or revoked for 1 year. Can be relicensed after 1 year if stable.",
      StrokeAdvice)))
  {
    var ret := Date(2026, 3, 3);
    ShiftExample(Date(2026, 2, 1), 1, ret);
    ScriptPage(Date(2026, 2, 1), 1, 0);
    RedExactlyForYes(DvlaData[0].1.notifiable);
    StrokeTexts();
  }

  /** "Following your TIA / Stroke, you have been advised that you must not drive for 1
      month(s). Based on current DVLA guidance, your earliest date to resume driving is
      03/03/2026. It is your legal responsibility to notify the DVLA if required." */
  const StrokeAdvice := Opening + "TIA / Stroke" + BeforeMonths + "1" + BeforeDate + "03/03/2026" + Closing

  /** The two texts of the worked scenario. */
  lemma StrokeTexts()
    ensures FormatLong(Date(2026, 3, 3)) == "03 March 2026"
    ensures Snippet("TIA / Stroke", 1, Date(2026, 3, 3)) == StrokeAdvice
  {
    assert Decimal(1) == "1";
    assert Pad2(3) == "03" && Pad4(2026) == "2026";
    assert FormatDmy(Date(2026, 3, 3)) == "03/03/2026";
  }
}
