# DVLA clinical guidance quick-reference: a verified model of its logic

`app.py` is a one-page Streamlit tool for clinicians. The clinician enters the
date of a clinical event and a number of months off driving. A sidebar
calculator shows the earliest date the patient may drive again. The clinician
then picks a condition from a drop-down. The page shows the DVLA's Group 1 and
Group 2 rules for that condition and whether the condition is notifiable,
coloured red or green. It also shows a discharge-summary sentence to copy into
the notes.

This project models the four pieces of logic under the UI calls, as Dafny
functions, and proves their properties as lemmas:

- **Return-to-drive calculator** (`App.ReturnDate`). It takes the event date
  plus `months_off * 30` days, using Python's `date + timedelta`. Dates are
  proleptic-Gregorian civil dates (module `Calendar`). They are numbered by
  ordinal exactly as `date.toordinal()` numbers them: 0001-01-01 is day 1.
  `ToOrdinal` (days-from-civil) and `FromOrdinal` (civil-from-days) are proved
  mutually inverse. `AddDays` is defined through them. Python's range for
  `date` (years 1 to 9999) and its `OverflowError` live in module `PyDate`.
- **Condition table and drop-down** (module `Catalog`). `DVLA_DATA` is an
  ordered sequence of (condition, entry) pairs, so insertion order is kept.
  The options are the placeholder `"Select a condition..."` followed by the
  keys. `Get` models `DVLA_DATA[key]`, with `KeyError` for a missing key.
- **Notification colour** (module `Notification`). The written rule is red
  exactly when `notifiable.lower() == "yes"`. The intended rule is described
  under Findings below.
- **Discharge-summary text** (module `Advice`) and the two `strftime` patterns,
  `'%d/%m/%Y'` and `'%d %B %Y'` (module `DateFormat`). Each pattern has a
  strict parser, so zero padding and round trips can be stated and proved.

`App.RunPage` puts these together for one run of the script. It returns the
sidebar date and the main panel (the prompt, or the guidance for the chosen
condition). The result is a `Result`: `OverflowError` from the date
arithmetic, and `KeyError` from a lookup with a choice that is not in the
table.

The calculator counts a month as a flat 30 days, and the table has one level:
each condition maps straight to its entry. The panel's colour follows the
script's rule as written (app.py:73).

## Model

| member | source | states |
|---|---|---|
| Calendar.FromOrdinal | app.py:57 | civil-from-days: for every ordinal n >= 1, a valid calendar date whose ordinal is n |
| Calendar.FromToOrdinal | app.py:57 | civil-from-days undoes days-from-civil on every valid date, so together they are a bijection between dates and positive ordinals |
| Calendar.OrdinalOrder | app.py:57 | a date is before another exactly when its ordinal is smaller, and two dates are equal exactly when their ordinals are |
| Calendar.AddDays | app.py:57 | the date k days on is a valid date whose ordinal is exactly k more |
| Calendar.AddZeroDays | app.py:57 | adding 0 days gives back the same date |
| Calendar.AddDaysMonotone | app.py:57 | adding more days never gives an earlier date, and adding strictly more gives a strictly later one |
| Calendar.AddDaysAdditive | app.py:57 | adding j days and then k days is the same as adding j + k days |
| Calendar.AddOneDay | app.py:57 | one day on is the next day of the month, else the 1st of the next month, else 1 January of the next year (this covers month ends, year ends and 29 February) |
| PyDate.DateRange | app.py:52 | `date.max` (9999-12-31) has ordinal 3652059; a valid date is a Python `date` exactly when its ordinal is at most that |
| PyDate.AddTimedelta | app.py:57 | `d + timedelta(days=k)` succeeds exactly when the new ordinal is in 1..3652059, gives a Python date with ordinal shifted by k, and otherwise fails with `OverflowError` |
| App.ReturnDate | app.py:53-57 | the return date exists exactly when the event's ordinal plus 30 * months is at most `date.max`'s; it is then a valid date exactly 30 * months days on; otherwise `OverflowError` |
| App.ReturnDateIsCalendarShift | app.py:56-57 | the return date is the calendar date 30 * months days after the event |
| App.ReturnDateZero | app.py:53-57 | 0 months off gives the event date itself |
| App.ReturnDateMonotone | app.py:53-57 | if more months give a date, fewer months do too; more months never give an earlier date, and strictly more give a later one |
| App.ReturnDateWithin720Days | app.py:53-57 | the return date is never before the event and is at most 720 days after it |
| App.ReturnDateDefined | app.py:52-57 | for every event up to year 9997 and every months value 0..24, the calculator does not overflow |
| App.ReturnDateOverflows | app.py:57 | one month from 9999-12-31 raises `OverflowError` |
| App.ReturnDateExampleLeapFebruary | app.py:57 | 15 Feb 2024 + 1 month is 16 Mar 2024 |
| App.ReturnDateExampleYearEnd | app.py:57 | 15 Dec 2023 + 1 month is 14 Jan 2024 |
| App.ReturnDateExampleJanuaryEndLeap | app.py:57 | 31 Jan 2024 + 1 month is 1 Mar 2024 (a leap year) |
| App.ReturnDateExampleJanuaryEndCommon | app.py:57 | 31 Jan 2023 + 1 month is 2 Mar 2023 |
| App.ReturnDateExampleFromLeapDay | app.py:57 | 29 Feb 2024 + 12 months is 23 Feb 2025 |
| DateFormat.Pad2 | app.py:92 | `%d` and `%m` write exactly two decimal digits that denote the number, with a leading zero below 10 |
| DateFormat.Pad4 | app.py:92 | `%Y` writes exactly four decimal digits that denote the year |
| DateFormat.Pad2OfRead | app.py:92 | every two-digit string is the padded form of the number it denotes |
| DateFormat.Pad4OfRead | app.py:92 | every four-digit string is the padded form of the number it denotes |
| DateFormat.FormatDmy | app.py:92 | `'%d/%m/%Y'` gives 10 characters with `/` at positions 2 and 5; positions 0-1, 3-4 and 6-9 are digits that denote the day, the month and the year |
| DateFormat.ParseFormatDmy | app.py:92 | reading DD/MM/YYYY back gives the same date, for every year 1..9999 |
| DateFormat.FormatParseDmy | app.py:92 | every string the reader accepts is exactly `FormatDmy` of the date it reads, so the format is canonical |
| DateFormat.FormatDmyInjective | app.py:92 | two dates with the same DD/MM/YYYY text are the same date |
| DateFormat.MonthNumber | app.py:58 | the month-name lookup finds a month whose `%B` name is the text, and fails only when no month has that name |
| DateFormat.ParseFormatLong | app.py:58 | reading back `'%d %B %Y'` gives the same date |
| DateFormat.RenderingsAgree | app.py:58 | the sidebar's `'%d %B %Y'` text and the note's `'%d/%m/%Y'` text both read back to the same date |
| Catalog.Get | app.py:70 | `t[key]` succeeds exactly when key is one of the keys, and then returns the entry paired with that key; otherwise `KeyError` |
| Catalog.KeysAt | app.py:66 | `list(t.keys())` has one key per row, in row order |
| Catalog.OptionsLayout | app.py:64-67 | the options are the placeholder followed by every condition, in table order |
| Catalog.GetAt | app.py:70 | in a table without repeated keys, indexing with a row's condition returns that row's entry |
| Catalog.SelectionResolves | app.py:69-70 | every option other than the placeholder is a key, so `DVLA_DATA[search_query]` cannot fail |
| Catalog.ShippedOptions | app.py:14-35 | the shipped table has no repeated keys, its options are the placeholder and the four conditions in source order, and the placeholder is not a key |
| Catalog.ShippedEntriesComplete | app.py:14-35 | every shipped entry has non-empty `group1`, `group2` and `notifiable` text |
| Notification.Lower | app.py:73 | lower-casing keeps the length |
| Notification.LowerAt | app.py:73 | lower-casing maps each character on its own |
| Notification.RedExactlyForYes | app.py:73 | the written rule gives red exactly for 3-character texts spelling y-e-s in any mix of upper and lower case |
| Notification.ShippedAllGreen | app.py:73 | under the written rule every shipped condition is shown green |
| Notification.EpilepsyShownGreen | app.py:28 | Epilepsy's notifiable text is "Yes." and the written rule shows it green |
| Notification.IntendedExtendsWritten | app.py:73 | the intended rule is red wherever the written one is, and agrees with it on every text that does not end in a full stop |
| Notification.IntendedRedExactly | app.py:73 | the intended rule gives red exactly for "yes" in any case, with or without one trailing full stop |
| Notification.ShippedIntendedColours | app.py:73 | on the shipped table the intended rule shows Epilepsy, and only Epilepsy, red |
| Advice.Decimal | app.py:92 | `str(months_off)` is a non-empty string of digits, without a leading zero, that denotes the number |
| Advice.DecimalCanonical | app.py:92 | every digit string without a leading zero is the `str` of the number it denotes |
| Advice.SnippetReadsBack | app.py:92 | the note is the fixed template. In order and at fixed places it holds the condition name verbatim, the decimal months (which read back to `months_off`) and the DD/MM/YYYY date (which reads back to the return date) |
| Advice.SnippetDetermines | app.py:92 | for one condition, equal notes have equal months and equal return dates |
| App.PageNeverKeyError | app.py:64-70 | for any drop-down choice the page never raises `KeyError`; its only failure is `OverflowError`, and it always succeeds for events up to year 9997 |
| App.PageUnknownChoice | app.py:69-70 | for events up to year 9997, a choice that is neither the placeholder nor a key raises `KeyError` |
| App.PageSidebarAndPrompt | app.py:58-96 | the sidebar shows the return date; the prompt is shown exactly when the placeholder is chosen |
| App.PageGuidance | app.py:69-93 | for the condition of a row, the panel shows that row's notifiable text, its colour under the written rule, its Group 1 and Group 2 texts, and the snippet for that condition, months and return date, which names the condition, holds the months as digits that read back, and holds the sidebar's date |
| App.ScriptPage | app.py:64-93 | over the shipped table, the placeholder and every condition give a page for events up to year 9997, and each condition's panel is exactly its row's notifiable text, its colour under the written rule, its Group 1 and Group 2 texts, and the snippet for that condition, months and return date |
| App.ScriptPageColours | app.py:73-74 | on the script's page every condition is shown green, yet the corrected rule marks Epilepsy, and only it, red |
| App.StrokeScenario | app.py:50-93 | TIA / Stroke, event on 1 Feb 2026, 1 month off: sidebar "03 March 2026"; the row's texts; green; the full note, whose date field is 03/03/2026 |
| App.StrokeTexts | app.py:58-92 | the two texts of that scenario, written out |

Determinism of the note is by construction: `Advice.Snippet` is a function.
No lemma is needed to state it.

## Left out

- The page configuration, CSS, title, caption, columns, sub-headers, divider, sidebar info box and disclaimer (app.py:5-9, 38-47, 60-61, 76-87, 99-100). They are presentation only. The `unsafe_allow_info` keyword at app.py:43, which does not exist, is a library-call matter and not logic.
- The Markdown around the values: the "Earliest return date" message, the `<span>` line for the notifiable text and the text-area widget (app.py:58, 74, 93). `App.Page` holds the values those lines show, not the Markdown text.
- `datetime.now()` as the default event date (app.py:52). It reads the clock. The event date is a parameter instead.
- The widgets themselves. `st.selectbox` returns one of its options: `App.PageNeverKeyError` assumes this. `st.number_input` returns an integer 0..24: `App.MonthsOff` is that subset type. `st.date_input` returns a `date`: `PyDate.IsDate`. The date picker's own default bounds (ten years either side of its initial value) are not modelled. The model allows any year 1..9999.
- DateFormat.Pad4, and through it DateFormat.FormatDmy, DateFormat.FormatLong, DateFormat.ParseFormatDmy and DateFormat.ParseFormatLong: the model always writes four digits for `%Y`. For years below 1000, what Python writes depends on the platform's C library. The round trips are stated for the model's four-digit form.
- DateFormat.MonthName: `%B` is modelled with the English names of the C locale. Python keeps that locale for `LC_TIME` unless the program changes it. Other locales are not modelled.
- Notification.Lower: only ASCII letters are lower-cased. Python's `str.lower()` maps all of Unicode. The proved facts about "yes" also hold under the full mapping, but the model does not show that.
- Catalog.Get: the model covers tables without repeated keys (`Catalog.IsDict`). A Python dict literal with a repeated key keeps the last value, and this is not modelled. The shipped table has no repeated key (`Catalog.ShippedOptions`).
- CPython computes `date.fromordinal` with a cascade of `divmod` by 400, 100, 4 and 1 years. `Calendar.FromOrdinal` instead splits off whole 400-year cycles and then searches within one cycle. Both are the inverse of `toordinal` (`Calendar.FromToOrdinal`), so they are the same function.
- The reading-back functions (`ParseDmy`, `ParseLong`, `MonthNumber`) are not in the script. They exist only to state the formatters' round trips.

## Findings

| source | as written | input that shows it | evidently intended | confidence | as-written member | corrected member |
|---|---|---|---|---|---|---|
| app.py:73 | the colour is red only when `notifiable.lower() == "yes"` exactly, but every text in the table ends with a full stop | Epilepsy (First Seizure), whose notifiable text is `"Yes."` (app.py:28): shown green, like every other condition | the one condition marked notifiable is shown red: "yes" in any case, with or without a trailing full stop | high; not executed | Notification.EpilepsyShownGreen | Notification.ShippedIntendedColours |

`Notification.NotifColour` is the rule as written, and `App.RunPage` uses it,
so the modelled page shows what the script shows. `Notification.IntendedColour`
is the corrected rule. Of all the shipped conditions, it changes Epilepsy's
colour only (`Notification.IntendedExtendsWritten`, `Notification.ShippedAllGreen`,
`Notification.ShippedIntendedColours`). `App.ScriptPageColours` states both on
the script's page: every condition is shown green, and the corrected rule
would show Epilepsy, and only Epilepsy, red.
