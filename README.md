# ICS Calendar Viewer & Editor — a verified model of its core

The application loads an iCalendar (`.ics`) file in the browser and keeps a flat
list of event records. It lets the user search, create, edit and delete events
and exports the calendar again. Each record has an id, a title, a start and an end,
a description, a location, a colour category and an all-day flag.

An import first tries the structured parser (ical.js). When that parser throws,
or yields no usable VEVENT, the import falls back to a line-by-line scanner. When
both yield nothing, the import fails.

Next to the list the application keeps the calendar document (an ical.js
component, or none). It edits the document in step with the list: by UID on
update and delete, and by appending on add. An export writes that document, or,
when there is none, a document synthesised from the records.

A month navigator shows the displayed month as whole weeks. A dot marks every day
that some record spans. Clicks on days of the neighbouring months are ignored.

The model is in Dafny, one module per concern:

- `JsString` (jsstring.dfy): the string built-ins used: `undefined`-or-string values, truthiness, `trim`, `split`, `toLowerCase` (ASCII), `includes`, `Number()` on digit strings.
- `JsDate` (jsdate.dfy): `Date` time values after ECMAScript: `MakeDay`, `TimeClip`, `WeekDay`, `new Date(y, m, d, h, min)`.
- `Seqs` (seqs.dfy): order-preserving filter, subsequence, count.
- `Records` (records.dfy): the event record, the seven-colour palette, and the environment (clock, generated ids, random category).
- `FallbackScanner` (scanner.dfy): the line scanner: a method with its loop, proved equal to a fold of a pure step function.
- `ImportPolicy` (import.dfy): the projection of parsed VEVENTs and the structured-then-fallback decision.
- `CalendarDoc` (calendardoc.dfy): the calendar document as a class, with first-match update and removal by UID and the synthesised export.
- `EventList` (eventlist.dfy): search, replacement and removal by id, and the routing of a form save between update and add.
- `App` (app.dfy): the application state as a class, with one method per handler.
- `EventForm` (eventform.dfy): the editor as a class: initialisation, validation, the submit merge, and the colour map.
- `MiniCalendar` (minicalendar.dfy): calendar dates, the week grid (a method with nested loops proved against a grid function), event dots and month navigation.

The model assumes:

- Clock, ids and randomness are parameters. `Date.now()`, the generated
  `event-…` ids and the `Math.random()` category draws come from an `Env`
  value. `ValidEnv` states what the source guarantees about them: every draw is
  a palette id and every generated id is non-empty.
- The structured parser's result is an input. `ICAL.parse` plus
  `new ICAL.Event(...)` give a `StructuredParse` value: either a parse error, or
  a document together with the fields each VEVENT exposes (`None` for a VEVENT
  whose reading throws).
- The visible list is derived, not stored. `filteredEvents` is recomputed from
  the records and the query by the effect at App.js:38-50 whenever either
  changes, so the model keeps only the records and the query (`AppState.Visible`).

## Model

| member | source | states |
|---|---|---|
| FallbackScanner.ParseFallback | src/App.js:107-173 | the scanning loop over `split('\n')` returns exactly the records of the fold `Scan` of the line step over the classified lines |
| FallbackScanner.ApplyProperty | src/App.js:129-171 | one property line applied to the open draft equals `Assign` on the draft, the key, the value and the value read as a date |
| FallbackScanner.KeyValueOfLine | src/App.js:130 | for `key:value` followed by nothing or another colon, the destructured key is `key` and the value is `value`, cut at the second colon |
| FallbackScanner.KeyValueWithoutColon | src/App.js:130 | a line without a colon is all key, and its value is `undefined` |
| FallbackScanner.ClassifyBareKey | src/App.js:113-130 | a trimmed line without a colon that is not a marker is a property with no value and no date |
| FallbackScanner.KeyMatchingIsExact | src/App.js:132-153 | key comparison is exact: `DTSTART;VALUE=DATE`, `DTSTART;TZID=…` and lower-case `summary` are unrecognised |
| FallbackScanner.ClassifyProperty | src/App.js:113-130 | a clean property line is classified by its key and carries the value between its first and second colon, read as a date |
| FallbackScanner.LaterAssignmentWins | src/App.js:132-171 | a later line for the same key overwrites an earlier one |
| FallbackScanner.AssignmentsCommute | src/App.js:132-171 | lines for different keys commute, except a valueless DTEND against DTSTART |
| FallbackScanner.EndDefaultFollowsStart | src/App.js:162-170 | a valueless DTEND defaults to one hour after the start set before it, else one hour after now |
| FallbackScanner.DecodeDigits | src/App.js:142-148 | `YYYYMMDD[THHMM]` digit slices give year, month minus one, day, hour and minute, with hour and minute 0 when absent |
| FallbackScanner.DecodeExample | src/App.js:142-148 | `20240615T143000` decodes to 2024-06-15 14:30 naive local time |
| FallbackScanner.BeginDiscardsOpenDraft | src/App.js:115-123 | `BEGIN:VEVENT` opens a fresh draft, discarding any unfinished one, and commits nothing |
| FallbackScanner.EndClosesDraft | src/App.js:124-128 | `END:VEVENT` is ignored with nothing open; otherwise it closes the draft and appends it only if start and end were both set |
| FallbackScanner.CommittedOnlyGrows | src/App.js:124-128 | committed records are never removed or reordered; later lines only append |
| FallbackScanner.IdleLinesIgnored | src/App.js:112-129 | lines outside an event, none of them `BEGIN:VEVENT`, change nothing |
| FallbackScanner.BodyFills | src/App.js:129-172 | property lines inside an open event only fill in the draft |
| FallbackScanner.BlockScan | src/App.js:112-173 | a `BEGIN…END` block of property lines appends exactly the record they describe, when it has a start and an end, whatever came before |
| FallbackScanner.BlockWithoutDatesDropped | src/App.js:125-127 | a block without a DTSTART line, or without a DTEND line, commits nothing |
| FallbackScanner.BlockEndDefault | src/App.js:153-170 | a block ending in a valueless DTEND ends one hour after its start; a dated DTEND is taken as is |
| FallbackScanner.AtMostOnePerEnd | src/App.js:124-128 | at most one record is committed per `END:VEVENT` line |
| FallbackScanner.CommittedShape | src/App.js:116-123 | every committed record is not all-day and has a palette category |
| ImportPolicy.Import | src/App.js:59-198 | a Structured or Fallback outcome carries at least one record |
| ImportPolicy.ProjectAll | src/App.js:73-93 | the `map`-then-`filter` keeps one record per readable VEVENT |
| ImportPolicy.ProjectDefaults | src/App.js:79-88 | projection defaults: UID or a generated id (always truthy), summary or `Untitled Event`, empty description and location when absent, dates as given, never all-day, a palette category |
| ImportPolicy.StructuredRecordsTitled | src/App.js:73-93 | every structured record has a truthy id and title and is not all-day |
| ImportPolicy.ProjectAllReadable | src/App.js:73-93 | when every VEVENT is readable, the i-th record is the projection of the i-th VEVENT |
| ImportPolicy.ImportedIdsAreUids | src/App.js:79-80 | a record imported from a VEVENT with a non-empty UID has that UID as id and is found by it; one from a VEVENT without a UID has a generated id that VEVENT does not match |
| ImportPolicy.UnreadableViewsYieldNothing | src/App.js:72-100 | the structured stage yields nothing exactly when every VEVENT fails to project (or there is none) |
| ImportPolicy.StructuredFirst | src/App.js:95-99 | when the structured stage yields a record its result is taken, whatever the text would scan to |
| ImportPolicy.FallbackOnlyAfterStructured | src/App.js:105-188 | the fallback result is taken exactly when the structured stage yields nothing and the scan finds a record |
| ImportPolicy.FailedIffBothEmpty | src/App.js:193-197 | the import fails exactly when both stages yield nothing |
| App.AppState.FileUpload | src/App.js:52-201 | no file changes nothing; otherwise the name is taken and the import's records appended. The calendar becomes the parsed component as soon as parsing succeeds, even when the import then fails; after a fallback import it is a new empty calendar |
| App.FallbackImportThenExport | src/App.js:177-188 | after a fallback import the list holds records but the next export writes no VEVENT |
| CalendarDoc.Synthesized | src/App.js:206-230 | the synthesised calendar has the application's PRODID and VERSION, no other content, and one vevent per record, carrying its id as UID |
| CalendarDoc.Mirror | src/App.js:212-230 | one vevent per record, in list order |
| App.ExportName | src/App.js:234 | the export name is the file name, or `calendar.ics` when empty |
| App.AppState.SaveICS | src/App.js:203-241 | with a calendar the export is its document unchanged; without one, a new calendar holding one vevent per record is built (loop), exported and kept, in step with the list |
| App.ExportTwice | src/App.js:203-241 | exporting twice without a change in between writes the same document |
| CalendarDoc.FirstMatch | src/App.js:255-258 | the first vevent whose UID equals the id, or -1; a missing UID or id matches nothing |
| CalendarDoc.Calendar.FindUid | src/App.js:254-258 | the search loop finds the position `FirstMatch` gives |
| CalendarDoc.Calendar.UpdateEvent | src/App.js:253-276 | the document's vevents become `UpdateFirst` of the old ones; PRODID and VERSION stay |
| CalendarDoc.UpdateFirstSpec | src/App.js:255-275 | update keeps the count, every UID and every untouched property, rewrites only the first match, and changes nothing without one |
| CalendarDoc.UpdateFirstIdempotent | src/App.js:253-276 | updating twice is updating once |
| CalendarDoc.FirstMatchByUids | src/App.js:255-258 | the first match depends on the UIDs alone |
| EventList.ReplaceById | src/App.js:279-281 | same length and ids; every record with the id is replaced, every other kept |
| EventList.ReplaceByIdIdempotent | src/App.js:279-281 | replacing twice is replacing once |
| EventList.ReplaceByIdAbsent | src/App.js:279-281 | an id no record has leaves the list unchanged |
| App.AppState.UpdateEvent | src/App.js:251-290 | document and list updated as above, the record selected, editing ended; list and document stay in step when ids are unique |
| App.MirrorReplace | src/App.js:251-281 | with unique ids, replacing in the list and rewriting the first vevent give the same document |
| App.UpdateDivergesOnDuplicates | src/App.js:251-281 | with two records sharing the id, the list rewrites both but the document only the first |
| CalendarDoc.Calendar.RemoveEvent | src/App.js:297-309 | the document's vevents become `RemoveFirst` of the old ones |
| CalendarDoc.RemoveFirstSpec | src/App.js:300-308 | delete detaches exactly the first vevent with the id, keeping the order of the rest, and nothing when none has it |
| CalendarDoc.DuplicateSurvivesRemove | src/App.js:300-308 | after deleting an id two vevents carry, one with that id remains |
| EventList.RemoveById | src/App.js:312 | the result is a subsequence with no record of the id and keeps every other record |
| EventList.RemoveByIdAbsent | src/App.js:312 | deleting an absent id changes nothing |
| EventList.RemoveByIdSingle | src/App.js:312 | deleting an id one record holds removes that record and keeps the rest in order |
| EventList.RemoveByIdCount | src/App.js:312 | the list shrinks by the number of records holding the id |
| App.AppState.DeleteEvent | src/App.js:296-315 | document and list updated as above and the selection cleared; list and document stay in step when ids are unique |
| App.MirrorRemove | src/App.js:296-313 | with unique ids, dropping from the list and detaching the first vevent give the same document |
| App.DeleteDivergesOnDuplicates | src/App.js:296-313 | with two records sharing the id, the list keeps none but the document keeps one |
| App.NewEventTemplate | src/App.js:317-330 | the new record: id `event-<now>` (truthy), title `New Event`, empty description and location, blue, not all-day, start now, end an hour later |
| App.AppState.CreateEvent | src/App.js:317-335 | the template is selected and opened in the editor, quick add closes, the list is untouched |
| App.QuickAddTemplate | src/App.js:651-660 | the quick-add record is the new-event template with an empty title |
| App.AppState.SaveNewEvent | src/App.js:345-384 | the record is appended and selected and editing ends. A vevent is added only to a calendar that existed before the call; one created by the call stays empty |
| CalendarDoc.Calendar.AddSubcomponent | src/App.js:375 | the vevent is appended; PRODID and VERSION stay |
| App.AddWithoutCalendarThenExport | src/App.js:345-384 | adding with no calendar, then exporting, writes a document without the new record |
| EventList.Route | src/App.js:502 | a save goes to update exactly when the edited record's id is truthy and some record has it |
| App.AppState.Submit | src/App.js:496-502 | for a selected record with a string id, the form's save runs update or add as `Route` decides: an update rewrites every list record with the id and the first vevent with the UID; an add appends to the list and to a calendar that existed before, or leaves a new empty calendar; selection and editing as the handlers set them, the other state unchanged |
| EventList.SavedContains | src/App.js:502 | after a save the record is in the list; an add grows it by one, an update keeps its length |
| EventList.SaveIdempotent | src/App.js:502 | with a truthy id, saving twice equals saving once |
| EventList.SaveWithoutIdDuplicates | src/App.js:502 | without a truthy id every save appends, so saving twice appends the record twice |
| EventList.Search | src/App.js:38-50 | a blank query shows every record; otherwise the result is a subsequence, and the filter throws exactly when some record has no title |
| EventList.SearchKeepsExactlyHits | src/App.js:42-47 | for a non-blank query a record is shown exactly when it matches the lower-cased query in its title, description or location |
| EventList.SearchCaseInsensitive | src/App.js:42 | lower-casing the query first changes nothing |
| App.AppState.SelectEvent | src/App.js:243-245 | the record becomes the selection; nothing else changes |
| App.AppState.SetEditing | src/App.js:247-249 | the editing flag is set; records and selection stay |
| App.AppState.SetQuickAdd | src/App.js:337-343 | the quick-add flag is set; nothing else changes |
| App.AppState.SetQuery | src/App.js:398-400 | the query is set; records and calendar stay |
| App.AppState.CategoryToggle | src/App.js:402-408 | afterwards the chosen category is active, whether or not it was before |
| Records.FindCategory | src/App.js:412 | the first palette index with the id, or -1 with no earlier match |
| Records.CategoryColor | src/App.js:411-414 | the colour of the palette entry with the id, or the first entry's |
| App.AppState.CurrentCategoryColor | src/App.js:411-414 | the active category's palette colour, or blue's when it is not in the palette |
| EventForm.Form.constructor | src/components/EventForm.js:6-14 | the fields start empty, both dates now, blue, not all-day, picker closed, no error |
| EventForm.Initial | src/components/EventForm.js:17-27 | the loaded fields: dates and all-day as given, title, description and location or empty, category or blue (never empty) |
| EventForm.Form.Load | src/components/EventForm.js:17-27 | with a record the fields become `Initial` of it; otherwise they stay |
| EventForm.Validation | src/components/EventForm.js:30-43 | no error exactly when the title is not blank and the end is not before the start; the blank-title message first |
| EventForm.Form.Validate | src/components/EventForm.js:30-43 | sets the error message and reports validity as `Validation` says; fields unchanged |
| EventForm.EmptyTitleRejected | src/components/EventForm.js:31-34 | an empty title is always rejected with the title message |
| EventForm.Merge | src/components/EventForm.js:51-60 | the saved record takes every edited field from the form and the id from the record (undefined without one) |
| EventForm.Form.Submit | src/components/EventForm.js:46-63 | a record is handed on exactly when validation passes, and it is the merge of the record and the fields; the error message is set as validation says; fields and picker stay |
| EventForm.SavedIsValid | src/components/EventForm.js:46-62 | a saved record has a non-blank title and does not end before it starts |
| EventForm.LoadThenMergeRoundTrip | src/components/EventForm.js:17-60 | saving a loaded record unedited gives it back exactly when its text fields are defined and its category non-empty |
| EventForm.MergeIgnoresFormHistory | src/components/EventForm.js:51-60 | merging the same fields again changes nothing |
| EventForm.Form.ToggleColorPicker | src/components/EventForm.js:66-68 | the picker flag flips; fields and error stay |
| EventForm.ColorForCategory | src/components/EventForm.js:71-83 | the mapped colour of a known id, blue's colour for any other |
| EventForm.ColorMapMatchesPalette | src/components/EventForm.js:72-82 | the form's colour map and the application palette give the same colour for every id |
| EventForm.PaletteColors | src/components/EventForm.js:72-80 | the map lists exactly the palette's ids with the palette's colours |
| MiniCalendar.MonthView.constructor | src/components/MiniCalendar.js:5-6 | displayed month and selection both start at the given date |
| MiniCalendar.MonthView.SyncDate | src/components/MiniCalendar.js:9-11 | the selection follows the parent's date; the displayed month stays |
| MiniCalendar.AddMonths | src/components/MiniCalendar.js:15 | moving by n months moves the month index by n and clamps the day to the new month |
| MiniCalendar.MonthView.NextMonth | src/components/MiniCalendar.js:14-16 | the displayed month moves forward one month; the selection stays |
| MiniCalendar.MonthView.PrevMonth | src/components/MiniCalendar.js:19-21 | the displayed month moves back one month; the selection stays |
| MiniCalendar.NextThenPrev | src/components/MiniCalendar.js:14-21 | next then previous returns to the same month and year on a day no later, the same date up to day 28 |
| MiniCalendar.PrevThenNext | src/components/MiniCalendar.js:14-21 | previous then next returns to the same month and year on a day no later |
| MiniCalendar.MonthView.DateClick | src/components/MiniCalendar.js:24-27 | the day becomes the selection and is reported |
| MiniCalendar.MonthView.CellClick | src/components/MiniCalendar.js:79 | only a cell of the displayed month selects and reports its day; others change nothing |
| MiniCalendar.HasEvents | src/components/MiniCalendar.js:30-38 | no events array gives false; otherwise true exactly when some record's start day to end day covers the day |
| MiniCalendar.SpanMarked | src/components/MiniCalendar.js:33-37 | every day from a record's start day to its end day is marked |
| MiniCalendar.InvertedRangeMarksNothing | src/components/MiniCalendar.js:33-37 | a record ending on an earlier day than it starts marks no day |
| MiniCalendar.RenderGrid | src/components/MiniCalendar.js:41-97 | the rows built are exactly `Grid` of the month, today, the selection, the events and the week start |
| MiniCalendar.RenderWeeks | src/components/MiniCalendar.js:63-94 | the row loop from the grid start while the cursor is not past the grid end builds the given number of week rows |
| MiniCalendar.RenderWeek | src/components/MiniCalendar.js:64-86 | seven cells, one per day from the cursor, and the cursor seven days on |
| MiniCalendar.GridLayout | src/components/MiniCalendar.js:42-94 | four to six rows of seven cells; cell i of row r is the day 7r+i after the grid start, which falls on the week start; the last cell is the end of the month's last week; day d of the month is at position Offset+d-1 |
| MiniCalendar.GridSpan | src/components/MiniCalendar.js:42-45 | the grid runs from the start of the 1st's week to the end of the last day's week: a whole number of weeks, four to six, with room for the month |
| MiniCalendar.MonthInGrid | src/components/MiniCalendar.js:42-94 | every in-month position of the grid holds that day of the displayed month |
| MiniCalendar.WeeksCells | src/components/MiniCalendar.js:63-94 | row r, column i of the week rows is the day 7r+i after the start |
| MiniCalendar.NotAfterIffDayNumber | src/components/MiniCalendar.js:63 | date order agrees with the order of the day numbers, so with the comparison of the moments' time values |
| MiniCalendar.ForwardOrder | src/components/MiniCalendar.js:63-85 | along the cursor's walk, day a is not after day b exactly when a ≤ b |
| MiniCalendar.NextDayNumber | src/components/MiniCalendar.js:85 | `add(1, 'day')` moves the day number by exactly one |
| MiniCalendar.ForwardNumber | src/components/MiniCalendar.js:85 | n steps forward add n to the day number |
| MiniCalendar.NextPrev | src/components/MiniCalendar.js:85 | a day forward then back, or back then forward, returns the date |
| MiniCalendar.MonthView.Render | src/components/MiniCalendar.js:125 | the view renders `Grid` of its displayed month and selection |
| JsDate.MakeDayRollsOver | src/App.js:148 | `new Date(y, m, d)` with the day one past the month's end is the first of the next month |
| JsDate.DaysBeforeMonthTable | src/App.js:148 | the days before each month are 0, 31, 59, …, 334, one more from March in a leap year |
| JsString.TrimEmptyIffBlank | src/components/EventForm.js:31 | `trim()` is empty exactly when the string is all white space |
| JsString.LowerIdempotent | src/App.js:42 | lower-casing twice is lower-casing once |
| JsString.JoinSplit | src/App.js:108 | joining the pieces of a split with the separator gives the string back |

## Left out

- ical.js is not part of this model. Its parsing comes in as a `StructuredParse` value, its serialisation as the document content `Doc()`, and its property representation as the `VEvent` datatype. `ICAL.Time.fromJSDate` stores the time value unchanged.
- `UpdateFirstSpec`: the rewrite keeps every property other than SUMMARY, DESCRIPTION, LOCATION, DTSTART and DTEND. ical.js's `endDate` setter also removes a DURATION property, which the model does not capture.
- Submit: requires a selected record whose id is a string. For a record without an id, which the fallback scanner makes from a `UID` line without a value, rendering the form header at App.js:496 calls `startsWith` on `undefined` and throws before the form is shown; that crash is not modelled.
- String positions count Unicode scalar values, while JavaScript's `substring`, `split` and `indexOf` count UTF-16 code units. A line holding a character outside the Basic Multilingual Plane before the date digits would be sliced differently.
- Other calendar properties and non-VEVENT components of a loaded file are kept as opaque content lines (`Document.extra`), which every operation leaves as they are; their structure is not modelled.
- `FileReader`, `Blob`, `saveAs`, `console` and `alert` are I/O. The read file is its name and text; the export is the document and the file name.
- Time zones: local time is taken to be UTC, so every date-time is naive local time, as the system itself intends.
- `Number()` is modelled only for what the date slices can need: white space, the empty string and decimal digits; any other text gives NaN. Exponents, signs, hexadecimal and decimal points are not modelled.
- `toLowerCase` is modelled for ASCII letters only.
- The rendering of React components is left out, including CalendarView, the sidebar, the view switch, `handleDateChange`, `handleViewChange`, `toggleSidebar`, the details popup, the form header text and the colour option list (`renderColorOptions`). The filtered list is derived rather than stored.
- Object-prototype keys of the form's colour map (such as `constructor`) are not modelled: the map holds only its seven colours.
- `moment` is modelled for date arithmetic only. The first day of the week of its locale is the parameter `dow`. Formatting and the row keys are left out.
- For the grid's days, `isToday` and `isSelected` compare calendar dates, and `hasEvents` compares day numbers of the records' time values.
- `AppState.UpdateEvent`, `AppState.DeleteEvent`: the list and the document are proved to stay in step only when record ids are unique and the id is a string. With duplicate ids they part ways, which `UpdateDivergesOnDuplicates` and `DeleteDivergesOnDuplicates` show.

## Notes on the code

The program behaves as follows, where its comments, messages or a reader's first expectation suggest otherwise:

- A block without a DTEND line is dropped. The one-hour default applies only to a DTEND line the scanner cannot read (one without a colon).
- A DTSTART whose digits do not parse gives an invalid date; the record is still committed.
- A failed import can leave state behind: the parsed component becomes the calendar before the import knows it has any record.
- Adding a record never checks for a duplicate id.
- `VALUE=DATE` never makes a record all-day.
