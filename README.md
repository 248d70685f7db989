# Dashboard components: a verified model of their logic

This project models the logic inside five React components of a small
dashboard application and proves properties of that logic in Dafny.

- **TimeRangePicker** edits a list of weekly time slots. It covers:
  - `"HH:MM"` clock strings and their minute values;
  - the times offered at a 15, 30 or 60 minute step;
  - 12-hour AM/PM display;
  - the same-day overlap check;
  - adding, updating and removing slots;
  - the editor's own state: the pending start and end, the slot being edited, the duration, and which lists are open.
- **DataTable** wraps a table library. It covers:
  - how the shown page index and page size are resolved;
  - the five-wide strip of page numbers;
  - when the navigation buttons are disabled and what a click asks for;
  - where page-size and search changes go;
  - the text encoding of the sort drop-down.
- **MultiSelect** toggles values in a selection and shows the selected labels in option order.
- **SingleSelect** finds the option whose value strictly equals the selected one.
- **Pagination** is a simple pager whose Previous and Next buttons clamp the page.

One Dafny module per component:

- `time_range_picker.dfy`: `TimeRangePicker`
- `data_table.dfy`: `DataTable`
- `multi_select.dfy`: `MultiSelect`
- `single_select.dfy`: `SingleSelect`
- `pagination.dfy`: `Pagination`

They share `JsText`, which holds the pieces of JavaScript behaviour the components rely on:

- `String(n)`, `padStart`, `Number`, `parseInt`, `split`, `join`;
- `<` on strings;
- NaN comparisons, as the `Num` datatype.

They also share `Optional`, an option type.

How the components are modelled:

- Pure computations are functions.
- `generateTimeOptions` is a method with the source's nested loops, proved equal to the function `TimeOptions`.
- Component state held in `useState` is a class whose methods update its fields:
  - `SlotEditor` in TimeRangePicker;
  - `TableState` in DataTable;
  - `MultiSelectState` and `SingleSelectState` for the open/closed flags.
- A prop owned by the parent is a method parameter: the slot list, the selected values, the selected value.
- What a handler passes to the parent's callback is the method's result, with `None` meaning the callback is not called.
- A toast is a returned `Notice`.

## Model

| member | source | states |
|---|---|---|
| JsText.NatToStringValue | app/components/common/DataTable/data-table.tsx:373-375 | the decimal digits written by `String(n)` read back as n |
| JsText.NumberOfString | app/components/common/DataTable/data-table.tsx:373-375 | `Number` of the text `${n}` is n again, so a page size survives the drop-down's string value |
| JsText.ParseIntOfNatThen | app/components/common/TimeRangePicker.tsx:62 | `parseInt` of a number's digits followed by a non-digit reads that number |
| JsText.SplitAtFirst | app/components/common/DataTable/data-table.tsx:248 | splitting at the first separator gives the text before it followed by the parts of the rest |
| JsText.StrLtIrreflexive | app/components/common/TimeRangePicker.tsx:92 | string `<` is irreflexive, so `a <= a` holds |
| TimeRangePicker.ClockMinutes | app/components/common/TimeRangePicker.tsx:85-88 | a well-formed clock is fewer than 24 * 60 minutes after midnight |
| TimeRangePicker.ClockIsWellFormed | app/components/common/TimeRangePicker.tsx:32-34 | the zero-padded text built for h:m (h < 24, m < 60) is a clock string with hour h, minute m, worth h * 60 + m minutes |
| TimeRangePicker.TimeToMinutes | app/components/common/TimeRangePicker.tsx:85-88 | a readable result is never negative; text without a colon has no minutes part and gives NaN |
| TimeRangePicker.TimeToMinutesOfClock | app/components/common/TimeRangePicker.tsx:85-88 | `timeToMinutes("HH:MM")` is HH * 60 + MM |
| TimeRangePicker.TimeToMinutesOfParts | app/components/common/TimeRangePicker.tsx:85-88 | for colon-free hour and minute text joined by ":", hours * 60 + minutes when both are digit strings (an empty one reads as 0), NaN as soon as either is not |
| TimeRangePicker.SplitClock | app/components/common/TimeRangePicker.tsx:86 | a clock string splits at ":" into exactly its hour and minute digits |
| TimeRangePicker.StrLtClockShape | app/components/common/TimeRangePicker.tsx:92 | on two clock-shaped strings JavaScript's `<` compares the four digits in order |
| TimeRangePicker.ClockOrder | app/components/common/TimeRangePicker.tsx:92 | on zero-padded times, string `<` and `<=` agree exactly with minute order, in both directions |
| TimeRangePicker.StepsWithinHour | app/components/common/TimeRangePicker.tsx:31 | the inner loop's j-th minute value stays below 60 exactly when j < PerHour(step) |
| TimeRangePicker.GenerateTimeOptions | app/components/common/TimeRangePicker.tsx:28-38 | the nested loops return exactly TimeOptions(step): each hour's clock strings at minutes 0, step, ... below 60, hour by hour |
| TimeRangePicker.RowsLength | app/components/common/TimeRangePicker.tsx:28-38 | n hours give n * PerHour(step) options |
| TimeRangePicker.DurationOptionCounts | app/components/common/TimeRangePicker.tsx:21-38 | steps 15, 30 and 60 yield 96, 48 and 24 options |
| TimeRangePicker.RowsAt | app/components/common/TimeRangePicker.tsx:30-36 | entry j of hour h sits right after the options of the earlier hours |
| TimeRangePicker.TimeOptionOfHour | app/components/common/TimeRangePicker.tsx:28-38 | option h * PerHour(step) + j is the clock string for h:(j * step), a well-formed time h * 60 + j * step minutes after midnight |
| TimeRangePicker.TimeOptionAt | app/components/common/TimeRangePicker.tsx:28-38 | every option is a well-formed zero-padded "HH:MM", namely hour h, minute j * step, for the h and j its index splits into |
| TimeRangePicker.TimeOptionsEnds | app/components/common/TimeRangePicker.tsx:28-38 | the list is non-empty, starts at "00:00", and its last entry is a time before 24:00 |
| TimeRangePicker.HourStepOrder | app/components/common/TimeRangePicker.tsx:30-31 | later (hour, step) pairs are strictly later in minutes |
| TimeRangePicker.TimeOptionsIncreasing | app/components/common/TimeRangePicker.tsx:28-38 | the options strictly increase, both in minutes and as strings |
| TimeRangePicker.DividingStep | app/components/common/TimeRangePicker.tsx:31 | when the step divides 60, the inner loop makes exactly one hour of steps |
| TimeRangePicker.TimeOptionMinutes | app/components/common/TimeRangePicker.tsx:28-38 | when the step divides 60, `timeToMinutes` of option i is i * step |
| TimeRangePicker.DisplayHour | app/components/common/TimeRangePicker.tsx:64 | the shown hour is between 1 and 12 and congruent to the hour modulo 12 |
| TimeRangePicker.FormatTimeDisplay | app/components/common/TimeRangePicker.tsx:59-66 | "" stays ""; any other text ends in " AM" or " PM" |
| TimeRangePicker.FormatClock | app/components/common/TimeRangePicker.tsx:59-66 | on a clock string: the hour modulo 12 with 0 shown as 12, the minutes text copied unchanged, "PM" exactly from hour 12 on |
| TimeRangePicker.DisplayHourCases | app/components/common/TimeRangePicker.tsx:64 | hours 0 and 12 show as 12, 1 to 11 as themselves, 13 to 23 as the hour less 12 |
| TimeRangePicker.OverlapsSymmetric | app/components/common/TimeRangePicker.tsx:80 | the overlap relation does not depend on the order of the two intervals |
| TimeRangePicker.AbuttingIntervalsDoNotOverlap | app/components/common/TimeRangePicker.tsx:80 | intervals that only touch do not conflict |
| TimeRangePicker.AnyConflict | app/components/common/TimeRangePicker.tsx:73-81 | `some` holds exactly when some slot passes the callback |
| TimeRangePicker.IsTimeConflicting | app/components/common/TimeRangePicker.tsx:69-82 | true exactly when some slot is not excluded, lies on `selectedDay`, and is not entirely before or after the candidate |
| TimeRangePicker.ConflictIsOverlap | app/components/common/TimeRangePicker.tsx:69-82 | with well-formed times, a slot conflicts iff it is not excluded, lies on `selectedDay`, and its half-open interval overlaps [start, end) |
| TimeRangePicker.UnreadableSlotConflicts | app/components/common/TimeRangePicker.tsx:77-80 | a slot on the selected day whose times read as NaN conflicts with every candidate |
| TimeRangePicker.UpdateSlotTimes | app/components/common/TimeRangePicker.tsx:104-106 | same length and order; ids, days and dates kept; slots with the id get the new times; all others unchanged |
| TimeRangePicker.RemoveSlots | app/components/common/TimeRangePicker.tsx:146 | no slot with the id survives, and the list does not grow |
| TimeRangePicker.RemoveSlotsCount | app/components/common/TimeRangePicker.tsx:146 | every other slot keeps its number of copies |
| TimeRangePicker.RemoveSlotsAppend | app/components/common/TimeRangePicker.tsx:146 | removal distributes over concatenation, so the survivors keep their order |
| TimeRangePicker.RemoveAbsentSlot | app/components/common/TimeRangePicker.tsx:146 | removing an id no slot carries changes nothing |
| TimeRangePicker.ExcludeIdOf | app/components/common/TimeRangePicker.tsx:98 | `editingSlotId \|\| undefined` excludes an id exactly in edit mode, where an empty id does not count |
| TimeRangePicker.Submit | app/components/common/TimeRangePicker.tsx:90-117 | ignored iff an input is empty; the end-before-start toast iff end <= start as strings; any other refusal is the conflict toast; a save happens only after both guards pass |
| TimeRangePicker.SubmitUpdateInPlace | app/components/common/TimeRangePicker.tsx:103-108 | an update keeps length, order, ids and days, and changes only the start and end of the edited slot |
| TimeRangePicker.SubmitAddAppends | app/components/common/TimeRangePicker.tsx:109-117 | an add returns the old list plus exactly one new slot with the fresh id, on `selectedDay` |
| TimeRangePicker.UpdateKeepsClashFree | app/components/common/TimeRangePicker.tsx:103-108 | moving a slot to a free interval on its day keeps a clash-free list clash-free |
| TimeRangePicker.AddKeepsClashFree | app/components/common/TimeRangePicker.tsx:109-117 | appending a slot that overlaps nothing on its day keeps the list clash-free |
| TimeRangePicker.SubmitKeepsDaysClashFree | app/components/common/TimeRangePicker.tsx:90-117 | given a list whose times are all clock strings, with no two slots clashing and no two sharing an id, clock-string start and end, and the edited slot lying on `selectedDay`, a save again has clock-string times and no two overlapping slots on one day |
| TimeRangePicker.SubmitRejectsBackwards | app/components/common/TimeRangePicker.tsx:92-95 | for clock strings, the end-before-start toast appears iff the end is not later in minutes |
| TimeRangePicker.SubmitRejectsOverlap | app/components/common/TimeRangePicker.tsx:97-101 | a forward interval overlapping a non-excluded slot on `selectedDay` gets the conflict toast |
| TimeRangePicker.SubmitSavesWhenFree | app/components/common/TimeRangePicker.tsx:90-117 | a forward interval free on `selectedDay` is saved, whatever lies on other days |
| TimeRangePicker.EditIsCheckedAgainstSelectedDay | app/components/common/TimeRangePicker.tsx:73-101 | the edit is checked against `selectedDay`, so a slot can be moved onto another slot of its own day |
| TimeRangePicker.ResaveUnchanged | app/components/common/TimeRangePicker.tsx:98-108 | saving an edited slot with its own times returns the same list |
| TimeRangePicker.DurationLabel | app/components/common/TimeRangePicker.tsx:179-180 | 15, 30 and 60 show "N minutes"; any other value shows "Select duration" |
| TimeRangePicker.TriggerText | app/components/common/TimeRangePicker.tsx:234 | "Select time" exactly while no time is chosen |
| TimeRangePicker.EndOptionsAfterStart | app/components/common/TimeRangePicker.tsx:308 | `EndOptionDisabled`: with no start no end option is disabled; with a start chosen exactly the end options not later than it in minutes are; an enabled option passes the end-after-start guard |
| TimeRangePicker.EqualEndIsDisabledAndRejected | app/components/common/TimeRangePicker.tsx:308-314 | an end option equal to the chosen start is disabled, and submitting the same time as start and end gets the end-after-start toast |
| TimeRangePicker.SaveButtonLabel | app/components/common/TimeRangePicker.tsx:340 | "Update Slot" exactly in edit mode |
| TimeRangePicker.DisabledButtonMeansIgnored | app/components/common/TimeRangePicker.tsx:337 | `SaveButtonDisabled`: the save button is disabled exactly when `addOrUpdateSlot` would return at once |
| TimeRangePicker.SlotEditor.constructor | app/components/common/TimeRangePicker.tsx:48-54 | nothing pending, 30-minute steps, every list closed, not editing |
| TimeRangePicker.SlotEditor.CurrentTimeOptions | app/components/common/TimeRangePicker.tsx:57 | `TIME_OPTIONS` is TimeOptions of the current duration: 24 * (60 / duration) entries |
| TimeRangePicker.SlotEditor.AddOrUpdateSlot | app/components/common/TimeRangePicker.tsx:90-123 | emits the saved list and toasts as Submit says; a refusal changes no field; a save clears the inputs, closes the start and end lists and ends edit mode |
| TimeRangePicker.SlotEditor.SelectStartTime | app/components/common/TimeRangePicker.tsx:125-128 | sets the start and closes its list; nothing else changes |
| TimeRangePicker.SlotEditor.ClickEndOption | app/components/common/TimeRangePicker.tsx:308-314 | a disabled option changes nothing; an enabled one sets the end and closes its list |
| TimeRangePicker.SlotEditor.SelectDuration | app/components/common/TimeRangePicker.tsx:135-143 | the new duration, its list closed, inputs cleared, the parent told when it listens; the slot list is not touched |
| TimeRangePicker.SlotEditor.RemoveTimeSlot | app/components/common/TimeRangePicker.tsx:145-152 | emits the list without that id; clears edit mode and inputs iff that id was being edited, else changes nothing |
| TimeRangePicker.SlotEditor.StartEdit | app/components/common/TimeRangePicker.tsx:154-159 | loads the slot's id and times and closes the start list |
| TimeRangePicker.SlotEditor.ToggleDurationList | app/components/common/TimeRangePicker.tsx:173 | the duration list flips |
| TimeRangePicker.SlotEditor.ToggleStartList | app/components/common/TimeRangePicker.tsx:228 | the start list flips |
| TimeRangePicker.SlotEditor.ToggleEndList | app/components/common/TimeRangePicker.tsx:280 | the end list flips |
| TimeRangePicker.SlotEditor.ClickOutside | app/components/common/TimeRangePicker.tsx:350-357 | closes the start and duration lists; the end list is not among them |
| DataTable.CurrentPageIndex | app/components/common/DataTable/data-table.tsx:116 | the external index (0 when absent) only with `onExternalPageChange`, else 0 |
| DataTable.CurrentPageSize | app/components/common/DataTable/data-table.tsx:117 | the external size (else `pageSize`) with `onExternalPageSizeChange`, else the internal size |
| DataTable.TotalPageCount | app/components/common/DataTable/data-table.tsx:437 | an absent or zero `totalPages` falls back to the library's count |
| DataTable.StripSlots | app/components/common/DataTable/data-table.tsx:435 | at most 5 slots, and no more than a non-negative total |
| DataTable.StripButtons | app/components/common/DataTable/data-table.tsx:445-468 | the buttons are the consecutive pages from the start up to the end page, one per slot |
| DataTable.PageStrip | app/components/common/DataTable/data-table.tsx:435-469 | at most min(5, total) consecutive pages within [0, total - 1]; contains the current page when it is in range; exactly 5 when total >= 5; every page when total <= 5 |
| DataTable.StripWindow | app/components/common/DataTable/data-table.tsx:438-443 | with at least 5 pages the strip starts at 0 near the start, two before the current page in the middle, and five before the end near the end |
| DataTable.Click | app/components/common/DataTable/data-table.tsx:405-497 | no request iff the button is disabled; external mode calls only the caller's callback and internal mode only the library |
| DataTable.DisabledAtEdges | app/components/common/DataTable/data-table.tsx:402-497 | `ButtonDisabled`: first and previous are disabled iff the index is 0; next and last are disabled together, and both are at every index from 0 on when there is at most one page |
| DataTable.InternalModeCannotGoBack | app/components/common/DataTable/data-table.tsx:116 | with the index pinned to 0, first and previous can never be clicked in internal mode |
| DataTable.ExternalNavigationStaysInRange | app/components/common/DataTable/data-table.tsx:405-497 | from an index in range, every enabled button forwards an index in range; next and previous move by one |
| DataTable.ForwardedRequests | app/components/common/DataTable/data-table.tsx:405-496 | external mode forwards 0, current - 1, current + 1, total - 1 and the page, unclamped; internal last asks for the library's count minus one |
| DataTable.PageCountLabel | app/components/common/DataTable/data-table.tsx:399 | the label starts with "Page " |
| DataTable.PageCountLabelTail | app/components/common/DataTable/data-table.tsx:399 | after "Page " come the index plus one, " of " and the page count shown |
| DataTable.PageCountLabelShowsNextCount | app/components/common/DataTable/data-table.tsx:399 | for an index from 0 on, the number read after "Page " is the index plus one |
| DataTable.InternalLabelSaysPageOne | app/components/common/DataTable/data-table.tsx:399 | in internal mode the label always reads "Page 1 of" the total |
| DataTable.SearchBoxValue | app/components/common/DataTable/data-table.tsx:182-186 | the caller's value in external mode, else the column filter; "" when absent |
| DataTable.SearchBoxNeedsKeyAndTarget | app/components/common/DataTable/data-table.tsx:170 | `SearchBoxShown`: a shown box has a non-empty key; a caller's handler shows it even with filtering off; with neither filtering nor a handler, or with no key, it stays hidden |
| DataTable.SortSelectorValue | app/components/common/DataTable/data-table.tsx:244-246 | with no sorting the drop-down shows "-asc" |
| DataTable.DecodeSortValue | app/components/common/DataTable/data-table.tsx:247-252 | no change iff the value is empty or starts with "-"; otherwise one sort key with a non-empty column holding no "-" |
| DataTable.SortValueRoundTrip | app/components/common/DataTable/data-table.tsx:244-252 | decoding the shown value gives back the first sort key, for ids that are non-empty and hold no "-" |
| DataTable.EmptySortingChangesNothing | app/components/common/DataTable/data-table.tsx:244-252 | with no sorting, the shown "-asc" decodes to no change |
| DataTable.HyphenatedColumnIsCut | app/components/common/DataTable/data-table.tsx:244-252 | an id "a-b" comes back as column a, descending only when b is "desc" |
| DataTable.PlainValueSortsAscending | app/components/common/DataTable/data-table.tsx:247-259 | a value without "-", such as "newest" or "oldest", sorts ascending on that column |
| DataTable.TableState.constructor | app/components/common/DataTable/data-table.tsx:108-114 | mounted with the configured page size, no sorting and no filter |
| DataTable.TableState.ShownPageSize | app/components/common/DataTable/data-table.tsx:117 | the size on screen: the internal size in internal mode, else the caller's size or the `pageSize` prop |
| DataTable.TableState.ChangePageSize | app/components/common/DataTable/data-table.tsx:373-382 | the picked size goes only to the caller when it listens; otherwise it becomes the internal size, goes to the library, and is the size shown from then on |
| DataTable.TableState.ChangeSearch | app/components/common/DataTable/data-table.tsx:187-190 | the text goes verbatim to the caller when it listens, else it becomes the column's filter value |
| DataTable.TableState.SelectSort | app/components/common/DataTable/data-table.tsx:247-252 | the sorting becomes the decoded key when the column part is non-empty, else stays |
| MultiSelect.RemoveValue | app/components/common/MultiSelect.tsx:21-22 | no copy of the value survives, and the list does not grow |
| MultiSelect.RemoveValueCount | app/components/common/MultiSelect.tsx:21-22 | every other value keeps its number of copies |
| MultiSelect.RemoveValueAppend | app/components/common/MultiSelect.tsx:21-22 | filtering distributes over concatenation, so order is kept |
| MultiSelect.RemoveAbsentValue | app/components/common/MultiSelect.tsx:21-22 | removing an absent value changes nothing |
| MultiSelect.Toggle | app/components/common/MultiSelect.tsx:20-25 | the toggled value's membership flips; every other value keeps its copies; an absent value is appended at the end |
| MultiSelect.ToggleTwiceRestores | app/components/common/MultiSelect.tsx:20-25 | toggling an unselected value twice restores the list |
| MultiSelect.ToggleTwiceMovesToEnd | app/components/common/MultiSelect.tsx:20-25 | toggling a selected value twice moves it to the end, duplicates gone |
| MultiSelect.SelectedLabels | app/components/common/MultiSelect.tsx:27-29 | the labels of exactly the checked options, no more entries than options |
| MultiSelect.SelectedLabelsBySet | app/components/common/MultiSelect.tsx:27-29 | the labels depend only on which values are selected, not on the order or repetition of the selection |
| MultiSelect.SelectedLabelsOfOne | app/components/common/MultiSelect.tsx:27-29 | one option contributes its label iff it is checked |
| MultiSelect.SelectedLabelsAppend | app/components/common/MultiSelect.tsx:27-29 | the labels of two runs of options are those of the first run followed by those of the second, so they follow option order |
| MultiSelect.LabelsFollowOptionOrder | app/components/common/MultiSelect.tsx:27-29 | two checked options give their labels in option order, whatever the order of the selection |
| MultiSelect.ToggleUnknownValueKeepsLabels | app/components/common/MultiSelect.tsx:20-29 | toggling a value no option carries leaves the labels unchanged |
| MultiSelect.DisplayText | app/components/common/MultiSelect.tsx:37-38 | the placeholder when no label is selected; one label shown alone; otherwise the text starts with the first label |
| MultiSelect.MultiSelectState.constructor | app/components/common/MultiSelect.tsx:18 | mounted closed |
| MultiSelect.MultiSelectState.ClickTrigger | app/components/common/MultiSelect.tsx:34 | the trigger flips the list |
| MultiSelect.MultiSelectState.ClickOverlay | app/components/common/MultiSelect.tsx:83 | the overlay closes the list |
| MultiSelect.MultiSelectState.ClickOption | app/components/common/MultiSelect.tsx:62-70 | a checked option's value is removed and an unchecked one appended; the list stays open |
| SingleSelect.FindOption | app/components/common/SingleSelect.tsx:27 | the first option whose value strictly equals the selection; none iff no option matches |
| SingleSelect.NullSelectsNothing | app/components/common/SingleSelect.tsx:27 | a null selection finds nothing |
| SingleSelect.StringDoesNotMatchNumber | app/components/common/SingleSelect.tsx:27 | when every option's value is a number, no string selection finds an option, even one with the same digits |
| SingleSelect.DisplayText | app/components/common/SingleSelect.tsx:38-39 | the label of the first option whose value equals the selection, or the placeholder when none does |
| SingleSelect.ChosenOptionIsShown | app/components/common/SingleSelect.tsx:27-39 | with distinct values, choosing option i shows its label and highlights that row alone |
| SingleSelect.DuplicateValuesShowFirst | app/components/common/SingleSelect.tsx:27-65 | for any two options sharing a value, the trigger shows the label of the first option carrying it, while both rows are highlighted |
| SingleSelect.HighlightAgreesWithTrigger | app/components/common/SingleSelect.tsx:27-65 | `Highlighted`: some row is highlighted iff the trigger shows an option's label, and the row of that option is highlighted |
| SingleSelect.OpenList | app/components/common/SingleSelect.tsx:58-59 | the empty message iff there are no options, else one label per option |
| SingleSelect.SingleSelectState.constructor | app/components/common/SingleSelect.tsx:20 | mounted closed |
| SingleSelect.SingleSelectState.ClickTrigger | app/components/common/SingleSelect.tsx:32 | the trigger flips the list |
| SingleSelect.SingleSelectState.ClickOverlay | app/components/common/SingleSelect.tsx:81 | the overlay closes the list |
| SingleSelect.SingleSelectState.ChooseOption | app/components/common/SingleSelect.tsx:22-25 | hands the option's value on unchanged and closes the list |
| Pagination.PreviousPage | app/components/common/pagination.tsx:5 | never negative; one less from page 1 on; 0 at or below page 1 |
| Pagination.NextPage | app/components/common/pagination.tsx:15 | never beyond totalPages - 1; one more below the last but one page; the last page from there on |
| Pagination.FixedPoints | app/components/common/pagination.tsx:5-15 | 0 and totalPages - 1 are where the updaters stop |
| Pagination.StepsStayInRange | app/components/common/pagination.tsx:5-15 | from a page in range both updates stay in range and move by at most one |
| Pagination.StepsUndoEachOther | app/components/common/pagination.tsx:5-15 | away from the ends, Next undoes Previous and Previous undoes Next |
| Pagination.EnabledButtonsMove | app/components/common/pagination.tsx:5-16 | an enabled button moves the page by exactly one |
| Pagination.DisabledWhereUpdaterStays | app/components/common/pagination.tsx:5-16 | `PreviousDisabled` and `NextDisabled`: loading disables both; otherwise, in range, a button is disabled exactly where its updater would not move the page |
| Pagination.NoPagesNextGoesNegative | app/components/common/pagination.tsx:15-16 | with no pages Next stays enabled and sets the page to -1 |
| Pagination.NextFromBeyondTheEnd | app/components/common/pagination.tsx:15-16 | past the end Next stays enabled and moves back to the last page |
| Pagination.PageLabel | app/components/common/pagination.tsx:12 | the label starts with "Page " |
| Pagination.PageLabelTail | app/components/common/pagination.tsx:12 | after "Page " come the page counted from 1, " of " and the total |
| Pagination.PageLabelShowsNextCount | app/components/common/pagination.tsx:12 | the number read after "Page " is the current page plus one |

## Left out

- The table library's internals are not modelled: filtering, sorting and the row model, `getPageCount`, `setPageIndex`, `nextPage`, `previousPage` and `setPageSize`. The library's page count is an input, and its mutators are `PageRequest` values the wrapper issues.
- Rendering is not modelled: JSX, Tailwind classes, icons, `flexRender`, the cell and header width styles, and the Select primitives. This includes the slot pills, whose markup shows only a note when the list is empty.
- The status and department filter drop-downs are not modelled. They hand the picked value straight to the caller and compute nothing.
- Toasts are returned as a `Notice` value and are not displayed.
- The new slot's id comes from `Date.now()`. It is the `freshId` parameter, and nothing assumes ids are unique.
- JavaScript numbers are unbounded integers here:
  - `Number` and `parseInt` read plain ASCII decimal digits only;
  - whitespace, signs, decimals, exponents and `Infinity` are not modelled;
  - NaN is the `Num` datatype's `NaN`.
- Strings are sequences of Unicode scalar values compared by code point, where JavaScript compares UTF-16 code units. The two orders differ only above U+FFFF, which no clock time, digit or option value here reaches.
- `SingleSelect.Value` models `string | number` with integer numbers only.
- DataTable.CurrentPageIndex: in internal mode the shown index is pinned to 0, as written, even though the library may be on another page. The model keeps this behaviour.
- TimeRangePicker.GenerateTimeOptions: requires a positive step, because the source's loop does not terminate otherwise.
- TimeRangePicker.SlotEditor.ClickOutside: requires an open start or duration list, because the click-outside layer exists only then.
- MultiSelect.MultiSelectState.ClickOverlay and SingleSelect.SingleSelectState.ClickOverlay: require an open list, because the overlay exists only then.
- MultiSelect.MultiSelectState.ClickOption and SingleSelect.SingleSelectState.ChooseOption: require an open list, because options are rendered only then.
- MultiSelect.DisplayText: for two or more labels it states only that the text starts with the first label, not the whole `join(", ")` result.
- `onDurationChange` is reduced to whether the parent listens. The duration a listener receives is returned.
- React's batching of state updates and re-rendering are not modelled. Each handler is one atomic update of its class's fields.
