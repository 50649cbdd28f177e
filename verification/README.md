# Employee directory store, list view and form: a Dafny model

This project models the logic of a small browser employee directory. The
directory keeps a list of employee records (id, name, phone, birthday, role,
archive flag). Records are added and edited through a form, and a list view
shows them filtered and sorted.

The model covers three source files:

- **The employee store** (`src/redux/slices/employeeSlice.ts`), modelled as
  the class `EmployeeSlice.EmployeeStore`. Its fields are the ones the reducers
  change in place: `list`, `loading`, `error`, `filters`, `sortCriteria` and
  `sortDirection`. A ghost field `saved` stands for the list last written to
  durable storage. Each reducer is a method that states the whole new state.
  - The sort toggle is the function `NextSort`.
  - The in-place `list.sort` is the stable insertion sort `SortList`. It is
    proved to give a permutation ordered by the sort callback (`Order`).
  - The fetch merge is `NewRecords`, a filter on ids the list does not hold.
- **The list view** (`src/components/EmployeeList/EmployeeList.tsx`), pure
  functions:
  - its own birthday parser, which accepts `YYYY-MM-DD` or `DD.MM.YYYY`;
  - the birthday column (`FormatDate`);
  - the age (`CalculateAge`);
  - the record filter (`FilteredList`).
- **The add/edit form** (`src/components/AddForm/AddForm.tsx`):
  - the phone formatter, a method with the source's step-by-step appends,
    proved equal to the reference function `PhoneFormat`;
  - the field update on input (`ApplyChange`);
  - the submit decision (`SubmitDecision`), and `HandleSubmit`, which applies
    that decision to the store.

Helper modules spell out what the source takes from the JavaScript runtime:
`Sequences` (`Array.prototype.filter`, subsequences), `Strings` (digits,
`split`, `slice`, `trim`, zero-padding) and `Dates` (calendar dates and their
order).

## The two birthday parsers

The store and the list view read birthdays differently, and the model keeps
both parsers:

- The store's parser (`EmployeeSlice.ParseBirthday`) splits on `"."` only.
- The list view's parser (`EmployeeList.ParseBirthday`) tries `YYYY-MM-DD`
  first, then `DD.MM.YYYY`.

The date input of the form produces `YYYY-MM-DD`. So every birthday entered
through the form is shown and filtered correctly, but the store's birthday
sort treats it as unparsable. It compares equal to the other unparsable
birthdays. Sorting ascending, it goes before every birthday the store can
read; sorting descending, after them.

- `IsoBirthdayOnlyReadByList` proves in general that the store cannot read
  a `YYYY-MM-DD` birthday.
- `IsoBirthdaySortsFirst` proves the order in both directions.
- `IsoBirthdayTiesUnreadable` proves the tie with other unparsable
  birthdays.
- `MixedFormatBirthdaySort` shows it on two records. A record born
  1990-05-10 sorts before one born 15.03.1985, in both input orders. A
  chronological sort would put 1985 first. The model follows the code.

## Model

| member | source | states |
|---|---|---|
| `EmployeeSlice.EmployeeStore.constructor` | src/redux/slices/employeeSlice.ts:27-39 | the initial state: stored list, not loading, no error, default filters (any role, non-archived, no month), no sort criteria, ascending |
| `EmployeeSlice.EmployeeStore.AddEmployee` | src/redux/slices/employeeSlice.ts:70-73 | the record is appended after the unchanged old list; the saved list equals the new list; unique ids stay unique when the new id is unseen |
| `EmployeeSlice.FindIndex` | src/redux/slices/employeeSlice.ts:75 | the result is -1 exactly when no record has the id, otherwise the first position holding it |
| `EmployeeSlice.EmployeeStore.UpdateEmployee` | src/redux/slices/employeeSlice.ts:74-79 | with the id present only the first record with that id is replaced and the list is saved; with it absent list and saved copy are unchanged; unique ids stay unique |
| `EmployeeSlice.NextSort` | src/redux/slices/employeeSlice.ts:83-88 | the requested criteria becomes current; the same criteria flips the direction, a different one resets it to ascending |
| `EmployeeSlice.RepeatedSortAlternates` | src/redux/slices/employeeSlice.ts:83-88 | repeated requests for one criteria alternate the direction and return to the state two steps back |
| `EmployeeSlice.EmployeeStore.SortEmployees` | src/redux/slices/employeeSlice.ts:81-111 | the sort state is toggled, then the list becomes a permutation of the old list ordered by the callback under the new direction; unique ids stay unique |
| `EmployeeSlice.PermutationKeepsUniqueIds` | src/redux/slices/employeeSlice.ts:90 | reordering a list with unique ids, as the in-place sort does, keeps them unique |
| `EmployeeSlice.ParseBirthday` | src/redux/slices/employeeSlice.ts:57-61 | a date is read only when the first three "."-separated pieces are numerals, with month 1-12 and day 1-31 |
| `EmployeeSlice.UndottedBirthdayUnparsable` | src/redux/slices/employeeSlice.ts:57-61 | a birthday without "." (every `YYYY-MM-DD` string) is unparsable for the store |
| `EmployeeSlice.ParseBirthdayOfPieces` | src/redux/slices/employeeSlice.ts:58-60 | three numeric pieces day, month, year give that date, with years 0-99 read as 1900-1999 |
| `EmployeeSlice.CompareNames` | src/redux/slices/employeeSlice.ts:93 | name comparison is -1, 0 or 1 and is 0 exactly for equal names |
| `EmployeeSlice.CompareNamesAntisymmetric` | src/redux/slices/employeeSlice.ts:93 | swapping the names negates the comparison |
| `EmployeeSlice.CompareNamesTransitive` | src/redux/slices/employeeSlice.ts:93 | name order is transitive |
| `EmployeeSlice.CompareBirthdays` | src/redux/slices/employeeSlice.ts:94-106 | two unparsable birthdays compare equal; an unparsable one sorts before a parsable one; two parsable ones compare by date |
| `Dates.CompareDates` | src/redux/slices/employeeSlice.ts:105 | the comparison is negative, zero or positive exactly when the first date is earlier, the same or later |
| `EmployeeSlice.Compare` | src/redux/slices/employeeSlice.ts:91-107 | a criteria other than "name" or "birthday" compares every pair equal |
| `EmployeeSlice.Order` | src/redux/slices/employeeSlice.ts:90-110 | the callback is -1, 0 or 1; it is 0 exactly for pairs the comparison ties, in either direction; "desc" is the ascending comparison with the two records swapped |
| `EmployeeSlice.OrderAntisymmetric` | src/redux/slices/employeeSlice.ts:109 | the callback, in either direction, changes sign when its arguments are swapped ("desc" negates the comparison) |
| `EmployeeSlice.OrderTransitive` | src/redux/slices/employeeSlice.ts:90-110 | the callback is a transitive preorder in either direction, for every criteria |
| `EmployeeSlice.Insert` | src/redux/slices/employeeSlice.ts:90 | inserting adds exactly the one record to the multiset of records |
| `EmployeeSlice.SortList` | src/redux/slices/employeeSlice.ts:90 | sorting keeps the length and the multiset of records |
| `EmployeeSlice.InsertSorted` | src/redux/slices/employeeSlice.ts:90-110 | inserting into a list ordered by the callback keeps it ordered |
| `EmployeeSlice.SortListSorted` | src/redux/slices/employeeSlice.ts:90-110 | the sorted list is ordered by the callback |
| `EmployeeSlice.TwoRecordSort` | src/redux/slices/employeeSlice.ts:90-110 | two records the callback orders strictly come out in that order from either input order |
| `EmployeeSlice.SortListUnknownCriteria` | src/redux/slices/employeeSlice.ts:90-110 | sorting by a criteria other than "name" or "birthday" leaves the list as it was |
| `EmployeeList.MixedFormatBirthdaySort` | src/redux/slices/employeeSlice.ts:90-110 | a `YYYY-MM-DD` birthday in 1990 sorts before a `DD.MM.YYYY` birthday in 1985, in both input orders |
| `EmployeeList.IsoBirthdaySortsFirst` | src/redux/slices/employeeSlice.ts:95-109 | by birthday, a `YYYY-MM-DD` record goes before every record the store can read when ascending, and after it when descending |
| `EmployeeList.IsoBirthdayTiesUnreadable` | src/redux/slices/employeeSlice.ts:98-99 | by birthday in either direction, a `YYYY-MM-DD` record ties with every record the store cannot read |
| `EmployeeSlice.EmployeeStore.FilterEmployees` | src/redux/slices/employeeSlice.ts:112-120 | the filters are replaced wholesale; the birthday month becomes unset |
| `EmployeeSlice.EmployeeStore.FetchPending` | src/redux/slices/employeeSlice.ts:124-127 | loading becomes true and the error is cleared |
| `EmployeeSlice.NewRecords` | src/redux/slices/employeeSlice.ts:132-135 | the records to append are an order-preserving selection of the payload: exactly its records whose id the list does not hold, each as many times as the payload holds it |
| `EmployeeSlice.FetchKeepsIdsUnique` | src/redux/slices/employeeSlice.ts:128-137 | merging a payload with unique ids into a list with unique ids keeps ids unique |
| `EmployeeSlice.FetchSkipsKnownIds` | src/redux/slices/employeeSlice.ts:128-137 | one concrete case: with id 2 held, a payload with ids 2 and 3 drops its id-2 record, keeps the held copy and appends id 3 (the general law is `FetchFulfilled`'s) |
| `EmployeeSlice.EmployeeStore.FetchFulfilled` | src/redux/slices/employeeSlice.ts:128-138 | loading becomes false; the old list is an unchanged prefix; the tail holds exactly the payload records with unseen ids, in payload order |
| `EmployeeSlice.EmployeeStore.FetchRejected` | src/redux/slices/employeeSlice.ts:139-142 | loading becomes false; the error is the message, or "Ошибка загрузки" when it is missing or empty |
| `EmployeeList.ParseBirthday` | src/components/EmployeeList/EmployeeList.tsx:17-30 | "" gives nothing; a readable `YYYY-MM-DD` wins; otherwise `DD.MM.YYYY`; a date read has month 1-12, day 1-31 and a year in 100-9999, read from a four-digit field (0000-0099 read as 1900-1999) |
| `EmployeeList.IsoBirthdayOnlyReadByList` | src/components/EmployeeList/EmployeeList.tsx:17-30 | a readable `YYYY-MM-DD` birthday is read by the list view and unparsable for the store |
| `EmployeeList.FormatDate` | src/components/EmployeeList/EmployeeList.tsx:32-38 | the column shows "Н/Д" exactly when the birthday cannot be read, and otherwise a ten-character `DD.MM.YYYY` |
| `EmployeeList.FormatDateRoundTrip` | src/components/EmployeeList/EmployeeList.tsx:32-38 | for every birthday, reading back the displayed text gives what reading the birthday gives: the same date, or nothing for "Н/Д" |
| `EmployeeList.CalculateAge` | src/components/EmployeeList/EmployeeList.tsx:56-60 | an unreadable birthday gives age 0 |
| `EmployeeList.AgeCountsAnniversaries` | src/components/EmployeeList/EmployeeList.tsx:61-67 | the age is the number of birthday anniversaries reached by today: that anniversary is not after today, the next one is |
| `EmployeeList.Shown` | src/components/EmployeeList/EmployeeList.tsx:71-87 | a shown record has the filter's role when one is set, the filter's archive flag, and a readable birthday in the filter's month when one is set; under the default filters exactly the non-archived records are shown |
| `EmployeeList.FilteredList` | src/components/EmployeeList/EmployeeList.tsx:70-88 | the shown records are an order-preserving subsequence of the list, holding every record that passes as often as the list does and no other |
| `EmployeeList.RoleFilter` | src/components/EmployeeList/EmployeeList.tsx:71 | an empty role filter admits every role; a non-empty one admits only records of that role |
| `EmployeeList.ArchiveFilter` | src/components/EmployeeList/EmployeeList.tsx:72-75 | a shown record's archive flag equals the filter's; the default filters show exactly the non-archived records |
| `EmployeeList.MonthFilter` | src/components/EmployeeList/EmployeeList.tsx:76-85 | with a month set, only readable birthdays in that month pass, and a month outside 1-12 shows nothing; with none set, birthdays have no effect |
| `AddForm.PlacedDigits` | src/components/AddForm/AddForm.tsx:70-75 | a definition: the digits placed are the 2nd to the 11th digit of the input, none when it has at most one; what the formatter does with them is `PhoneShape` |
| `AddForm.PhoneFormat` | src/components/AddForm/AddForm.tsx:71-75 | the result starts with "+7" and is exactly "+7" when the input has at most one digit |
| `AddForm.PhoneShape` | src/components/AddForm/AddForm.tsx:69-75 | the result's digits are "7" and then the placed digits; its length follows the group thresholds (>1, >4, >7, >9 digits) and never exceeds 18 |
| `AddForm.PhoneComplete` | src/components/AddForm/AddForm.tsx:72-75 | with 11 or more digits d0..d10 the result is "+7 (d1d2d3) d4d5d6-d7d8-d9d10" |
| `AddForm.PhoneFormatIdempotent` | src/components/AddForm/AddForm.tsx:67-79 | reformatting an already formatted number changes nothing |
| `AddForm.HandlePhoneChange` | src/components/AddForm/AddForm.tsx:67-79 | the step-by-step appends give `PhoneFormat` of the input, stored as the phone and nothing else changed |
| `AddForm.ApplyChange` | src/components/AddForm/AddForm.tsx:49-61 | only the named field changes: a text input sets it to the value, a checkbox sets the archive flag to `checked` |
| `Strings.TrimEmptyIffBlank` | src/components/AddForm/AddForm.tsx:85 | the trimmed name is empty exactly when every character is ECMAScript white space |
| `AddForm.SubmitDecision` | src/components/AddForm/AddForm.tsx:81-99 | a blank name dispatches nothing; with a route id the form is sent unchanged as an update; otherwise it is added with the id replaced by the timestamp |
| `AddForm.HandleSubmit` | src/components/AddForm/AddForm.tsx:85-95 | a rejected submit leaves the store untouched; otherwise the store changes as the add or update reducer says |

## Left out

- Durable storage (`employeeSlice.ts:41-48`) is not modelled as I/O. The
  ghost field `saved` stands for the last list written. The constructor takes
  the stored list as a parameter. A JSON parse failure at load is host
  behaviour and is not modelled.
- The network request of `fetchEmployees` (`employeeSlice.ts:50-56`) is left
  out. Only its pending, fulfilled and rejected reducers are modelled. The
  payload or error message is a parameter.
- `Date` and `dayjs` are modelled as strict parsers into (year, month, day).
  Fields must be all digits. Month must be 1-12 and day 1-31. A year whose
  value is 0-99 is read as 1900-1999, whatever its width, as `new Date`
  does: the store reads "1.1.5" as 1905, and the list view reads "0050" as
  1950. JavaScript would roll an
  out-of-range field over into the next month or year. `Number` accepts more
  spellings than a run of digits (spaces, signs, an empty piece read as 0):
  the store's parser here reads only digit runs, of any length, so
  "1.3.1985" is 1 March 1985 as in the source. dayjs also accepts
  one-digit fields, while the list view's parser here reads only the
  fixed-width `YYYY-MM-DD` and `DD.MM.YYYY`. Day-of-month validity per month
  (30 February) is not checked.
- `EmployeeSlice.ParseBirthday` reads every year. A JavaScript `Date` is
  invalid past about 13 September 275760 (the bound also depends on the
  local time zone), so the source treats such a birthday as unparsable and
  sorts it first ascending. The model reads it and sorts it last.
- `CompareBirthdays` returns the sign of `getTime()` differences (-1, 0, 1)
  instead of the millisecond difference. The sort only uses the sign.
- `CompareNames`: `localeCompare` is replaced by code-point lexicographic
  order, because locale collation is not modelled. The sort proofs only need a
  total preorder.
- `SortList`: `Array.prototype.sort` is modelled as a stable insertion sort on
  a sequence. The model proves the result is ordered and a permutation, and
  that an all-equal comparison keeps the order. It does not prove that ties
  keep their original order in general.
- `CalculateAge`: today's date is a parameter instead of `new Date()`.
- `SubmitDecision`: the timestamp `Date.now()` is a parameter. The route id is
  a string, and "" stands for a missing one (both are falsy in `if (id)`).
- `ApplyChange`: the event is typed. Text inputs name one of the text fields,
  and a checkbox sets the archive flag, the only boolean field. The
  JavaScript handler could store a string in the flag, or a boolean in a text
  field, when names and input types are mismatched. The form never does that,
  and the model does not represent it.
- `FetchRejected`: an absent `error.message` is `None`. Both `None` and ""
  fall back to the default text.
- React rendering, hooks, routing, `alert`, the modal dialog, navigation and
  logging are left out.
- The unused `birthday` field of the store state is left out.
- `src/components/FilterForm/FilterForm.tsx` only dispatches
  `filterEmployees` with a role and an archive flag. That reducer is modelled
  as `FilterEmployees`.
