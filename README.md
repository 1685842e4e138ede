# Salon roster: local state and shared-document synchronisation

A Dafny model of the engine inside `src/App.js` of a salon booking page. A roster
of designers, each with dated schedules of bookable time slots, is edited locally
by one admin and kept in one shared remote document. The model covers:

- the roster transformations of the schedule editor and of the app
  (`Slots`, `Schedules`, `Designers`): add, toggle and remove time slots; add,
  remove and edit days; set or clear a date; add and delete designers; the
  lookup of the active designer;
- the state cells of the `App` component as the fields of class `App.App`, with
  one method per handler: login, password reset and password change (the
  session gate), the roster handlers, the snapshot callback of the shared
  document, the autosave timer slot and the explicit save;
- the decisions about the shared document (`Sync`): the per-field merge of a
  snapshot, the bootstrap document, the autosave guard;
- the `@` prefix of the LINE official id (`LineId`);
- end-to-end runs of the handlers (`Scenarios`), proved from the handlers'
  contracts alone.

Writes to the shared document are not performed: a handler that writes returns
the document it would write (`Option<RemoteDoc>`). The snapshot subscription is a
stream of `Exists(data) | Missing | Failed` events that the caller feeds to
`OnSnapshot`.

Behaviour of the code worth noting:

- A schedule id is one more than the largest id in the list, or 1 for an empty
  list (`Schedules.AppendSchedule`). So when the largest id is at least 1, as it
  is for every id the app assigns, deleting the day with the largest id and
  adding a day gives an id no larger than the deleted one, and exactly the
  deleted id when another day holds the id just below it
  (`Schedules.ScheduleIdReused`).
- A snapshot does not replace the whole local state. It replaces the designers
  when the field is present, the password only when present and non-empty, and
  the LINE id when present, even when it is empty (`Sync.MergeIncoming`).
- The snapshot callback ignores a missing document in admin mode too. No
  bootstrap write is made then.

Modelling choices:

- JavaScript `null`/`undefined` for an id is `Option<string>`. Snapshot fields
  are encoded field by field, following the tests the callback makes:
  - `designers`: absent or falsy is `None`;
  - `adminPassword`: absent is `None`; `""` is `Some("")`, which is ignored;
  - `lineOfficialId`: only `undefined` is `None`; `""` is `Some("")` and is applied.
- `localeCompare` on "HH:MM" values is plain lexicographic order (`Lex.Le`).
  `Array.prototype.sort` is a stable insertion sort by that order
  (`Slots.SortByVal`).
- `new Date(dateString)` is the parameter `cal: CalendarDay`: the month, the
  day of the month and the weekday index 0..6.
- `Date.now()` in a new designer's id is the parameter `stamp`.
- The user and database conditions (`user && db`) are the parameters
  `signedIn` and `hasDb`.
- A handler that reads `activeDesigner.schedules` while there is no designer
  throws in the source. The model leaves the state unchanged in that case.
- The debounced autosave is one slot, `pendingWrite`. `AutosaveEffect` is the
  effect body: it cancels the previous timer and starts a new one, holding the
  current document, only when the guard holds. `AutosaveTimerElapsed` is the
  timer firing. The caller runs `AutosaveEffect` after every change of the
  effect's dependencies, as React does.
- The toast text of `showToast` is the field `toastMessage`. The timer that
  clears it is not modelled.

## Model

| member | source | states |
|---|---|---|
| Lex.Le | src/App.js:363 | the comparator order on time values; a prefix of a value sorts before it |
| Lex.LeTotal | src/App.js:363 | any two time values are comparable, so the sort comparator is total |
| Lex.LeTransitive | src/App.js:363 | the comparator order is transitive |
| Lex.LeAntisymmetric | src/App.js:363 | two values ordered both ways are equal |
| Decimal.FromNat | src/App.js:773 | a number renders as a non-empty digit string without a leading zero |
| Decimal.ToNatFromNat | src/App.js:773 | reading the rendered digits back gives the number |
| Decimal.FromNatInjective | src/App.js:707 | different numbers render differently |
| Slots.StrictlyIncreasingIsWellFormed | src/App.js:360-363 | slots whose values strictly increase step by step are sorted with distinct values |
| Slots.InsertByValPermutes | src/App.js:363 | inserting a slot adds exactly that slot to the multiset of slots |
| Slots.InsertByValSorted | src/App.js:363 | inserting into sorted slots gives sorted slots |
| Slots.InsertByVal | src/App.js:360-363 | inserting a slot into the sorted slots gives one more slot and contains it |
| Slots.SortByVal | src/App.js:360-363 | the sort keeps the number of slots (sortedness and permutation are SortByValCorrect) |
| Slots.SortByValCorrect | src/App.js:360-363 | the sort returns sorted slots that are a permutation of its input |
| Slots.InsertByValUnique | src/App.js:359-363 | inserting a slot with a new value keeps the values distinct |
| Slots.SortByValUnique | src/App.js:360-363 | sorting keeps the values distinct |
| Slots.AddTime | src/App.js:357-366 | refused exactly when the input is empty or the value exists; otherwise sorted, one longer, a permutation of the old slots plus a free slot at the value |
| Slots.AddTimeKeepsWellFormed | src/App.js:357-366 | adding keeps a day's slots sorted with distinct values |
| Slots.AddTimeIdempotent | src/App.js:359 | adding the same value a second time is refused |
| Slots.ToggleSlot | src/App.js:435-440 | same length and values in the same order; only slots with that value flip their taken flag |
| Slots.ToggleSlotInvolutive | src/App.js:435-440 | toggling twice restores the slots |
| Slots.ToggleSlotKeepsWellFormed | src/App.js:435-440 | toggling keeps slots sorted and distinct |
| Slots.RemoveSlot | src/App.js:449-453 | the result holds exactly the slots whose value differs |
| Slots.RemoveSlotConcat | src/App.js:450-452 | removal keeps relative order: it distributes over concatenation |
| Slots.RemoveSlotAbsent | src/App.js:450-452 | removing a value no slot has changes nothing |
| Slots.RemoveSlotKeepsWellFormed | src/App.js:449-453 | removal keeps slots sorted and distinct |
| Schedules.MaxId | src/App.js:735 | the maximum id is an id of the list and no id exceeds it |
| Schedules.NextScheduleId | src/App.js:734-735 | the new id exceeds every id; it is 1 for an empty list and max+1 otherwise |
| Schedules.AppendSchedule | src/App.js:732-739 | earlier days untouched; one empty day appended whose id is NextScheduleId (max+1, or 1) and so exceeds all others |
| Schedules.AppendScheduleKeepsWellFormed | src/App.js:732-739 | adding a day keeps ids distinct and every day well-formed |
| Schedules.ScheduleIdReused | src/App.js:734-735 | for every list whose largest id is at least 1 (as every id the app assigns is): after removing the day with the largest id, the next id is no larger than the removed one, and equal to it when another day holds the id just below |
| Schedules.RemoveSchedule | src/App.js:743-746 | the result holds exactly the days whose id differs |
| Schedules.RemoveScheduleConcat | src/App.js:744 | removal keeps the relative order of the kept days |
| Schedules.RemoveScheduleRemovesOne | src/App.js:744 | with distinct ids, removing a present id removes exactly one day |
| Schedules.RemoveScheduleAbsent | src/App.js:744 | removing an id no day has changes nothing |
| Schedules.RemoveScheduleKeepsWellFormed | src/App.js:743-746 | removal keeps the days well-formed |
| Schedules.WithField | src/App.js:750 | a field update never changes a day's id |
| Schedules.EditWhere | src/App.js:749-751 | the edit applies to the days with that id and leaves every other day unchanged |
| Schedules.UpdateSchedule | src/App.js:748-753 | only days with that id change, and only in the named field; ids and all other days are unchanged |
| Schedules.UpdateTimesKeepsWellFormed | src/App.js:748-753 | setting well-formed slots keeps the days well-formed |
| Schedules.DateLabel | src/App.js:773 | the label "M/D" is non-empty |
| Schedules.DateLabelParses | src/App.js:773 | the label splits at its '/' back into month and day of the month |
| Schedules.DateChange | src/App.js:755-779 | an empty string clears all three date fields, a non-empty one becomes fullDate, the day becomes the weekday name of the calendar day and date the M/D label; slots, ids and other days are unchanged |
| Schedules.DateChangeKeepsWellFormed | src/App.js:755-779 | date and day stay empty exactly when fullDate is |
| Designers.FindById | src/App.js:503 | the index of the first designer with that id, or none when no designer has it |
| Designers.ActiveDesigner | src/App.js:502-503 | the first designer with the active id, else the first designer; none only for an empty roster |
| Designers.WithField | src/App.js:701 | a field update never changes a designer's id |
| Designers.UpdateActive | src/App.js:698-704 | only designers with the active id change, in the named field; every other designer is unchanged |
| Designers.UpdateActiveLastWins | src/App.js:698-704 | two edits of the same field leave the result of the second alone |
| Designers.UpdateWithoutActiveIsLost | src/App.js:502-503 | when no designer has the active id, the lookup shows the first designer but edits change nothing |
| Designers.AppendDesigner | src/App.js:706-711 | earlier designers untouched; a designer appended with the clock-based id, name "新設計師", location "請輸入地點" and no schedules |
| Designers.NewDesignerId | src/App.js:707 | the id is "d" followed by the decimal digits of the clock reading, with no leading zero, which read back as that reading |
| Designers.NewDesignerIdInjective | src/App.js:707 | different clock readings give different ids |
| Designers.AppendDesignerBecomesActive | src/App.js:706-713 | with a fresh id the new designer is the one the lookup shows, and ids stay distinct |
| Designers.RemoveDesigner | src/App.js:724 | the result holds exactly the designers whose id differs from the one to delete; their order is kept (RemoveDesignerConcat) |
| Designers.RemoveDesignerConcat | src/App.js:724 | the filter distributes over concatenation, so kept designers keep their order |
| Designers.RemoveDesignerFirstKept | src/App.js:724-727 | `filtered[0]` is the first designer in the list whose id is not the one deleted |
| Designers.RemoveDesignerGone | src/App.js:724 | when every designer has the deleted id, nothing is left |
| Designers.RemoveDesignerAbsent | src/App.js:724 | deleting an id no designer has changes nothing |
| Designers.RemoveDesignerRemovesAtMostOne | src/App.js:715-725 | with distinct ids at most one designer goes, so a roster of two or more never empties |
| Designers.SharedIdEmptiesRoster | src/App.js:715-725 | two designers sharing an id both go, emptying the roster despite the guard |
| Designers.FallbackActiveId | src/App.js:727 | `filtered[0].id` when the filtered list is non-empty and that id is non-empty, else none |
| Designers.FallbackSelectsFirst | src/App.js:726-727 | the fallback id makes the first remaining designer the active one |
| LineId.FormattedLineId | src/App.js:803-805 | the result starts with '@' and equals the input exactly when the input already did, else is "@" plus the input |
| LineId.FormattedLineIdIdempotent | src/App.js:803-805 | formatting twice is formatting once |
| Sync.MergeIncoming | src/App.js:581-586 | the designers and the LINE id are replaced exactly when the snapshot carries them (the LINE id even when empty); the password changes only to a non-empty value the snapshot carries, and always does when it carries one |
| Sync.MergeKeepsPasswordSet | src/App.js:583 | a non-empty password is never replaced by an empty one |
| Sync.MergeWrittenDoc | src/App.js:581-586 | a document the app wrote, read back, replaces the local document exactly |
| Sync.MergeEmptyData | src/App.js:581-586 | a snapshot carrying no field changes nothing |
| Sync.MergeIdempotent | src/App.js:581-586 | applying the same snapshot twice equals applying it once |
| Sync.AutosaveArmed | src/App.js:610 | the autosave never arms before the first snapshot, outside admin mode, or without a user and a database |
| App.App.constructor | src/App.js:477-501 | initial cells: the seed roster with "d1" active, password "admin", not admin, not loaded, no pending write |
| App.App.AdminLogin | src/App.js:664-674 | admin mode opens iff the input equals the password; the input is cleared in both cases; an empty input never opens it |
| App.App.ResetPassword | src/App.js:676-688 | only "8888" resets the password to "admin" and returns to the login prompt; otherwise an error and a cleared input |
| App.App.ChangePassword | src/App.js:690-696 | an empty or shorter-than-4 new password leaves the password unchanged with a toast; otherwise it is adopted |
| App.App.UpdateActiveDesigner | src/App.js:698-704 | the roster becomes UpdateActive of the old one; nothing else changes |
| App.App.AddDesigner | src/App.js:706-713 | the designer is appended and its id becomes the active id |
| App.App.RemoveDesignerClick | src/App.js:715-721 | with one designer or none only a toast appears; otherwise the id is marked for deletion |
| App.App.ConfirmDeleteDesigner | src/App.js:723-730 | the marked designers go, the active id falls back when it was the marked one, the mark is cleared |
| App.App.AddSchedule | src/App.js:732-741 | the active designer gets AppendSchedule of its days; nothing else changes |
| App.App.RemoveSchedule | src/App.js:743-746 | the active designer gets RemoveSchedule of its days; nothing else changes |
| App.App.UpdateSchedule | src/App.js:748-753 | the active designer gets UpdateSchedule of its days; nothing else changes |
| App.App.DateChange | src/App.js:755-779 | the active designer gets DateChange of its days; nothing else changes |
| App.App.EditorAddTime | src/App.js:357-366 | nothing changes when AddTime refuses; otherwise the day's slots become the sorted slots |
| App.App.EditorToggleSlot | src/App.js:435-440 | the day's slots become ToggleSlot of the rendered slots |
| App.App.EditorRemoveSlot | src/App.js:449-453 | the day's slots become RemoveSlot of the rendered slots |
| App.App.OnSnapshot | src/App.js:577-602 | in admin mode nothing local changes and nothing is written; otherwise a present document is merged field by field and a missing one causes one write of the seed document; loaded is true after every event, errors included |
| App.App.AutosaveEffect | src/App.js:609-628 | the previous timer is cancelled; a new one holding the current document starts only in admin mode, loaded, signed in and with a database |
| App.App.AutosaveTimerElapsed | src/App.js:611-626 | the pending document is written once and the slot empties |
| App.App.ExplicitSave | src/App.js:639-657 | the current document is written when signed in with a database; admin mode ends in every case |
| Roster.InitialDesigners | src/App.js:306-349 | the seed roster is one designer "d1" with three days, each dated and with date and day in sync |
| Scenarios.SeedIsWellFormed | src/App.js:306-349 | the seed roster has distinct ids, sorted distinct slots and date fields in sync |
| Scenarios.SeedRejectsDuplicateTime | src/App.js:357-359 | adding "13:00" to the first seed day is refused |
| Scenarios.FirstLoadCreatesDocumentOnce | src/App.js:577-597 | a missing document makes one bootstrap write; once it reads back, no further write, and the first designer is 魚魚 |
| Scenarios.PasswordChangeThenLogin | src/App.js:664-696 | "ab" is refused, "abcd" adopted; then "admin" does not open admin mode and "abcd" does |
| Scenarios.EditingShieldsLocalRoster | src/App.js:577-657 | while editing a remote roster is ignored; the save writes the local document and the next snapshot applies |
| Scenarios.AutosaveWritesLatestOnly | src/App.js:609-628 | two edits within one quiet period make one write, holding the second edit |
| Scenarios.SaveDisarmsAutosave | src/App.js:609-657 | after an explicit save no autosave timer is started |
| Scenarios.AddThenDeleteDesigner | src/App.js:706-730 | the last designer cannot be deleted; an added one can, and "d1" becomes active again |

## Left out

- Rendering: the SVG icons and all JSX markup (src/App.js:39-303, 368-471, 813-1397), including the tab click that selects a designer and the inputs that type into `passwordInput`, `newPasswordInput` and `lineOfficialId`; the model assigns those fields directly.
- Firebase setup, sign-in and the `doc`/`setDoc`/`onSnapshot` transport (src/App.js:6-34, 534-575): foreign library calls. Writes are returned as values; the subscription is the event parameter of `OnSnapshot`; a failed write is caught and logged in the source and changes no state.
- The subscription's closure over `isAdminMode` and its re-subscription when that flag changes: the model reads the current flag.
- The local-only start when there is no database (src/App.js:535-538): `isCloudLoaded` becomes true without a snapshot.
- The style loader and its polling (src/App.js:506-531) and the toast's 3-second clearing timer (src/App.js:659-662): DOM and timer plumbing.
- The 1.5-second delay of the autosave: no timing claims, only the single pending slot.
- Calendar arithmetic of `new Date`, `getMonth`, `getDate`, `getDay`, including invalid dates ("NaN/NaN"): depends on the browser's parsing and time zone; the calendar day is a parameter.
- `localeCompare`'s locale-specific collation: plain code-point order, which agrees with it on zero-padded "HH:MM" strings.
- Clipboard copy, `window.open` and `encodeURIComponent` around the LINE link (src/App.js:781-811): browser side effects.
- Snapshot fields holding `null` or values of the wrong type: the model takes a present field to be a string or a roster.
- Schedule ids that are not numbers (`Math.max` giving `NaN`): ids are integers.
- String length in UTF-16 code units: `|s|` counts characters, which differs only for characters outside the Basic Multilingual Plane.
- The editor's own `newTime` input and its reset after an add: editor-local view state.
