# Record table state holder — a Dafny model

The `App` component of this repository shows a table of records (id, name,
date, value) and a modal form for creating and editing them. All of its logic
lives in a small state holder with four pieces of state:

- the rows of the table, seeded with three records;
- the draft record edited in the modal;
- whether the modal is open;
- the validator's error map, keyed by field (`name`, `date`, `value`).

Event handlers change this state. The delete button filters rows out by id.
The edit button loads a row into the draft and opens the modal. The add
button only opens the modal. OK validates the draft; when it is valid, OK
edits or appends it, resets the draft and closes the modal. Cancel resets the
draft and closes the modal.

The model has four modules:

- `Rows` (`rows.dfy`) holds the record datatype and the list operations as
  pure functions on `seq<Row>`: `Find` (Array.prototype.find), `DeleteById`
  (filter), `EditById` (map-replace) and `Commit` (the edit-or-append choice
  of the OK handler). Lemmas about them sit beside them.
- `Validation` (`validation.dfy`) holds the three checks of the validator, the
  error map they build and ECMAScript's `String.prototype.trim`.
- `AppState` (`app.dfy`) holds the component as a class. Its mutable fields
  are `rows`, `draft`, `open` and `errors`, and it has one method per handler.
  Every handler is one atomic step that reads the state as it was when the
  handler started, as the component's closures do. The class invariant
  `Valid()` says that no two rows share an id. Every user event keeps it,
  because OK commits a draft whose id is already taken as an edit, never as
  an append; `AddRow` keeps it because it is only called for an unused id.
- `Scenarios` (`scenarios.dfy`) drives event sequences through the class,
  relying only on the handlers' contracts. It covers a delete, a create, a
  rejected create, an edit, stale errors after Cancel, and the two overwrite
  sequences listed under Findings.

`Date.parse` is represented by the set `parseable` of date strings it turns
into a number. It is a constant of the component. `new Date().toISOString()`
(today's date) is the `today` parameter of the constructor, `Ok` and `Cancel`.

Three facts about the code shape the model:

- The add button only opens the modal; it does not reset the draft
  (src/App.tsx:160).
- An invalid OK still replaces the error map (src/App.tsx:42).
- Numbering drafts by the table length never puts two rows with the same id
  in the table, because `AppState.App.Ok` keeps `Valid()`. A reused id makes
  the next creation overwrite a row instead (see Findings).

## Model

| member | source | states |
|---|---|---|
| Rows.SeedRows | src/App.tsx:17-21 | the table starts with three rows, and their ids are distinct |
| Rows.Find | src/App.tsx:104 | the lookup succeeds exactly when some row carries the id, and what it returns is a row of the table with that id |
| Rows.FindIsFirst | src/App.tsx:104 | the row found is the first row with that id: no earlier row carries it |
| Rows.DeleteById | src/App.tsx:84-86 | no row with the deleted id is left, and the table does not grow |
| Rows.DeleteContents | src/App.tsx:84-86 | deleting removes every row carrying the id and keeps each other row exactly as often as it occurred |
| Rows.DeleteConcat | src/App.tsx:84-86 | deleting from a concatenation is the concatenation of the deletions, so the kept rows stay in their original order |
| Rows.DeleteSingle | src/App.tsx:85 | a single row is dropped when it carries the id and kept otherwise |
| Rows.DeleteAbsent | src/App.tsx:84-86 | deleting an id that no row carries leaves the table unchanged |
| Rows.DeleteFromInput | src/App.tsx:85 | every row left after a delete is a row of the input, with a different id |
| Rows.DeleteKeepsDistinct | src/App.tsx:84-86 | deleting keeps ids distinct |
| Rows.EditById | src/App.tsx:92-96 | editing keeps the length; each row with the draft's id becomes the draft, and every other row is unchanged |
| Rows.EditKeepsIds | src/App.tsx:92-96 | editing keeps every position's id, so distinct ids stay distinct |
| Rows.EditStoresDraft | src/App.tsx:92-96 | editing under an id some row carries puts the draft in the table |
| Rows.Commit | src/App.tsx:104 | after either branch the draft is a row of the table; the table grows by exactly one row when no row carried the draft's id and keeps its length otherwise |
| Rows.CommitEdits | src/App.tsx:92-104 | when the draft's id is in use, the commit keeps the length, replaces each row with that id by the draft and leaves every other row unchanged |
| Rows.CommitAppends | src/App.tsx:88-104 | when the draft's id is not in use, the commit appends the draft as the last row and changes no earlier row |
| Rows.CommitKeepsDistinct | src/App.tsx:88-104 | a commit never makes two rows share an id |
| Rows.SameIdOverwrites | src/App.tsx:104-107 | two commits under the same unused id append the first draft, then overwrite it with the second, leaving one new row |
| Rows.FreshId | src/App.tsx:107 | corrected numbering: an id no row carries, at least 1 |
| Rows.MaxId | src/App.tsx:107 | the largest id in use, or 0 when that is larger; at least every row's id |
| Rows.CommitFreshAppends | src/App.tsx:104-107 | corrected numbering: a draft numbered with FreshId of the table it is committed into is always appended |
| Rows.FreshTwiceAppends | src/App.tsx:104-107 | corrected numbering over two creations: when the second draft is numbered with FreshId of the table after the first commit, both drafts are appended, in order |
| Validation.TrimStart | src/App.tsx:32 | leading whitespace only is removed; the result is a suffix of the input that does not start with whitespace |
| Validation.TrimEnd | src/App.tsx:32 | trailing whitespace only is removed; the result is a prefix of the input that does not end with whitespace |
| Validation.Trim | src/App.tsx:32 | the result is a slice of the input with only whitespace cut from each end, and neither of its ends is whitespace |
| Validation.TrimEmptyIff | src/App.tsx:32 | trimming leaves the empty string exactly when the name is whitespace only |
| Validation.ErrorsOf | src/App.tsx:29-41 | the error map has a name, date or value key exactly when that check fails, each with its message ('Имя обязательно', 'Некорректная дата', 'Значение должно быть больше 0'); it is empty exactly when the name is not blank, the date is non-empty and parseable, and the value is positive |
| Validation.ValidDraftTrimForm | src/App.tsx:32-44 | a draft passes exactly when its trimmed name is non-empty, its date is non-empty and accepted by Date.parse, and its value is positive |
| Validation.OnlyNameError | src/App.tsx:29-44 | a draft whose only fault is a blank name gets exactly one entry, the name message |
| Validation.NameCheckIsTrim | src/App.tsx:32-34 | the name entry is present exactly when the trimmed name is empty |
| AppState.App.constructor | src/App.tsx:14-27 | initial state: the seed rows, a blank draft numbered 4, the modal closed, no errors; ids are distinct |
| AppState.App.Validate | src/App.tsx:29-45 | the error map is replaced by the draft's errors, and the result is true exactly when that map is empty, that is, when the draft is valid |
| AppState.App.DeleteRow | src/App.tsx:84-86 | the rows become the input without the rows carrying the id; ids stay distinct |
| AppState.App.AddRow | src/App.tsx:88-90 | the draft is appended; called only when no row carries its id, so ids stay distinct |
| AppState.App.EditRow | src/App.tsx:92-96 | each row with the draft's id is replaced by the draft; ids stay distinct |
| AppState.App.CommitDraft | src/App.tsx:104 | the rows become the edit-or-append commit of the draft; ids stay distinct |
| AppState.App.Ok | src/App.tsx:102-113 | the error map is always replaced; an invalid draft leaves rows, draft and modal unchanged; a valid draft is committed, the draft is reset to a blank record (id equal to the length before the commit plus 1, empty name, today's date, value 0) and the modal closes; ids stay distinct |
| AppState.App.Cancel | src/App.tsx:114-122 | the draft is reset to a blank record (id the length plus 1, empty name, today's date, value 0) and the modal closes; rows and errors are untouched |
| AppState.App.EditButton | src/App.tsx:72-75 | the draft becomes the chosen row and the modal opens |
| AppState.App.AddButton | src/App.tsx:158-162 | the modal opens; the draft is untouched |
| AppState.App.SetName | src/App.tsx:131 | only the draft's name changes |
| AppState.App.SetDate | src/App.tsx:140-142 | only the draft's date changes |
| AppState.App.SetValue | src/App.tsx:153 | only the draft's value changes |
| Scenarios.DeleteSecondOfSeed | src/App.tsx:84-86 | deleting id 2 from the seed table leaves the rows with ids 1 and 3 |
| Scenarios.DeleteSecond | src/App.tsx:68 | after the delete button on row 2, the table holds rows 1 and 3 in order |
| Scenarios.Create | src/App.tsx:102-113 | filling the form with a valid record and pressing OK commits it under the draft's id and resets the draft |
| Scenarios.CreateOne | src/App.tsx:102-113 | creating {Pavel, 2025-09-01, 10} on the seed table appends it as row 4, closes the modal, and the next blank draft is numbered 4 again |
| Scenarios.RejectEmptyName | src/App.tsx:32-44 | OK with an empty name yields exactly the name error; the table is unchanged and the modal stays open |
| Scenarios.StaleErrorsAfterCancel | src/App.tsx:114-122 | Cancel after a rejected OK closes the modal and resets the draft, but the name error stays in the error map |
| Scenarios.EditFirstValue | src/App.tsx:72-113 | editing row 1 to value 100 changes that value only; the length stays 3 |
| Scenarios.CreateTwice | src/App.tsx:104-111 | two creations in a row leave four rows: the second overwrites the first |
| Scenarios.DeleteThenCreateTwice | src/App.tsx:104-111 | after deleting id 2, the second creation is numbered 3 and overwrites the seed row with id 3 |

## Findings

| source | as written | input that shows it | evidently intended | confidence | as-written member | corrected member |
|---|---|---|---|---|---|---|
| src/App.tsx:107 | after a commit, the blank draft is numbered from the table length before the commit, so after an append it reuses the id just added | seed table; add {Pavel, 2025-09-01, 10}; add {Olga, 2025-09-02, 20}: the table still has 4 rows and Pavel is gone | every creation adds a new row | not executed | Scenarios.CreateTwice | Rows.FreshTwiceAppends |
| src/App.tsx:107 | the blank draft is numbered from the table length (as at lines 23 and 116 too), which after a delete can be an id still in use | seed table; delete id 2; add Pavel; add Olga: Olga gets id 3 and replaces the seed row with id 3 | a new draft's id is not used by any row | not executed | Scenarios.DeleteThenCreateTwice | Rows.CommitFreshAppends |

`AppState.App` keeps the numbering as written, so the scenarios reproduce the
behaviour of the code. The corrected reset numbers the next draft with
`Rows.FreshId` (largest id plus 1) of the table AFTER the commit.
`Rows.CommitFreshAppends` proves that a draft numbered this way is appended,
and `Rows.FreshTwiceAppends` proves that two creations in a row add two rows.
`Rows.SameIdOverwrites` states the as-written failure for any table.

## Left out

- Rendering, the antd widgets (table, modal, inputs, date picker, buttons), icons and CSS.
- The column sorters (src/App.tsx:51, 56-57, 62). They use a locale-dependent string comparison, differences of `Date.getTime()` values and floating-point subtraction inside the table widget.
- `Date.parse` is modelled only as membership in the set `parseable`. `dayjs` display formatting is not modelled. Today's date is a parameter.
- `Number(e.target.value)` in the value field (src/App.tsx:153): `SetValue` takes the number after conversion.
- JavaScript numbers: `value` is a real and `id` an integer, with no NaN, infinities or rounding. Only `value <= 0` is tested by the source.
- React's scheduling and batching of state updates: each handler is one atomic step over the state it read at its start.
- Validation.ErrorsOf and Validation.ValidDraft: the name check is written with `IsBlank`, not with `Trim`. `Validation.NameCheckIsTrim` and `Validation.ValidDraftTrimForm` prove the two forms agree; the trimmed form is kept out of the contracts the class and the scenarios use, to keep their proofs small.
