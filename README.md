# isbn-scanner core, modelled in Dafny

isbn-scanner is a desktop catalogue for books and comics. A barcode scanner
"types" an identifier into the window, or an identifier is copied to the
clipboard; the front end checks it, asks the backend to look it up or fetch
it, and stores the book in SQLite. This project models the logic of that
pipeline and of the dialogs and stores around it:

- the identifier checks of the front end (`isISBN`, `isEAN13`,
  `isOnlyDigits`, `cn`) and of the backend (`is_ean13`,
  `get_identifier_type`), with the ISBN-10 mod-11 rule of ISO 2108 and the
  mod-10 1/3-weighted check digit of section 7.9 of the GS1 General
  Specifications (`utils_ts.dfy`, `utils_rs.dfy`);
- the keystroke listener: a buffer and a last-key time updated on each
  key press, and the dispatch after Enter (`keypress.dfy`);
- the clipboard poller: the `lastClipboard` marker and the interval handle
  (`clipboard.dfy`);
- the group list shared by the details and grouping dialogs: the suggestion
  filter, the arrow-key index and the choice Enter makes
  (`group_lists.dfy`); the details dialog with its form, `dirty` test, Save
  rule and payload (`details.dfy`); the grouping dialog (`grouping.dfy`);
  the add-book dialog (`addbook.dfy`);
- `insert_book` over in-memory tables, and the layout of the CSV export
  (`db.dfy`);
- the settings store with its spread precedence and memoised store
  (`store.dfy`);
- the application shell: the theme cycle, the dark-class rule, the toggles
  and the handlers that clear state after a backend call (`app.dfy`).

`text.dfy` models the JavaScript and Rust string built-ins the code relies
on (`trim`, `split`, `join`, the `split(",").map(trim).filter(Boolean)`
idiom, `toLowerCase`, `includes`, `new Set`, `parseInt`, `to_string`) on
ASCII text. `wrappers.dfy` holds `Option`, `Result` and `Outcome`. An
`Outcome` is how a promise settled: resolved with a value, or rejected with
an error.

State that the source changes in place is modelled as a class whose methods
change its fields: the listener's refs, the poller's closure variables, the
dialogs' React state, the store, the catalogue tables and the shell's
state. The loops that add up checksums or build CSV rows are methods with
loop invariants. Each is proved equal to a specification function, and the
properties are lemmas about those functions.

Choices made where the code and its description differ (the model follows
the code):

- A 13-digit ISBN that passes the check digit also passes `isEAN13`, so the
  keystroke listener sends it to the EAN lookup. Only 10-digit ISBNs take
  the exists-then-fetch path (`KeypressListener.Dispatch`,
  `Utils.ThirteenDigitsAgree`).
- `get_identifier_type` tags any 10-digit identifier `ISBN_10` without
  testing its checksum, and any 13-digit one failing the check `ISBN_13`.
- App passes `onSuccess` to the keystroke listener, which declares
  `onBookSaved`. A fetched book is therefore reported to nobody. The model
  records the listener's own report (`BookSaved`) and leaves the wiring out.
- `handleAddBook` sends the identifier under the key `isbn`.
  `App.AddBookArgs` keeps that name. How the backend command reads it is
  not part of this model.
- App mounts no clipboard listener and passes no `knownGroups` to the
  details dialog. Both are modelled as their own files declare them.
- The Ctrl/Cmd-S shortcut of the details dialog calls `onSave` in edit mode
  without the Save button's guard. It saves an unchanged form or a blank
  title (`DetailsDialog.ShortcutIgnoresSaveGuard`).
- The "Add" action of the error toast calls `openAddDialog`, which sets
  `addOpen` to the negation of the value it had when the toast was shown.
  If the dialog was already open then and has not been toggled since, the
  action closes it (`App.Shell.ErrorToastAdd`).
- A typed group holding a comma is added as one string but read back as two
  groups (`DetailsDialog.TypedCommaAddsTwo`). An author name holding a comma
  makes a freshly opened form dirty (`DetailsDialog.CommaInAuthorIsDirty`).
- Enter on a suggestion index past the end passes `undefined`. In the
  details dialog `join` renders it as nothing, so the listed groups stay
  the same (`DetailsDialog.UndefinedAddKeepsGroups`). In the grouping
  dialog it is signalled with an explicit `Undefined` argument.

## Model

| member | source | states |
|---|---|---|
| Utils.Digits | src/utils.ts:2 | keeps only `[0-9]` characters, never lengthens the string, and leaves an all-digit string unchanged |
| Utils.DigitsAppend | src/utils.ts:2 | the digit filter distributes over concatenation |
| Utils.ValidateIsbn10 | src/utils.ts:13-19 | the loop's verdict is exactly "Σ dᵢ·(10−i) is a multiple of 11" |
| Utils.ValidateIsbn13 | src/utils.ts:21-28 | the loop's verdict is exactly "the last digit equals (10 − Σ_{i<12} dᵢ·(1 or 3) mod 10) mod 10" |
| Utils.IsIsbn | src/utils.ts:1-11 | the verdict is the 10-digit mod-11 test or the 13-digit check-digit test on the digit subsequence, and false for any other digit count |
| Utils.IsEan13 | src/utils.ts:30-40 | the verdict is the GS1 check on exactly 13 digits, false for any other digit count |
| Utils.IsOnlyDigits | src/utils.ts:42-44 | true exactly for non-empty all-digit strings |
| Utils.KeptClasses | src/utils.ts:47 | `filter(Boolean)` keeps exactly the non-empty class names: every kept name is a non-empty argument, every non-empty argument is kept, never more than given |
| Utils.KeptClassesAppend | src/utils.ts:47 | the filter distributes over concatenation, so the kept names come in argument order |
| Utils.CnSplits | src/utils.ts:46-48 | splitting `cn`'s result on spaces gives back the kept names in order, when none holds a space |
| Utils.CnEmpty | src/utils.ts:46-48 | `cn` is empty exactly when every argument is falsy (`false`, `null`, `undefined` or `""`), exactly when nothing is kept |
| Utils.OnlyDigitsMatter | src/utils.ts:2 | inserting a non-digit anywhere changes neither `isISBN` nor `isEAN13` |
| Utils.DigitsDecide | src/utils.ts:1-11 | both checks give the same verdict on a string and on its digits alone |
| Utils.NineDigitsAndXRejected | src/utils.ts:2-10 | nine digits followed by `X` or `x` are rejected, because the `X` is discarded |
| Utils.ThirteenDigitsAgree | src/utils.ts:6-7 | on 13 digits `isISBN` and `isEAN13` agree |
| Utils.Isbn10DetectsSingleError | src/utils.ts:13-19 | changing any one digit of an accepted 10-digit string makes it rejected |
| Utils.Ean13CheckDigitMoves | src/utils.ts:23-26 | changing one of the twelve summed digits changes the check digit |
| Utils.Ean13DetectsSingleError | src/utils.ts:21-28 | changing any one digit of an accepted 13-digit string makes both checks reject it |
| Utils.Ean13FullSum | src/utils.ts:21-28 | the check-digit test equals the GS1 full-sum form: all 13 weighted digits sum to a multiple of 10 |
| Utils.Isbn10EitherWeighting | src/utils.ts:15-18 | the ISBN-10 rule holds with weights 10..1 exactly when it holds with weights 1..10 |
| BackendUtils.NumericCharsAreDigits | src-tauri/src/utils.rs:2 | on ASCII, the `is_numeric` filter keeps the same characters as the front end's `\D` removal |
| BackendUtils.ParseDigit | src-tauri/src/utils.rs:9-15 | a one-character parse succeeds exactly for a digit, with its value |
| BackendUtils.IsEan13 | src-tauri/src/utils.rs:1-20 | `is_ean13`'s loop gives the same verdict as the front end's `isEAN13`, and rejects every digit count but 13 |
| BackendUtils.GetIdentifierType | src-tauri/src/utils.rs:22-36 | `ISBN_10` iff 10 digits; `EAN_13` iff 13 digits with a valid check; `ISBN_13` iff 13 digits without; the length error otherwise |
| BackendUtils.IdentifierTypeOfDigits | src-tauri/src/utils.rs:23 | the type of an identifier equals the type of its digits alone |
| KeypressListener.Flush | src/components/KeypressListener.tsx:41-46 | Enter emits a scan exactly when the buffer is not blank, and the scan is non-empty and trimmed |
| KeypressListener.Step | src/components/KeypressListener.tsx:30-104 | every key sets the last-key time to now; a valid buffer stays valid (scan characters only, at most 32); Enter leaves the buffer empty; only Enter emits, a non-empty trimmed text |
| KeypressListener.ScanAggregator.constructor | src/components/KeypressListener.tsx:20-23 | the refs start as the empty buffer and time 0 |
| KeypressListener.ScanAggregator.KeyDown | src/components/KeypressListener.tsx:30-104 | the refs and the emitted scan after one key are those of `Step`, and the buffer stays valid |
| KeypressListener.GapRule | src/components/KeypressListener.tsx:34-36 | a gap of more than 50 ms empties the buffer; a gap of at most 50 ms keeps it, for any ignored key |
| KeypressListener.AllowedKeyRule | src/components/KeypressListener.tsx:91-97 | an accepted key is appended below 32 characters; at 32 the buffer is emptied and the key dropped |
| KeypressListener.EnterEmitsBuffer | src/components/KeypressListener.tsx:40-46 | within the gap, Enter emits exactly the buffer when it is non-empty, and nothing otherwise |
| KeypressListener.BurstPrefix | src/components/KeypressListener.tsx:34-97 | after the first k keys of a fast burst of at most 32 scan characters, the buffer holds exactly them and nothing was emitted |
| KeypressListener.ScanBurst | src/components/KeypressListener.tsx:30-81 | a fast burst of 1 to 32 scan characters followed by Enter emits exactly that text, once |
| KeypressListener.OverlongBurstDropped | src/components/KeypressListener.tsx:91-97 | a fast burst of 33 scan characters followed by Enter emits nothing |
| KeypressListener.Dispatch | src/components/KeypressListener.tsx:49-65 | EAN lookup iff `isEAN13`; exists-then-fetch iff `isISBN` and not `isEAN13` (only for 10 digits); the unknown-format notice iff neither and all digits |
| KeypressListener.Follow | src/components/KeypressListener.tsx:49-78 | which commands run for each action: none for an unknown text, one lookup for an EAN, an existence check followed by a fetch only when the book is absent; and the report for every answer: nothing for an ignored text, the notice, an existing book or a new EAN, a logged lookup failure, nothing for a known ISBN, the saved message, or the scanned text with the error of the failed check or fetch |
| KeypressListener.NoCallForUnknownText | src/components/KeypressListener.tsx:49-54 | no backend command runs iff the text is neither ISBN nor EAN-13; the notice appears iff it is moreover all digits, and otherwise nothing is reported |
| KeypressListener.FetchOnlyWhenAbsent | src/components/KeypressListener.tsx:67-72 | `fetch_isbn` runs only after `isbn_exists` answered false, with the scanned text, for a valid 10-digit ISBN |
| KeypressListener.FailuresCarryScannedText | src/components/KeypressListener.tsx:73-78 | a failed check or fetch is reported with the scanned text and its error, and an error report arises exactly from such a failure; a failed EAN lookup is only logged |
| KeypressListener.EanLookupReported | src/components/KeypressListener.tsx:55-63 | a scanned EAN-13 is reported as the existing book the lookup found, or as a new EAN with the scanned text |
| KeypressListener.ScannedEanLooksUp | src/components/KeypressListener.tsx:55-58 | a fast burst of a valid EAN-13 and Enter lead to exactly one `find_comic_by_ean` with that text |
| ClipboardListener.Tick | src/components/ClipboardListener.tsx:20-38 | a fetch is issued iff the read succeeded, the trimmed text passes the predicate and differs from the marker; the marker becomes the fetched text and is otherwise unchanged |
| ClipboardListener.PollInvariant | src/components/ClipboardListener.tsx:22-29 | over any run of ticks the marker is the last text fetched, every fetched text passes the predicate, and no text is fetched twice in a row |
| ClipboardListener.RepeatedTextFetchedOnce | src/components/ClipboardListener.tsx:26-27 | the same clipboard on n consecutive ticks is fetched exactly once |
| ClipboardListener.RejectedTextKeepsMarker | src/components/ClipboardListener.tsx:23-27 | A, a non-identifier, then A again fetches A only once |
| ClipboardListener.FailedReadChangesNothing | src/components/ClipboardListener.tsx:35-37 | a failed read leaves the marker and the fetched list unchanged |
| ClipboardListener.ClipboardPoller.constructor | src/components/ClipboardListener.tsx:17-60 | on mount the marker is empty and exactly one timer runs |
| ClipboardListener.ClipboardPoller.StartPolling | src/components/ClipboardListener.tsx:40-44 | a timer is created only when none is held; otherwise nothing changes |
| ClipboardListener.ClipboardPoller.StopPolling | src/components/ClipboardListener.tsx:46-51 | afterwards no interval is held and no timer runs |
| ClipboardListener.ClipboardPoller.OnFocusChanged | src/components/ClipboardListener.tsx:53-58 | focus starts polling (keeping a running timer), blur stops it |
| ClipboardListener.ClipboardPoller.CheckClipboard | src/components/ClipboardListener.tsx:20-38 | the marker and the fetch follow `Tick`; the report is success or failure with the text, logged for a failed read, silent otherwise; the timers are untouched |
| ClipboardListener.StartTwice | src/components/ClipboardListener.tsx:40-44 | a second start keeps the first timer and creates none |
| ClipboardListener.StopTwice | src/components/ClipboardListener.tsx:46-51 | a second stop is a no-op and leaves no timer |
| GroupLists.Suggestions | src/components/GroupingDialog.tsx:28-33 | empty for a blank input; exactly the candidates not yet chosen whose lower-cased text includes the lower-cased input; a subsequence of the candidates |
| GroupLists.TrailingSpaceHidesMatch | src/components/GroupingDialog.tsx:30-31 | the input is matched untrimmed: `"ab "` suggests nothing where `"ab"` suggests `"ab"` |
| GroupLists.ArrowDown | src/components/GroupingDialog.tsx:64-68 | one step down unless already on the last suggestion |
| GroupLists.ArrowUp | src/components/GroupingDialog.tsx:69-71 | one step up, stopping at −1 |
| GroupLists.ArrowsStayInRange | src/components/GroupingDialog.tsx:64-71 | both arrows keep the index in [−1, len−1] |
| GroupLists.ArrowDownRepeated | src/components/GroupingDialog.tsx:64-68 | k presses from −1 select index k−1, then stay on the last suggestion |
| GroupLists.GroupKey | src/components/GroupingDialog.tsx:62-84 | only Enter adds; Enter adds the selected suggestion, the trimmed input when none is selected or there are no suggestions (nothing if blank), and `undefined` past the end; the index stays in range |
| GroupLists.EnterWithoutSelection | src/components/GroupingDialog.tsx:76-77 | with suggestions and no selection, Enter adds the trimmed input, which is non-empty |
| GroupLists.EnterPicksFreshCandidate | src/components/GroupingDialog.tsx:74-75 | a suggestion picked by Enter is a candidate not already chosen |
| GroupingDialog.AddSignal | src/components/GroupingDialog.tsx:53-57 | `onGroupAdd` fires with the group exactly when it is not already present |
| GroupingDialog.Dialog.constructor | src/components/GroupingDialog.tsx:24-25 | the input starts empty and the index at −1 |
| GroupingDialog.Dialog.SetOpen | src/components/GroupingDialog.tsx:35-43 | closing clears the input and the index; opening changes neither |
| GroupingDialog.Dialog.SetInput | src/components/GroupingDialog.tsx:45-51 | while open (nothing is rendered otherwise), a changed input resets the index to −1 |
| GroupingDialog.Dialog.HandleAdd | src/components/GroupingDialog.tsx:49-60 | while open, signals per `AddSignal`, and always clears the input and the index |
| GroupingDialog.Dialog.HandleKeyDown | src/components/GroupingDialog.tsx:62-84 | while open, the new index, input and signal follow `GroupKey` on the filtered suggestions |
| GroupingDialog.SelectedSuggestionSignalled | src/components/GroupingDialog.tsx:72-75 | a suggestion chosen with Enter is always signalled |
| AddBookDialog.CanSubmit | src/components/AddBookDialog.tsx:50 | true iff no submit is in flight and the title has a non-space character |
| AddBookDialog.OrUndefined | src/components/AddBookDialog.tsx:62-63 | blank gives undefined; otherwise exactly `Trim(s)`, non-empty |
| AddBookDialog.BuildPayload | src/components/AddBookDialog.tsx:56-64 | the title is `Trim(title)` (empty iff blank); the authors are the comma-list tokens of the field, each non-empty, trimmed and comma-free, none for a blank field; publisher and year each through `OrUndefined` |
| AddBookDialog.AuthorsRoundTrip | src/components/AddBookDialog.tsx:58-61 | names typed as a ", " list come back exactly |
| AddBookDialog.Dialog.constructor | src/components/AddBookDialog.tsx:24-28 | all four inputs start empty and nothing is submitting |
| AddBookDialog.Dialog.SetOpen | src/components/AddBookDialog.tsx:32-44 | a change of `open` resets `submitting`; closing clears the four inputs; opening keeps them; no change leaves everything |
| AddBookDialog.Dialog.Type | src/components/AddBookDialog.tsx:46-48 | while open (nothing is rendered otherwise), an input's change sets that field only |
| AddBookDialog.Dialog.BeginSubmit | src/components/AddBookDialog.tsx:46-65 | while open, nothing happens unless `canSubmit`; otherwise `submitting` is set and the built payload handed over |
| AddBookDialog.Dialog.FinishSubmit | src/components/AddBookDialog.tsx:65-71 | the dialog asks to close iff `onSubmit` resolved; `submitting` is reset either way |
| AddBookDialog.DoubleClick | src/components/AddBookDialog.tsx:50-54 | a second click while the first submit is in flight sends nothing |
| AddBookDialog.SubmitAndClose | src/components/AddBookDialog.tsx:65-71 | a successful submit followed by the close leaves a closed dialog with empty inputs |
| DetailsDialog.CurrentGroups | src/components/DetailsDialog.tsx:63-70 | every group is non-empty, trimmed and comma-free |
| DetailsDialog.AllKnownGroups | src/components/DetailsDialog.tsx:72-75 | each known or own group exactly once, nothing else |
| DetailsDialog.ReadBack | src/components/DetailsDialog.tsx:94 | clean groups joined with ", " read back as the same list |
| DetailsDialog.GroupAddAppends | src/components/DetailsDialog.tsx:92-96 | adding a new clean group appends exactly it; adding a present one changes nothing |
| DetailsDialog.ReadBackEmptyLast | src/components/DetailsDialog.tsx:118-119 | joining clean groups and an empty last element reads back as the clean groups |
| DetailsDialog.UndefinedAddKeepsGroups | src/components/DetailsDialog.tsx:118-119 | adding `undefined` lists the same groups |
| DetailsDialog.TypedCommaAddsTwo | src/components/DetailsDialog.tsx:120-121 | typing `a,b` into an empty group list adds the two groups a and b |
| DetailsDialog.GroupRemoveDrops | src/components/DetailsDialog.tsx:101-104 | removal lists the old groups without every occurrence of g, in order |
| DetailsDialog.FreshScalars | src/components/DetailsDialog.tsx:35-45 | the seeded form's scalars equal the book's under `dirty`'s comparison |
| DetailsDialog.FreshFormNotDirty | src/components/DetailsDialog.tsx:131-161 | a freshly seeded form is not dirty when the names survive the comma-list idiom |
| DetailsDialog.CommaInAuthorIsDirty | src/components/DetailsDialog.tsx:132-139 | an author "Doe, J" makes the fresh form dirty |
| DetailsDialog.TitleEditDirty | src/components/DetailsDialog.tsx:150-151 | editing a fresh form's title makes it dirty iff the new title differs |
| DetailsDialog.OrNull | src/components/DetailsDialog.tsx:195-199 | `value \|\| null` is null exactly for the empty string, and any other text is passed unchanged |
| DetailsDialog.SavePayload | src/components/DetailsDialog.tsx:190-202 | the volume id, the untrimmed title and the numbers as in the form; publisher, year, description and language each through `\|\| null`; the authors as the comma-list idiom reads the field, the groups as the current ones, both clean |
| DetailsDialog.SaveUntouchedKeepsLists | src/components/DetailsDialog.tsx:182-201 | saving an untouched form writes back the book's own authors and groups |
| DetailsDialog.SaveEnabled | src/components/DetailsDialog.tsx:689-691 | enabled iff edit mode, not saving, dirty and the title not blank |
| DetailsDialog.WindowKey | src/components/DetailsDialog.tsx:163-174 | while open, Escape closes, and Ctrl/Cmd with `s` or `S` saves in edit mode |
| DetailsDialog.ShortcutIgnoresSaveGuard | src/components/DetailsDialog.tsx:170-173 | the shortcut saves even a form whose Save button is disabled |
| DetailsDialog.GroupKeyStep | src/components/DetailsDialog.tsx:106-129 | the form, input and index after a key in the group input follow `GroupKey` on the suggestions |
| DetailsDialog.Dialog.constructor | src/components/DetailsDialog.tsx:30-45 | the form is seeded from the book, the group input empty, nothing selected or saving |
| DetailsDialog.Dialog.SetProps | src/components/DetailsDialog.tsx:47-61 | a new `initial` object (compared by identity, as React does, even when its contents are equal) or a changed `editMode` reseeds the form and clears the group input and the index; otherwise nothing changes |
| DetailsDialog.Dialog.EditText | src/components/DetailsDialog.tsx:305-337 | while open in edit mode, a text field's change sets that field only |
| DetailsDialog.Dialog.EditNumber | src/components/DetailsDialog.tsx:312-317 | while open in edit mode, an empty input is ignored; anything else is stored as `parseInt` reads it |
| DetailsDialog.Dialog.SetGroupInput | src/components/DetailsDialog.tsx:88-90 | while open in edit mode, a changed group input resets the index |
| DetailsDialog.Dialog.HandleGroupAdd | src/components/DetailsDialog.tsx:92-99 | while open in edit mode, the form gets the group added, the input is cleared and the index reset |
| DetailsDialog.Dialog.HandleGroupRemove | src/components/DetailsDialog.tsx:101-104 | while open in edit mode, the form gets the group removed, nothing else changes |
| DetailsDialog.Dialog.HandleGroupKeyDown | src/components/DetailsDialog.tsx:106-129 | while open in edit mode, the new state follows `GroupKey` on the suggestions of the current state |
| DetailsDialog.Dialog.ClickSave | src/components/DetailsDialog.tsx:686-691 | when enabled, `saving` is set and the save payload sent; otherwise nothing |
| DetailsDialog.Dialog.WindowKeyDown | src/components/DetailsDialog.tsx:163-177 | Escape asks to close; the shortcut sets `saving` and sends the payload unguarded |
| DetailsDialog.Dialog.FinishSave | src/components/DetailsDialog.tsx:204-207 | the dialog asks to close iff `update_book` resolved; `saving` is reset either way |
| Text.Trim | src/components/AddBookDialog.tsx:50 | the result is the slice of the input left after removing a blank prefix and a blank suffix, has no space at either end, is empty iff the input is blank, and leaves a trimmed input unchanged |
| Text.Tokens | src/components/DetailsDialog.tsx:65-68 | every token of the comma-list idiom is non-empty, trimmed and separator-free |
| Text.TokensOfJoin | src/components/DetailsDialog.tsx:94 | clean elements joined with "sep " read back as the same list |
| Text.Dedup | src/components/DetailsDialog.tsx:73 | `new Set` keeps each element once, nothing else, in first-occurrence order |
| Text.Without | src/components/DetailsDialog.tsx:102 | the filter keeps exactly the elements different from x, in their order and with their multiplicity (a subsequence whose multiset is the input's without x) |
| Text.ParseIntDecimal | src/components/DetailsDialog.tsx:312-317 | `parseInt` reads back every integer `to_string` renders |
| Text.ParseIntExamples | src/components/DetailsDialog.tsx:312-317 | `"1.5"` reads as 1, `".5"` and `""` as NaN |
| Database.StoredIdentifier | src-tauri/src/db.rs:439 | an identifier gets a row only when present and non-empty |
| Database.AuthorPositions | src-tauri/src/db.rs:393-413 | the positions are keyed by exactly the listed names |
| Database.PositionIsLastIndex | src-tauri/src/db.rs:399-406 | each name keeps the index of its last occurrence |
| Database.DistinctAuthorPositions | src-tauri/src/db.rs:393-413 | distinct authors get positions 0..n−1 in input order |
| Database.RepeatedAuthorTakesLastPosition | src-tauri/src/db.rs:404-405 | `["A","B","A"]` gives A position 2 and B position 1 |
| Database.GroupLinks | src-tauri/src/db.rs:418-435 | one link row per listed group, in order |
| Database.LinkAuthors | src-tauri/src/db.rs:393-413 | the author loop yields the positions and the set of names |
| Database.LinkGroups | src-tauri/src/db.rs:417-436 | the group loop fails exactly when a group is listed twice; otherwise it yields the names and one link per listed group |
| Database.LinkCustomFields | src-tauri/src/db.rs:454-472 | the custom-field loop stores each given value and names every field |
| Database.IdentifierRows | src-tauri/src/db.rs:439-452 | at most one identifier row, present iff the identifier is non-empty and of valid length, holding the volume id and the identifier as given |
| Database.InsertError | src-tauri/src/db.rs:359-452 | a taken volume id fails first, a repeated group next; no error implies a new volume id and distinct groups; without an identifier only those two can fail |
| Database.InsertKeepsConsistent | src-tauri/src/db.rs:353-474 | a successful insert keeps the keys of `books`, `book_identifiers` and `book_groups` and every reference of the link tables |
| Database.InsertKeepsUniqueGroupLinks | src-tauri/src/db.rs:417-436 | a successful insert keeps `(volume_id, group_id)` unique |
| Database.RepeatedGroupFails | src-tauri/src/db.rs:424-434 | a new book listing group X twice is refused on the key of `book_groups` |
| Database.InsertKeepsUniqueVolumes | src-tauri/src/migrations.rs:8 | a new volume id keeps `volume_id` unique |
| Database.InsertKeepsUniqueIdentifiers | src-tauri/src/migrations.rs:63-70 | a successful insert keeps `(type, identifier)` unique |
| Database.InsertKeepsReferences | src-tauri/src/migrations.rs:46-69 | every link row still refers to an existing book and name |
| Database.InsertOnlyAdds | src-tauri/src/db.rs:353-474 | existing rows stay as they were, and every other volume keeps its authors and custom values |
| Database.InsertedBookFound | src-tauri/src/db.rs:378-452 | the new book is found by its volume id and by its identifier under its type |
| Database.SameIdentifierTwiceFails | src-tauri/src/migrations.rs:68 | a second book with the same valid identifier is refused, on that identifier unless its own groups repeat |
| Database.Stage | src-tauri/src/db.rs:353-472 | the statements yield the error `InsertError` names, or the tables `Inserted` describes |
| Database.Catalog.InsertBook | src-tauri/src/db.rs:341-476 | an error leaves every table unchanged; success returns the volume id and commits the inserted tables; consistency is kept |
| Database.Catalog.Commit | src-tauri/src/db.rs:474 | the working copy becomes the tables |
| Database.IdentifierRule | src-tauri/src/db.rs:439-440 | 10 digits are tagged ISBN-10; another digit count fails; an empty identifier writes no row |
| Database.IntCellRoundTrip | src-tauri/src/db.rs:748 | an absent integer is the only empty cell, and a non-negative one reads back as itself |
| Database.IdentifierItems | src-tauri/src/db.rs:759-763 | one `type:identifier` item per identifier, in order |
| Database.Column.HeaderPosition | src-tauri/src/db.rs:646-678 | every fixed column has a position among the 31 headers |
| Database.FixedValues | src-tauri/src/db.rs:745-797 | 31 values, the j-th taken from the j-th record column |
| Database.FixedColumnsAlign | src-tauri/src/db.rs:646-678 | the j-th cell comes from the column named by the j-th header, and every column appears once |
| Database.ExportHeader | src-tauri/src/db.rs:646-684 | the header is the 31 fixed names followed by the custom-field names |
| Database.ExportRecord | src-tauri/src/db.rs:745-802 | a record is the 31 fixed values, then each custom field's value in header order, "" when missing |
| Database.RecordMatchesHeader | src-tauri/src/db.rs:680-802 | under each header sits the cell of that column, or the value of the custom field it names |
| Database.AuthorsCellRoundTrip | src-tauri/src/db.rs:749-753 | the authors cell joins the names in position order with "; " and splits back to them |
| Database.IdentifierCell | src-tauri/src/db.rs:759-763 | for a book with one identifier row, the identifiers cell is its type, a colon and the identifier |
| SettingsStore.Spread | src/lib/store.ts:30 | the keys of both objects, the later one winning |
| SettingsStore.Serialized | src/lib/store.ts:38 | the stored object drops exactly the `undefined` keys |
| SettingsStore.Loaded | src/lib/store.ts:25-31 | the defaults' keys and the stored ones; stored values win, the defaults fill the rest |
| SettingsStore.Saved | src/lib/store.ts:33-41 | the partial update wins over the stored object, which wins over the defaults |
| SettingsStore.LoadEmpty | src/lib/store.ts:29-30 | with nothing stored, loading gives the defaults |
| SettingsStore.SaveThenLoad | src/lib/store.ts:37-39 | a load after a save gives the defaults under what was stored; every defined update is read back |
| SettingsStore.SaveIdempotent | src/lib/store.ts:33-41 | saving the same update twice writes what saving it once wrote |
| SettingsStore.Store.constructor | src/lib/store.ts:16 | nothing is loaded yet |
| SettingsStore.Store.GetStore | src/lib/store.ts:18-23 | the first call loads the file; later calls reuse the store; the file is loaded exactly once |
| SettingsStore.Store.LoadSettings | src/lib/store.ts:25-31 | returns `Loaded` of the store's entries, loading the file at most once |
| SettingsStore.Store.SaveSettings | src/lib/store.ts:33-41 | returns the merged object and stores and saves its serialized form |
| SettingsStore.Store.ClearSettings | src/lib/store.ts:43-47 | the defaults are stored and saved |
| SettingsStore.Store.RemoveStoreFile | src/lib/store.ts:49-53 | every entry is dropped and the empty store saved |
| SettingsStore.ClearThenLoad | src/lib/store.ts:43-47 | a load after `clearSettings` gives exactly the defaults |
| SettingsStore.RemoveThenLoad | src/lib/store.ts:49-53 | a load after `removeStoreFile` gives the defaults |
| SettingsStore.LoadTwice | src/lib/store.ts:18-23 | two loads read the file once and return the same object |
| App.InitialTheme | src/App.tsx:40-43 | the saved theme unless nothing or `""` was saved, then `system` |
| App.CycleTheme | src/App.tsx:145-155 | always a known theme different from the current one |
| App.CycleOrder | src/App.tsx:146-154 | light→dark→system→light; anything else goes to light |
| App.CycleThree | src/App.tsx:145-155 | three presses return to the start iff it is light, dark or system |
| App.DarkClass | src/App.tsx:59-69 | the dark class iff the theme is dark, or system with an OS preference for dark |
| App.ThemeIcon | src/App.tsx:157-165 | the sun iff light, the moon iff dark |
| App.SystemIconIgnoresPreference | src/App.tsx:61-65 | under `system` the icon is the monitor whatever the OS prefers, while the dark class follows the OS |
| App.Truthy | src/App.tsx:79 | a setting is truthy exactly when it is present and `true` or a non-empty text; `false`, `""`, `undefined` and a missing key are falsy |
| App.SavedSoundSettingHonoured | src/App.tsx:77-91 | after a save, a sound plays exactly when its saved value is `true` or a non-empty text, so a saved `false` silences it |
| App.SoundsOnByDefault | src/App.tsx:78-80 | with nothing saved, both sounds play |
| App.Shell.constructor | src/App.tsx:36-48 | the initial theme, written back and applied; the dialogs closed and nothing recorded |
| App.Shell.CycleThemeButton | src/App.tsx:145-155 | the theme cycles, is saved and applied |
| App.Shell.ToggleEditMode | src/App.tsx:128-130 | edit mode flips |
| App.Shell.OpenAddDialog | src/App.tsx:106-108 | `addOpen` flips |
| App.Shell.CloseAddDialog | src/App.tsx:236 | the add dialog closes |
| App.Shell.ErrorToastAdd | src/App.tsx:94-97 | records the identifier and flips `addOpen` |
| App.Shell.PossibleComicFound | src/App.tsx:50-53 | the event's book awaits a number |
| App.Shell.CloseBookNumber | src/App.tsx:256-259 | no book awaits a number |
| App.Shell.HandleAddBook | src/App.tsx:110-118 | `add_book` gets the payload and the recorded identifier; only success clears it, and a failure propagates |
| App.Shell.HandleSetBookNumber | src/App.tsx:120-126 | `set_book_number` gets its arguments; only success closes the number dialog |
| App.CycleThemeThrice | src/App.tsx:145-155 | three presses restore a known theme and its dark class |
| App.RetryAfterFailure | src/App.tsx:110-118 | a failed add keeps the identifier, so the retry sends the same one and then clears it |

## Left out

- App.Shell.CloseBookNumber: the `emit("book-updated")` of the number dialog's `onClose` (src/App.tsx:256-259) is not modelled; the event bus and its listeners are not part of this model.
- I/O and the platform: the SQLite engine and the SQL text, the CSV writer's
  quoting, file creation and thumbnail copying, toasts, audio,
  `localStorage`, the DOM class list, focus and blur of inputs, and the
  window event registrations. Each becomes a parameter or a field of the
  model, or is not modelled.
- Time and asynchrony: `performance.now()` is an integer argument, a
  promise is an `Outcome` argument, and the interval callback is not
  scheduled. Interleavings of concurrent handlers are not modelled.
- `isPossibleIdentifier`: its body is not in the modelled files, so the
  poller carries it as an arbitrary predicate.
- The join queries of the export (authors by position, categories,
  identifiers, groups, custom values) are inputs of a record. `ORDER BY
  title` and `ORDER BY name` fix only the order in which rows and custom
  columns come, and the model takes that order as given.
- `insert_book`'s UUID is a parameter. Rust's `HashMap` iteration order for
  the custom fields is unspecified; the model visits them in any order.
- The schema of the groups and custom-field tables comes from a migration
  that is not part of this model. Their uniqueness and references are
  assumed to be those of `book_authors`: `book_groups` is keyed by
  `(volume_id, group_id)`, so a repeated group fails the insert, and
  `book_custom_fields` by `(volume_id, field_id)`, which a map of custom
  fields cannot repeat.
- App.Shell.ErrorToastAdd: flips the current `addOpen`. The source negates
  the value captured when the toast was shown, which differs only when the
  dialog was toggled in between.
- Unicode: `trim`, `toLowerCase`, `char::is_numeric` and byte-length
  `String::len` are modelled on ASCII only.
- Database.Catalog.InsertBook: `number` is an `int`, not Rust's `i64`,
  because no operation of the model does arithmetic on it.
- DetailsDialog.Dialog.EditNumber: `parseInt` results are unbounded
  integers or NaN; JavaScript's floating-point range and `-0` are not
  modelled.
- Rendering and the files around the core: the JSX,
  `BookGrid`, `PillNav`, `SearchBox`, `SettingsDialog` and
  `BookNumberDialog`, the Tauri commands and plugins, and the Google Books
  client.
- The other functions of `db.rs` (`fetch_all_books`, `get_book`,
  `update_book`, `find_comic_by_ean`, `clone_book`, `set_book_groups` and
  the small queries) are not part of this model.
- App's `handleSelect`, `openSettingsDialog` and `openExportDialog` only
  open dialogs or show toasts, and are not modelled.
- The callbacks of the clipboard and keystroke listeners are reports of
  the model (`Report`, `Effects`). What App does with them, beyond the
  sound setting, is not modelled.
