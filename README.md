# Notebooks and notes: storage backends and client state, in Dafny

This project models the core of a note-taking application: notebooks that hold notes whose
content is rich-text HTML. The application runs in a browser, as a desktop app, or against a
hosted Supabase project. It stores the same two record types through three backends that
promise the same contract:

- **IndexedDB through Dexie.** The browser backend of `lib/storage-unified.ts`. Modelled as the
  class `LocalStore.Database`.
- **SQLite through better-sqlite3.** The desktop backend, in the IPC handlers of `electron/main.ts`.
  Modelled as `DesktopStore.SqliteDatabase`, together with the `app://` protocol handler.
- **Supabase (PostgREST and a storage bucket).** The hosted backend of `lib/supabase-storage.ts`.
  Modelled as `CloudStore.Project`.

Three routing layers decide which backend serves a call, and the model covers each of them
(`Dispatch`):

- `lib/supabase.ts` decides whether the hosted backend is configured.
- `lib/storage-unified.ts` sends calls to SQLite when the Electron bridge is present, and to
  IndexedDB otherwise.
- `lib/storage-adapter.ts` puts the hosted backend in front of the unified layer.

On top of storage sit the client's state machines, each modelled as a class whose fields are
the component's state:

- the global selection store (`AppStore`);
- the note editor with its debounced auto-save (`NoteEditor`);
- the search dialog with its debounced query (`SearchDialog`);
- the notebook and note lists, and the notebook form (`NotebookList`, `NoteList`, `NotebookForm`);
- the editor's drop and paste handlers, and the toolbar's image upload (`EditorView`, `EditorToolbar`);
- the local-mode banner (`StorageBanner`);
- the date and title rules of a list entry (`NoteItem`).

Design decisions that shape the model:

- **Clock and ids are parameters.** Clock readings (`new Date()`, `Date.now()`), fresh ids
  (`crypto.randomUUID()`), the user's answer to `confirm`, and the outcome of a remote request
  or a transaction are all parameters of the operations.
- **Stores.** Each backend keeps its tables as `map<Id, …>` fields that the methods reassign.
- **Ordered queries.** `ORDER BY updatedAt DESC` and Dexie's reversed `sortBy` are modelled as
  choosing any enumeration of the selected rows whose stamps never increase (`Ordering`), since
  rows with equal stamps may come back in any order.
- **Timers.** A debounce timer is an explicit handle in a map of pending callbacks (`NoteEditor`),
  or a single scheduled slot plus a list of requests in flight (`SearchDialog`). The firing of a
  timer and the answer to a request are separate steps the environment chooses.
- **Awaits split handlers.** A handler that awaits the network is split at the `await` into a
  begin step and a finish step (`NotebookForm.Form`, `EditorToolbar.Toolbar`).
- **Which store the UI writes to.** The UI handlers that write through `lib/storage` are modelled
  against the browser store. In the desktop app the same calls go to SQLite, whose methods have
  the same shape and are specified in `DesktopStore`.

The model follows the code in three respects a reader might not expect:

- The document store's search returns notes in table order, not newest first.
- The empty query selects every note.
- The hooks' live queries read IndexedDB even inside the desktop app.

The places where the backends or the handlers do not keep their promises are stated as proved
lemmas:

- a comma in a hosted search query breaks the filter (`CloudStore.CommaBreaksFilter`);
- `_` is a wildcard in the SQLite search (`DesktopStore.UnderscoreQueryDiverges`);
- a capital outside ASCII defeats the SQLite search, because the query is folded by JavaScript
  and the columns by SQLite's ASCII-only `LOWER()` (`DesktopStore.AccentedCapitalDiverges`);
- a ')' in a hosted search query makes the server reject it (`CloudStore.ParenBreaksFilter`);
- `*` and the backslash are pattern syntax in the hosted search (`CloudStore.StarQueryDiverges`,
  `CloudStore.BackslashQueryDiverges`);
- the notebook edit dialog does not show the notebook's name, since the form reads its initial
  name only when it mounts (`NotebookList.Pane.StartEdit`);
- only the browser store moves a note to another notebook (`Agreement.OnlyTheBrowserStoreMovesNotes`);
- a title edit is lost when the user switches notes within the debounce delay
  (`NoteEditor.EditOnOtherNoteCancelsSave`);
- stale search results appear after the query is cleared (`SearchDialog.ClearedQueryCanShowResults`);
- the banner reports the browser store inside the desktop app (`Dispatch.BackendNameMisreportsDesktop`).

## Model

| member | source | states |
|---|---|---|
| Records.ContentOrEmpty | lib/storage-unified.ts:87-96 | `content \|\| ""`: the stored content is "" exactly when the content is omitted or empty; any other content is kept as given |
| Records.NotesOutside | electron/main.ts:205-219 | the first statement of the cascade: exactly the notes of other notebooks remain, unchanged, and the deleted notebook has no notes left |
| Records.CascadeKeepsNoOrphans | electron/main.ts:62-83 | deleting a notebook together with its notes keeps every remaining note attached to a stored notebook |
| Records.EmptyQueryMatchesAll | lib/storage-unified.ts:146-151 | `includes("")` holds of every text, so the empty query matches every note |
| Records.PickNotebooksOrdered | lib/storage-unified.ts:39-45 | reading the rows of an ordered selection yields each selected notebook exactly once, as stored, newest first |
| Records.PickNotesOrdered | lib/storage-unified.ts:100-110 | reading the rows of an ordered selection yields each selected note exactly once, as stored, newest first |
| Records.FilterMatching | lib/storage-unified.ts:146-151 | JavaScript's `filter`: the result is a subsequence of the input, in the input's order, holding only matching notes and every matching note of the input |
| Records.FilterCounts | lib/storage-unified.ts:146-151 | filtering keeps each matching note as many times as the input holds it, and no other note |
| Records.FilterKeepsOrder | lib/storage-unified.ts:146-151 | filtering keeps the input's order: the filter of a concatenation is the concatenation of the filters |
| Records.FilterDistinct | lib/storage-unified.ts:146-151 | filtering a list whose note ids are distinct keeps them distinct |
| Records.FilterLists | lib/storage-unified.ts:144-151 | filtering a listing of the whole table lists exactly the matching notes, each once |
| Ordering.Arrange | lib/storage-unified.ts:39-45 | for any finite selection and stamps, an enumeration ordered newest first exists, so every ordered query can answer |
| Ordering.NewestExists | lib/storage-unified.ts:39-45 | a non-empty selection has a newest key |
| Ordering.PrependNewest | lib/storage-unified.ts:39-45 | putting the newest key in front of an ordered selection of the rest orders the whole selection |
| Text.Lower | electron/main.ts:303-306 | SQLite's `LOWER()`: same length, each ASCII capital folded and every other character kept |
| Text.LowerIdempotent | electron/main.ts:299-311 | folding an already folded text changes nothing |
| Text.Fold | lib/storage-unified.ts:144-151 | `toLowerCase()`: same length, each character folded on its own, ASCII and Latin-1 capitals included |
| Text.FoldIdempotent | electron/main.ts:99-111 | folding an already folded text changes nothing |
| Text.LowerOfFold | electron/main.ts:299-311 | `LOWER()` leaves a text folded by `toLowerCase()` unchanged |
| Text.FoldsAgree | electron/main.ts:299-311 | the two folds agree on a text exactly when it holds no capital outside ASCII |
| Text.ContainsIffOccurs | lib/storage-unified.ts:148-151 | `includes` holds exactly when the query occurs at some position of the text |
| Text.LikeSubstring | electron/main.ts:299-311 | SQLite's `LIKE '%q%'` with q free of `%` and `_` is exactly a substring test up to the case of ASCII letters |
| Text.LikePrefix | electron/main.ts:299-311 | SQLite's `LIKE 'q%'` with q free of wildcards holds exactly when the text starts with q up to the case of ASCII letters |
| Text.UnderscoreIsWildcard | electron/main.ts:303-306 | `%_%` matches "a" although "a" does not contain "_" |
| Text.PgLikePrefix | lib/supabase-storage.ts:233 | PostgreSQL's `LIKE 'q%'` with q free of `%`, `_` and backslash holds exactly when the text starts with q |
| Text.PgLikeSubstring | lib/supabase-storage.ts:233 | PostgreSQL's `LIKE '%q%'` with q free of `%`, `_` and backslash is exactly a substring test |
| Text.BackslashEscapes | lib/supabase-storage.ts:233 | PostgreSQL's `%a\b%` matches "ab", which does not contain the query |
| Text.ILikeSubstring | lib/supabase-storage.ts:233 | `ILIKE '%q%'` with q free of `%`, `_` and backslash is a substring test on the texts folded by `toLowerCase()` |
| Text.Trim | components/notebook/NotebookForm.tsx:35-38 | `trim()`: empty exactly when the input is blank, otherwise no white space at either end |
| Text.TrimStrips | components/notebook/NotebookForm.tsx:35-38 | what `trim()` keeps is a contiguous run of the input with only white space before and after it |
| Text.JoinSplit | lib/supabase-storage.ts:280-281 | joining the pieces of a split gives back the original string |
| Text.SplitJoin | lib/supabase-storage.ts:233 | splitting a join of separator-free pieces gives back the pieces |
| Text.LastSegment | lib/supabase-storage.ts:255 | `split(c).pop()`: the text after the last separator, or the whole string when it has none; it never holds the separator |
| Text.LastPartIsTail | lib/supabase-storage.ts:280-281 | the last piece of a split is the tail after the last separator |
| LocalStore.SpreadNote | lib/storage-unified.ts:120-129 | `{...data, updatedAt}`: the id and creation time are kept, the update time is stamped, and every key absent from the update keeps its stored value |
| LocalStore.SpreadNoteWrites | lib/storage-unified.ts:120-129 | every key present in the update, the notebook included, is written to the note |
| LocalStore.SpreadNoteIdempotent | lib/storage-unified.ts:120-129 | applying the same update twice at the same instant is the same as applying it once |
| LocalStore.SpreadNotebook | lib/storage-unified.ts:55-67 | a notebook update keeps the id and creation time, stamps the update time, and keeps the name when none is given |
| LocalStore.Database.constructor | lib/db.ts:7-22 | a new database has both tables empty and satisfies the table invariant |
| LocalStore.Database.CreateNotebook | lib/storage-unified.ts:21-37 | a fresh id adds exactly the notebook with the given name and two clock readings; a taken id is a constraint error and changes nothing; the notes are untouched |
| LocalStore.Database.GetAllNotebooks | lib/storage-unified.ts:39-45 | every stored notebook once, as stored, newest first |
| LocalStore.Database.GetNotebook | lib/storage-unified.ts:47-53 | the stored notebook under that id, or nothing exactly when there is none |
| LocalStore.Database.UpdateNotebook | lib/storage-unified.ts:55-67 | the stored notebook is replaced by the spread update and becomes the newest; a missing id changes nothing and is not an error |
| LocalStore.Database.DeleteNotebook | lib/storage-unified.ts:69-78 | a committed transaction removes the notebook and exactly its notes; an aborted one changes neither table |
| LocalStore.Database.CreateNote | lib/storage-unified.ts:82-98 | a fresh id adds exactly the note with content `content \|\| ""` and two clock readings; a taken id is a constraint error; the notebook is not checked |
| LocalStore.Database.GetNotesByNotebook | lib/storage-unified.ts:100-110 | exactly the notes of that notebook, each once, as stored, newest first |
| LocalStore.Database.GetNote | lib/storage-unified.ts:112-118 | the stored note under that id, or nothing exactly when there is none |
| LocalStore.Database.UpdateNote | lib/storage-unified.ts:120-129 | the stored note is replaced by the spread update, so a given notebook moves it, and it becomes the newest note; a missing id changes nothing |
| LocalStore.Database.DeleteNote | lib/storage-unified.ts:131-137 | exactly that note is removed; a missing id is not an error |
| LocalStore.Database.SearchNotes | lib/storage-unified.ts:139-152 | exactly the notes whose folded title or content contains the folded query, each once, in no promised order |
| LocalStore.EmptySearchSelectsAll | lib/storage-unified.ts:146-151 | the empty query selects every note of the table |
| DesktopStore.CoalesceNotebook | electron/main.ts:194-203 | `COALESCE(?, name)`: a given name replaces the stored one, an absent one keeps it; the update time is stamped |
| DesktopStore.CoalesceNote | electron/main.ts:283-292 | only title and content are bound: a given value replaces the stored one, an absent one keeps it, and the notebook never changes |
| DesktopStore.SqlMatchesFolded | electron/main.ts:299-311 | for a query without `%` or `_`, the LIKE search tests whether the JavaScript-folded query occurs in the SQLite-folded title or content |
| DesktopStore.SqlMatchesIsSubstring | electron/main.ts:299-311 | for a query without `%` or `_` and a note without capitals outside ASCII, the LIKE search is the document store's substring search |
| DesktopStore.LikeNotesAgree | electron/main.ts:299-311 | for such a query over such notes both backends select the same notes |
| DesktopStore.UnderscoreQueryDiverges | electron/main.ts:299-311 | the query "_" selects a note titled "a" that the substring search rejects |
| DesktopStore.AccentedCapitalDiverges | electron/main.ts:299-311 | a note titled "\u00C9lan" is not found by its own title, while the substring search finds it |
| DesktopStore.SqliteDatabase.constructor | electron/main.ts:62-83 | the schema: both tables empty, records keyed by id, every note in a stored notebook |
| DesktopStore.SqliteDatabase.CreateNotebook | electron/main.ts:150-168 | a fresh id inserts exactly the notebook with two clock readings; a taken id is a constraint error and changes nothing |
| DesktopStore.SqliteDatabase.GetAllNotebooks | electron/main.ts:170-179 | every stored notebook once, newest first |
| DesktopStore.SqliteDatabase.GetNotebook | electron/main.ts:181-192 | the stored notebook under that id, or nothing exactly when there is none |
| DesktopStore.SqliteDatabase.UpdateNotebook | electron/main.ts:194-203 | the coalesced update replaces the stored notebook; a missing id changes nothing |
| DesktopStore.SqliteDatabase.DeleteNotebook | electron/main.ts:205-219 | a committed transaction removes the notebook and exactly its notes; a failed statement or commit rolls back both tables and reports the error |
| DesktopStore.SqliteDatabase.CreateNote | electron/main.ts:222-255 | the insert fails exactly when the id is taken or the notebook is not stored, and then changes nothing; otherwise it adds exactly the note with content `content \|\| ""` |
| DesktopStore.SqliteDatabase.GetNotesByNotebook | electron/main.ts:257-268 | exactly the notes of that notebook, each once, newest first |
| DesktopStore.SqliteDatabase.GetNote | electron/main.ts:270-281 | the stored note under that id, or nothing exactly when there is none |
| DesktopStore.SqliteDatabase.UpdateNote | electron/main.ts:283-292 | the coalesced update replaces the stored note and keeps its notebook; a missing id changes nothing |
| DesktopStore.SqliteDatabase.DeleteNote | electron/main.ts:294-297 | exactly that note is removed |
| DesktopStore.SqliteDatabase.SearchNotes | electron/main.ts:299-311 | exactly the LIKE matches, each once, newest first; for a query without wildcards over notes without capitals outside ASCII, exactly the substring matches |
| DesktopStore.ContentType | electron/main.ts:99-111 | the content type of the `toLowerCase()`-folded extension from the table, or `application/octet-stream` |
| DesktopStore.ContentTypeIgnoresCase | electron/main.ts:99-111 | the lookup gives the same answer for an extension and its folded form |
| DesktopStore.ContentTypeDefault | electron/main.ts:100-111 | the default is returned exactly for extensions missing from the table |
| DesktopStore.ServeAsset | electron/main.ts:91-120 | a readable file is served with status 200, its bytes and its content type; an unreadable one gives 404 "Not found" with no content type set |
| CloudStore.NotebookOf | lib/supabase-storage.ts:35-40 | a row becomes a notebook with the same id, name and timestamps; the colour is dropped |
| CloudStore.NoteOf | lib/supabase-storage.ts:131-141 | a row becomes a note with the same id, notebook, title, content and timestamps |
| CloudStore.NoteRowRoundTrip | lib/supabase-storage.ts:131-141 | reading a note row loses nothing: rows and notes correspond one to one |
| CloudStore.NotebooksView | lib/supabase-storage.ts:46-61 | the client's view of the notebooks table has the same keys, each row mapped to its notebook |
| CloudStore.NotesView | lib/supabase-storage.ts:147-165 | the client's view of the notes table has the same keys, each row mapped to its note |
| CloudStore.SingleOrNull | lib/supabase-storage.ts:66-85 | a `.single()` answer: a row is returned, `PGRST116` becomes null, and any other error is thrown unchanged |
| CloudStore.PatchNoteEffect | lib/supabase-storage.ts:196-215 | a note update replaces the given title and content, stamps the update time, and keeps the id, notebook and creation time |
| CloudStore.PatchNotebookEffect | lib/supabase-storage.ts:90-103 | a notebook update replaces a given name, stamps the update time, and keeps the colour and the rest |
| CloudStore.ParseCondition | lib/supabase-storage.ts:233 | a parsed condition's pattern is a suffix of its piece of the filter |
| CloudStore.ParseConditions | lib/supabase-storage.ts:233 | a parsed list has one condition per piece, each the parse of its piece |
| CloudStore.ParseOrFilter | lib/supabase-storage.ts:233 | a filter holding `)` is rejected with the PostgREST parse error, and so is one with a piece that is not a condition |
| CloudStore.SearchFilterReadsBack | lib/supabase-storage.ts:233 | the server reads back the two intended conditions exactly when the query holds no comma and no `)` |
| CloudStore.ParsedPatternsCommaFree | lib/supabase-storage.ts:233 | no pattern the server reads holds a comma |
| CloudStore.CommaBreaksFilter | lib/supabase-storage.ts:233 | a query holding a comma never yields the intended conditions |
| CloudStore.ParenBreaksFilter | lib/supabase-storage.ts:233 | a query holding `)` makes the server reject the search |
| CloudStore.Starred | lib/supabase-storage.ts:233 | PostgREST's reading of `*` in a LIKE pattern: each `*` becomes `%`, every other character is kept |
| CloudStore.SearchSelectsMatches | lib/supabase-storage.ts:229-247 | for a query without `%`, `_`, backslash, `*`, comma or `)`, the intended filter selects exactly the notes the substring search selects |
| CloudStore.StarSelectsEveryNote | lib/supabase-storage.ts:229-247 | the query "*" is read back as sent and selects every note |
| CloudStore.StarQueryDiverges | lib/supabase-storage.ts:229-247 | so the search for "*" selects a note titled "a", which the substring search rejects |
| CloudStore.BackslashQueryDiverges | lib/supabase-storage.ts:229-247 | the query `a\b` is read back as sent and selects a note titled "ab", which the substring search rejects |
| CloudStore.Extension | lib/supabase-storage.ts:255 | the text after the last dot, or the whole name without a dot; it never holds a dot and the name is rebuilt from it |
| CloudStore.ObjectKey | lib/supabase-storage.ts:256-257 | `uuid.ext`, with no '/' when the uuid and the name have none |
| CloudStore.ImageKey | lib/supabase-storage.ts:279-281 | the last '/'-separated piece of the URL's pathname, which holds no '/' |
| CloudStore.ImageKeyRoundTrip | lib/supabase-storage.ts:269-281 | the key read back from a public URL is the key uploaded |
| CloudStore.UploadThenDelete | lib/supabase-storage.ts:254-288 | deleting by the URL an upload returned removes exactly the uploaded object |
| CloudStore.Project.constructor | types/supabase.ts:11-63 | an empty project satisfies the row invariant |
| CloudStore.Project.CreateNotebook | lib/supabase-storage.ts:20-41 | a failed request is thrown and changes nothing; otherwise exactly the row with the default colour and server timestamps is inserted, and the notebook is returned |
| CloudStore.Project.GetAllNotebooks | lib/supabase-storage.ts:46-61 | every notebook once, newest first, or the request's error |
| CloudStore.Project.GetNotebook | lib/supabase-storage.ts:66-85 | the notebook of that id, null exactly when there is no such row, or the error |
| CloudStore.Project.UpdateNotebook | lib/supabase-storage.ts:90-103 | the row is patched with the given name and the update time; a missing row is not an error; a failure changes nothing |
| CloudStore.Project.DeleteNotebook | lib/supabase-storage.ts:108-113 | the row is removed and the foreign key's cascade removes exactly its notes; a failure changes nothing |
| CloudStore.Project.CreateNote | lib/supabase-storage.ts:120-142 | the insert fails exactly when the id is taken or the notebook is missing; otherwise exactly the note with content `content \|\| ""` is added |
| CloudStore.Project.GetNotesByNotebook | lib/supabase-storage.ts:147-165 | exactly the notebook's notes, each once, newest first, or the error |
| CloudStore.Project.GetNote | lib/supabase-storage.ts:170-191 | the note of that id, null exactly when there is no such row, or the error |
| CloudStore.Project.UpdateNote | lib/supabase-storage.ts:196-215 | the row is patched with the given fields and the update time, never with a notebook; a failure changes nothing |
| CloudStore.Project.DeleteNote | lib/supabase-storage.ts:220-224 | exactly that row is removed; a failure changes nothing |
| CloudStore.Project.SearchNotes | lib/supabase-storage.ts:229-247 | the request succeeds exactly when the filter parses; results are newest first and exactly the notes the parsed conditions select; for a query without `%`, `_`, backslash, `*`, comma or `)` they are exactly the matching notes |
| CloudStore.Project.UploadImage | lib/supabase-storage.ts:254-272 | the object is stored under `uuid.ext` unless that key is taken, and its public URL is returned; a failure changes nothing |
| CloudStore.Project.DeleteImage | lib/supabase-storage.ts:277-288 | the object named by the URL's last path piece is removed; a failure changes nothing |
| Dispatch.UnifiedBackend | lib/storage-unified.ts:15-17 | SQLite exactly when the Electron bridge is present, and never the hosted backend |
| Dispatch.AdapterBackend | lib/storage-adapter.ts:20-102 | the hosted backend exactly when it is configured, the unified layer's backend otherwise |
| Dispatch.WritesVisibleToListsIffWeb | hooks/useNotes.ts:12-34 | what the hooks write through lib/storage is what their live queries read exactly outside Electron |
| Dispatch.SearchSeesEditsIffNotConfigured | lib/storage-adapter.ts:97-102 | search reaches the store the editor saves to exactly when the hosted backend is not configured |
| Dispatch.StorageBackendName | lib/storage-adapter.ts:144-146 | the adapter's backend name is "supabase" or "indexeddb", never SQLite |
| Dispatch.BackendNameMisreportsDesktop | lib/storage-adapter.ts:144-146 | the name says "indexeddb" exactly when the hosted backend is unused, including the desktop app, where SQLite serves |
| Dispatch.StorageType | lib/storage-unified.ts:156-158 | "electron" exactly when the unified layer uses SQLite, "web" exactly when it uses IndexedDB |
| Dispatch.DbPath | lib/storage-unified.ts:160-165 | the main process's path exactly inside Electron, null in a browser |
| Dispatch.DbPathFollowsStorageType | lib/storage-unified.ts:156-165 | a path is reported exactly when `getStorageType()` is "electron", and none exactly when it is "web" |
| Dispatch.AdapterUpload | lib/storage-adapter.ts:106-133 | when configured, the hosted URL, or one fixed message for any failure; otherwise the reader's data URL |
| Dispatch.DataUrl | lib/storage-adapter.ts:125-132 | a file read by `readAsDataURL` is a `data:` URL |
| Dispatch.DataUrlsStayLocal | lib/storage-adapter.ts:135-141 | deleting a data URL never reaches the bucket, whatever the configuration |
| Dispatch.UnconfiguredUploadsStayLocal | lib/storage-adapter.ts:106-141 | without configuration the upload is exactly what the `FileReader` produced, its error included, and no image it produced is deleted remotely |
| Agreement.NoteUpdatesAgree | lib/storage-unified.ts:120-129 | an update that names no notebook has the same effect on the browser store, SQLite and the hosted rows |
| Agreement.OnlyTheBrowserStoreMovesNotes | electron/main.ts:283-292 | an update naming another notebook moves the note in the browser store only |
| Agreement.NotebookUpdatesAgree | lib/supabase-storage.ts:90-103 | renaming a notebook has the same effect on every backend, colour aside |
| Agreement.SearchesAgree | lib/supabase-storage.ts:229-247 | for a query without `%`, `_`, backslash, `*`, comma or `)`, the substring search and the hosted filter select the same notes, and SQLite does too when no note has a capital outside ASCII |
| AppStore.SelectNotebook | store/store.ts:11 | selecting a notebook sets it and clears the active note |
| AppStore.SelectNote | store/store.ts:12 | selecting a note sets it and keeps the active notebook |
| AppStore.SelectionOrderMatters | store/store.ts:11-12 | notebook then note leaves both set; note then notebook loses the note |
| AppStore.ReselectClearsNote | store/store.ts:11 | selecting the active notebook again still clears the active note |
| AppStore.Store.constructor | store/store.ts:9-10 | the store starts with nothing selected |
| AppStore.Store.SetActiveNotebook | store/store.ts:11 | the new selection is `SelectNotebook` of the old one |
| AppStore.Store.SetActiveNote | store/store.ts:12 | the new selection is `SelectNote` of the old one |
| NoteEditor.SaveData | components/layout/NoteEditor.tsx:39-40 | the save of one field carries that field's value only, and never a notebook |
| NoteEditor.MountedConsistent | components/layout/NoteEditor.tsx:12-18 | the mounted editor has no timers and satisfies the timer invariant |
| NoteEditor.OnePendingSavePerField | components/layout/NoteEditor.tsx:34-37 | at most one save per field is ever pending |
| NoteEditor.Retyped | components/layout/NoteEditor.tsx:30-74 | a keystroke shows the value; with a note active it cancels that field's pending save and schedules one carrying the note and value `SaveDelay` later; other timers and the other field are untouched |
| NoteEditor.Fired | components/layout/NoteEditor.tsx:37-47 | a firing save appends exactly one save of that field's value to the note captured at the keystroke, and sets the saving flag by its outcome; a clear timer resets it; other timers are kept |
| NoteEditor.Loaded | components/layout/NoteEditor.tsx:20-28 | the load effect shows the note's title and content, or empty text without a note, and touches no timer |
| NoteEditor.Selected | components/layout/NoteEditor.tsx:20-28 | switching the active note keeps every pending timer and the shown text |
| NoteEditor.TypedAll | components/layout/NoteEditor.tsx:30-74 | a burst of keystrokes keeps the timer invariant |
| NoteEditor.BurstLeavesOneSave | components/layout/NoteEditor.tsx:30-51 | after a burst on one field exactly one save is pending for it, carrying the last value, and nothing was sent yet |
| NoteEditor.BurstSendsLastValue | components/layout/NoteEditor.tsx:37-47 | when the timer of a burst fires, the one save sent carries the last value typed |
| NoteEditor.SaveTargetsNoteOfKeystroke | components/layout/NoteEditor.tsx:37-40 | a save reaches the note active at the keystroke, even after another note was selected |
| NoteEditor.EditOnOtherNoteCancelsSave | components/layout/NoteEditor.tsx:34 | a title edit on note a followed within the delay by one on note b cancels a's save: nothing is sent and the only pending title save is b's |
| NoteEditor.ScreenOf | components/layout/NoteEditor.tsx:76-108 | the placeholder exactly without an active note, the loading state exactly while the note is missing, otherwise the editor with the state's text and saving flag |
| NoteEditor.Pane.constructor | components/layout/NoteEditor.tsx:12-18 | the mounted pane's state is `Mounted` |
| NoteEditor.Pane.Change | components/layout/NoteEditor.tsx:30-74 | the pane's new state is `Retyped` of the old one, and the invariant holds |
| NoteEditor.Pane.HandleTitleChange | components/layout/NoteEditor.tsx:30-51 | the new state is `Retyped` on the title |
| NoteEditor.Pane.HandleContentChange | components/layout/NoteEditor.tsx:53-74 | the new state is `Retyped` on the content |
| NoteEditor.Pane.RunTimer | components/layout/NoteEditor.tsx:37-47 | the new state is `Fired` of the old one |
| NoteEditor.Pane.NoteChanged | components/layout/NoteEditor.tsx:20-28 | the new state is `Loaded` of the old one |
| NoteEditor.Pane.ActiveNoteChanged | components/layout/NoteEditor.tsx:20-28 | the new state is `Selected` of the old one |
| SearchDialog.Typed | components/search/SearchDialog.tsx:28-47 | the same query changes nothing; a blank one clears the results and schedules nothing; any other schedules exactly that query and replaces any earlier schedule |
| SearchDialog.Fire | components/search/SearchDialog.tsx:34-45 | the scheduled query is sent, loading starts, and nothing stays scheduled |
| SearchDialog.Answered | components/search/SearchDialog.tsx:36-44 | an answer ends loading and shows its notes, or none on an error; the request leaves the in-flight list |
| SearchDialog.FiredSearchIsCurrent | components/search/SearchDialog.tsx:34-45 | a request that is sent carries the query shown, which is not blank |
| SearchDialog.BurstSchedulesLast | components/search/SearchDialog.tsx:28-47 | after a burst of typing only the last query is scheduled and nothing more is in flight |
| SearchDialog.TypedAllKeepsFlight | components/search/SearchDialog.tsx:28-47 | typing sends nothing |
| SearchDialog.TypedAllQuery | components/search/SearchDialog.tsx:28-47 | after a burst the dialog shows the last query typed |
| SearchDialog.ClearedQueryCanShowResults | components/search/SearchDialog.tsx:29-47 | a request in flight when the query is cleared still lands, showing results under an empty query |
| SearchDialog.BodyOf | components/search/SearchDialog.tsx:103-150 | the spinner exactly while loading, "no results" exactly for a loaded non-empty query without results, the list exactly for loaded results, the prompt exactly for the empty query |
| SearchDialog.PromptAndListTogether | components/search/SearchDialog.tsx:103-150 | after such a late answer the prompt and a result list are shown together |
| SearchDialog.Dialog.constructor | components/search/SearchDialog.tsx:23-26 | the dialog starts with an empty query, no results and nothing pending |
| SearchDialog.Dialog.ChangeQuery | components/search/SearchDialog.tsx:28-47 | the new state is `Typed` of the old one |
| SearchDialog.Dialog.TimerFires | components/search/SearchDialog.tsx:34-45 | the new state is `Fire` of the old one, and the query sent is the one scheduled |
| SearchDialog.Dialog.SearchAnswered | components/search/SearchDialog.tsx:36-44 | the new state is `Answered` of the old one |
| SearchDialog.Dialog.SelectNote | components/search/SearchDialog.tsx:50-55 | the note's notebook and the note become active, the dialog closes, and the query is cleared |
| NoteList.NewNoteData | components/note/NoteList.tsx:14-23 | a new note is "Untitled Note" with empty content, in the given notebook |
| NoteList.HandleCreateNote | components/note/NoteList.tsx:14-23 | nothing without an active notebook; otherwise an untitled empty note in it that becomes the active note; a failed create keeps the selection |
| NoteList.HandleDeleteNote | components/note/NoteList.tsx:25-32 | nothing unless confirmed; then the note is deleted, and the active note is cleared exactly when it was the deleted one |
| NotebookList.HeadOfListingIsNewest | components/notebook/NotebookList.tsx:26-30 | the first notebook of the newest-first listing is a most recently updated one |
| NotebookList.Pane.constructor | components/notebook/NotebookList.tsx:19-23 | no form is open; the edit form is created with the empty name, since no notebook is being edited when it mounts |
| NotebookList.Pane.AutoSelect | components/notebook/NotebookList.tsx:26-30 | with notebooks stored and none active, a most recently updated one becomes active and the note is cleared; otherwise the selection is kept |
| NotebookList.Pane.Click | components/notebook/NotebookList.tsx:84 | the clicked notebook becomes active and the note is cleared |
| NotebookList.Pane.StartEdit | components/notebook/NotebookList.tsx:85-109 | the edit dialog opens on that notebook, but its text field keeps the name it held before, at first "", because the form reads `initialName` only when it mounts |
| NotebookList.Pane.HandleCreate | components/notebook/NotebookList.tsx:32-35 | a created notebook becomes active with no note; a failed create keeps the selection |
| NotebookList.Pane.HandleEdit | components/notebook/NotebookList.tsx:37-41 | without a target nothing happens; otherwise the target is renamed and the edit dialog closes, keeping its text |
| NotebookList.Pane.HandleDelete | components/notebook/NotebookList.tsx:43-50 | nothing unless confirmed; a committed delete removes the notebook and its notes and clears the selection exactly when it was active |
| NotebookForm.SubmitDisabled | components/notebook/NotebookForm.tsx:82 | the button is disabled exactly for a blank name or while submitting |
| NotebookForm.EnabledButtonSubmits | components/notebook/NotebookForm.tsx:33-47 | an enabled button always leads to a submission of a non-empty trimmed name |
| NotebookForm.Form.constructor | components/notebook/NotebookForm.tsx:30-31 | the form starts with the initial name, not submitting |
| NotebookForm.Form.Type | components/notebook/NotebookForm.tsx:68 | typing replaces the name only |
| NotebookForm.Form.BeginSubmit | components/notebook/NotebookForm.tsx:33-40 | a blank name sends nothing and changes nothing; otherwise the trimmed name is sent and submitting starts |
| NotebookForm.Form.FinishSubmit | components/notebook/NotebookForm.tsx:40-46 | submitting ends; success clears the name and closes the form, failure keeps both |
| NoteItem.DiffDays | components/note/NoteItem.tsx:23-27 | whole days between the two instants, rounded down |
| NoteItem.FormOf | components/note/NoteItem.tsx:23-44 | time of day under one day apart, "Yesterday" under two, the weekday under seven, else month and day |
| NoteItem.FormIgnoresDirection | components/note/NoteItem.tsx:26-27 | a future date gets the form of the past date equally far away |
| NoteItem.FormMonotone | components/note/NoteItem.tsx:23-44 | a date farther away never gets a closer form |
| NoteItem.DisplayTitle | components/note/NoteItem.tsx:59 | the shown title is never empty: the note's own, or "Untitled Note" |
| EditorView.FirstDroppable | components/editor/Editor.tsx:280-341 | the first image file within 5 MiB at or after an index, and none before it |
| EditorView.HandleDrop | components/editor/Editor.tsx:280-341 | internal moves and empty drops are left alone; otherwise the first droppable file is uploaded, one alert per oversized image scanned before it, and the default is prevented once an image is seen |
| EditorView.FirstUsable | components/editor/Editor.tsx:342-403 | the first image item whose file can be read, and none before it |
| EditorView.HandlePaste | components/editor/Editor.tsx:342-403 | the first usable image decides: within 5 MiB it is uploaded, above it one alert and no upload; without one the paste is left alone |
| EditorView.OversizedImageDiffers | components/editor/Editor.tsx:280-403 | drop skips an oversized image and uploads the next one, paste stops at it |
| EditorView.ContentToPush | components/editor/Editor.tsx:410-414 | the prop is pushed exactly when it differs from the editor's HTML |
| EditorView.ContentSyncSettles | components/editor/Editor.tsx:410-414 | once the editor shows the content, pushed or already there, the next run pushes nothing, and a push never repeats the editor's own HTML |
| EditorToolbar.ToolbarStricterThanDrop | components/editor/EditorToolbar.tsx:41-50 | every file the toolbar accepts the drop handler accepts too, but not conversely |
| EditorToolbar.Toolbar.constructor | components/editor/EditorToolbar.tsx:34 | not uploading, nothing inserted |
| EditorToolbar.Toolbar.BeginUpload | components/editor/EditorToolbar.tsx:36-57 | a file is accepted exactly when it is an `image/` type within 5 MiB; a rejection raises its own alert and stops |
| EditorToolbar.Toolbar.FinishUpload | components/editor/EditorToolbar.tsx:52-66 | uploading ends and the input resets; a success inserts the URL, a failure raises the alert |
| StorageBanner.Banner.constructor | components/ui/storage-banner.tsx:8-9 | hidden before mounting |
| StorageBanner.Banner.Mount | components/ui/storage-banner.tsx:11-18 | the backend name is taken from the adapter, a stored dismissal is restored, and the banner shows exactly when not dismissed and not configured |
| StorageBanner.Banner.Dismiss | components/ui/storage-banner.tsx:20-23 | the banner hides and the dismissal is stored |
| StorageBanner.ShownOnDesktopWithoutHosting | components/ui/storage-banner.tsx:25-27 | in the desktop app without hosting, the banner shows although SQLite serves |

## Left out

- **Ignored by the model:**
  - The wall clock, `crypto.randomUUID()`, the `confirm` dialog and `window.alert`. They are parameters or recorded alerts; an alert's modality is not modelled.
  - Authentication and row-level security of the hosted project.
  - The React render cycle.
- Concurrency and interleaving of asynchronous calls are not modelled beyond the explicit timer and request steps. In particular, two saves of the note editor can be in flight at once and complete in either order. The model sends each save as one step.
- The hooks' live queries are not modelled as subscriptions. `useLiveQuery` re-reads IndexedDB after every change; the model gives the list components the store and its query methods.
- The live query can overwrite text being typed when it answers during a burst. The load effect is modelled as a step the environment may take at any time, not as a race.
- Text.Fold: `toLowerCase()` and PostgreSQL's `ILIKE` folding are modelled on the ASCII and Latin-1 capitals only. The other Unicode case mappings, including those that change a text's length, are not modelled. SQLite's `LOWER()` and `LIKE` fold ASCII only, as modelled.
- Timestamps are integer milliseconds. The ISO text the backends exchange, and the `Date` conversion over IPC, are not modelled.
- `path.extname`, `path.normalize` and URL parsing and percent-encoding are not modelled. The protocol handler gets the extension and the file's bytes, or nothing. A URL is its origin and pathname.
- The PostgREST `or` grammar is simplified to ILIKE conditions on the two text columns. The model rejects a filter holding `)` and reads the pieces between commas. Nesting, quoting, the other operators and the other reserved characters, such as `(` and `"`, are not modelled.
- The hosted schema, with its foreign key `ON DELETE CASCADE`, is not part of this model's sources. It is assumed as the code comment at lib/supabase-storage.ts:109 states.
- SQLite's foreign-key enforcement is assumed to be on, as the desktop schema declares.
- `db!` being null, and the `!notebook` / `!notes` checks, are not modelled. The first cannot happen after start-up; the second cannot happen after a successful query.
- The UI writes through lib/storage are modelled on the browser store only. In the desktop app they go to SQLite, whose operations `DesktopStore.SqliteDatabase` models separately.
- `highlightMatch`'s regular-expression splitting is not modelled. Neither is `getPreviewText`'s HTML-to-text conversion.
- The locale-formatted date strings are not modelled; `NoteItem.FormOf` picks the form only.
- The editor's formatting commands and the resizable image node view are not modelled.
- Tiptap's normalisation of `setContent` is not modelled.
- The base64 encoding of `FileReader` is a parameter of `Dispatch.DataUrl`.
- Timers that survive the note editor's unmount are not modelled. Its timers are never cleared on unmount, so a pending save still fires.
- LocalStore.Database.SearchNotes: promises the selected notes but no order, because Dexie's `toArray` order is not specified beyond primary-key order, which the model does not fix.
- DesktopStore.SqliteDatabase.SearchNotes: states equality with the substring search only for queries free of `%` and `_` over notes without capitals outside ASCII. Otherwise it states the LIKE selection; `DesktopStore.AccentedCapitalDiverges` shows that they differ.
- DesktopStore.SqlMatchesIsSubstring: holds only for notes without capitals outside ASCII, for the same reason.
- DesktopStore.LikeNotesAgree: holds only for tables whose notes have no capitals outside ASCII.
- Agreement.SearchesAgree: the SQLite part holds only for tables whose notes have no capitals outside ASCII. All parts hold only for queries without `%`, `_`, backslash, `*`, comma or `)`.
- A LIKE pattern that ends in a lone backslash is an error on the PostgreSQL server; the model makes it match nothing. The search's patterns always end in `%`, so this case never arises.
- CloudStore.SearchSelectsMatches: holds only for queries without `%`, `_`, backslash, `*`, comma or `)`. Those characters are filter or pattern syntax.
- CloudStore.Project.SearchNotes: for a query holding one of those characters, states the selection of the conditions the simplified `or` parser reads, not of PostgREST's full grammar.
