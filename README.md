# kdl e-reader: a Dafny model of the library store and reader logic

The application is a browser e-book library. Imported files are stored as book
records in an IndexedDB object store, listed in a catalog, and opened in an
EPUB, PDF or plain-text reader that saves the reading position back into the
record. This project models the logic of `scripts/app.js` apart from its DOM,
FileReader, epub.js and pdf.js plumbing:

- `library.dfy` (module `Library`): the book record, its `last_read_cfi`
  position (`Null | Locator(cfi) | ScrollOffset(px)`) with JavaScript
  truthiness, and the `books` object store. The store has a key generator
  that follows section 2.11 (Key generators) of the W3C Indexed Database API.
  Pure functions (`Added`, `Lookup`, `Replaced`, `Progressed`, `Listing`)
  state what each store operation does. The class `BookStore` updates its
  `records` map and its generator's `current` number in place. Each of its
  methods is proved against those functions, and each keeps the store
  invariant `Valid`: every key is below the generator's current number and
  is its record's own `id`.
- `file_import.dfy` (module `FileImport`): the title and type derivation of
  `handleFileImport`, the per-file `onload` callback, and the loop over the
  selected files. A file whose read fails, or whose EPUB metadata promise
  never settles, saves nothing.
- `catalog.dfy` (module `Catalog`): the display title, format badge and
  status of each catalog entry, and the loop of `loadBooksFromDB`.
- `reader.dfy` (module `Reader`): the renderer dispatch of `openBook`, where
  each renderer resumes, the swipe decision, the PDF page order, and the
  session state as the class `Session`. That state is `currentBookId`,
  `currentBookType` and `currentRendition`, plus the listeners that build up
  on every EPUB open: swipe listener pairs and `relocated` listeners.
- `js_string.dfy` (module `JsString`): `split`, `join` and `includes`, the
  string built-ins the code calls, written out; and `lastIndexOf`, a
  reference definition that the title lemma is checked against. The
  `slice(0, -1)` and `substring(0, 17)` calls are sequence slices in the
  modules that use them.
- `wrappers.dfy` (module `Wrappers`): `Option` and `Result`.

Store operations are atomic sequential steps. The clock (`Date.now()`), the
file bytes, whether the file read completes and the outcome of EPUB metadata
parsing are inputs, carried by `FileEntry`.

## Model

| member | source | states |
|---|---|---|
| `FileImport.DefaultTitleDropsLastSegment` | scripts/app.js:42 | the default title is the file name up to its last `.`, and `""` when the name has no `.` |
| `FileImport.DefaultTitleExample` | scripts/app.js:42 | `"My Book.v2.txt"` gives `"My Book.v2"`: only the final extension is stripped |
| `FileImport.DefaultTitleNoDot` | scripts/app.js:42 | a name without a dot gives the empty title |
| `JsString.JoinSplit` | scripts/app.js:42 | joining the pieces of `split('.')` with `'.'` gives the name back, which is the basis of the title lemma |
| `JsString.IncludesIsOccurrence` | scripts/app.js:46 | `includes` holds exactly when the substring occurs at some index |
| `FileImport.ImportedDraftSpec` | scripts/app.js:42-61 | the saved type is the declared type, or `application/octet-stream` when none is declared; a non-empty metadata title replaces the file-name title only for types containing `epub`; after a rejection, an exception or an empty title the file-name title is used; the bytes are the file's and the position is `null` |
| `FileImport.ImportFile` | scripts/app.js:40-63 | a file's callback saves exactly when its read completes and, for an EPUB type, the metadata lookup resolves, rejects or throws; it then saves once, with the draft `ImportedDraft` describes; otherwise the store is unchanged; the store stays valid |
| `FileImport.HandleFileImport` | scripts/app.js:35-65 | a missing or empty file list saves nothing; otherwise there is one save per settling file, in file order, and the store is the old store with those records added and stays valid |
| `FileImport.DraftsCount` | scripts/app.js:38-63 | an import saves at most one record per file, and one for every file exactly when every file's read completes and every EPUB metadata lookup settles |
| `FileImport.DraftsAllSettled` | scripts/app.js:38-63 | when every file settles, the `i`-th save is the `i`-th file's draft |
| `FileImport.DraftsAppend` | scripts/app.js:38-63 | the saves of a list split in two are the saves of the first part followed by those of the second |
| `FileImport.DraftsSkipUnsettled` | scripts/app.js:40-53 | a file whose read fails or whose EPUB metadata never settles adds no save, wherever it stands in the list |
| `FileImport.AddAllKeepsRecords` | scripts/app.js:24-31 | until the key generator runs out, importing `n` files keeps the store valid, adds exactly `n` records, moves the generator by `n` and leaves every existing record unchanged |
| `FileImport.AddAllRecordAt` | scripts/app.js:24-31 | the `i`-th imported file is stored under the `i`-th generated key, with its title, type and bytes |
| `Library.Created` | scripts/app.js:11 | a newly created store is empty, its generator starts at 1, and it satisfies the store invariant |
| `Library.AddFresh` | scripts/app.js:24-31 | `add` fails only when the generator is past 2^53, and then changes nothing; otherwise the new record goes under a key that was not in use, has the draft's fields and its key as `id`, and the store grows by one and stays valid |
| `Library.PutExisting` | scripts/app.js:244 | `put` of an existing record replaces only that record and does not move the key generator |
| `Library.SaveProgressionFrame` | scripts/app.js:236-246 | `saveProgression` changes only `last_read_cfi` of record `currentBookId`; other records, other fields and the generator are unchanged; with no such record the store is unchanged |
| `Library.SaveProgressionRoundTrip` | scripts/app.js:239-244 | reading a record back after saving a position gives exactly the position written; a missing id stays missing |
| `Library.ListingSpec` | scripts/app.js:71 | `getAll` lists every stored record, each as stored under its `id`, in strictly ascending key order |
| `Library.BookStore.constructor` | scripts/app.js:9-12 | the object store as first created: empty, with the key generator at 1, satisfying the store invariant |
| `Library.BookStore.Add` | scripts/app.js:31 | `store.add` updates the records and the generator as `Added` describes, returns the new key or the error, and keeps the store invariant |
| `Library.BookStore.Get` | scripts/app.js:111 | `store.get` finds a record exactly when its key is stored, and returns that record, as `Lookup` describes |
| `Library.BookStore.Put` | scripts/app.js:244 | `store.put` of a record just read replaces that record only, as `Replaced` describes, leaves the generator where it was and keeps the store invariant |
| `Library.BookStore.GetAll` | scripts/app.js:71 | `store.getAll` returns the records in key order (`Listing`) |
| `Library.BookStore.SaveBook` | scripts/app.js:21-33 | `saveBookToDB` adds one record with the given data, title and type, a `null` position and the current time; a failed `add` changes nothing; the store invariant holds after |
| `Library.BookStore.SaveProgression` | scripts/app.js:236-246 | the read-modify-write of `saveProgression` leaves the store as `Progressed` describes, and keeps the store invariant |
| `Catalog.DisplayTitle` | scripts/app.js:82 | the shown title has at most 20 characters; it equals the title exactly when the title has at most 20 characters, and otherwise it is the first 17 characters followed by `...` |
| `Catalog.DisplayTitleExamples` | scripts/app.js:82 | a 25-character title is cut to 17 characters plus `...`; a 20-character title is shown unchanged |
| `Catalog.TypeLabelPriority` | scripts/app.js:83 | the badge is `EPUB` exactly when the type contains `epub`, even if it also contains `pdf`; `PDF` exactly when it contains `pdf` but not `epub`; `TXT` for every other type |
| `Catalog.ProgressStatusFalsy` | scripts/app.js:84 | the status is "Lecture en cours" exactly when `last_read_cfi` is truthy, so `null`, `0` and `""` all give "Nouveau" |
| `Catalog.ListEntries` | scripts/app.js:77-97 | one list entry per record, in order, each built from that record |
| `Catalog.LoadBooksFromDB` | scripts/app.js:68-99 | the catalog shows every stored record exactly once, in key order, each entry built from its own record with a title of at most 20 characters |
| `Reader.DispatchPriority` | scripts/app.js:129-140 | the renderer is chosen in the order `epub`, `pdf`, `text/plain`; a type matching none of them gets no renderer |
| `Reader.DispatchMatchesLabel` | scripts/app.js:129-140 | the renderer and the catalog badge of line 83 agree on EPUB and PDF; a `TXT` badge covers both the text renderer and no renderer |
| `Reader.OctetStreamLabelledButNotRendered` | scripts/app.js:137 | `application/octet-stream`, the type of a file imported without a type, is badged `TXT` but no renderer runs for it |
| `Reader.EpubWinsOverPdf` | scripts/app.js:129-133 | a type containing both `epub` and `pdf` opens in the EPUB renderer |
| `Reader.ResumeAt` | scripts/app.js:151-155 | a renderer resumes from the saved position exactly when that position is truthy, and from the start otherwise |
| `Reader.ViewResumesTruthyPosition` | scripts/app.js:151-183 | an EPUB book displays its saved locator and a text book restores its saved scroll offset only when they are truthy; an offset of 0 is not restored; offsets are integers here (see `Reader.Session.OpenBook` under "## Left out") |
| `Reader.SwipeDecision` | scripts/app.js:266-274 | a swipe acts only with a rendition and a distance over 50; a leftward swipe (`deltaX < -50`) gives next, a rightward one (`deltaX > 50`) gives previous, and `|deltaX| <= 50` does nothing |
| `Reader.SwipeMirror` | scripts/app.js:269-274 | mirroring a swipe swaps next and previous |
| `Reader.PdfPagesInOrder` | scripts/app.js:210-228 | the PDF pages drawn are 1 to `numPages`, each once, in increasing order |
| `Reader.RepeatedEpubOpensTurnManyPages` | scripts/app.js:248-259 | as written, every EPUB open adds a swipe listener pair that is never removed, so after `n` EPUB opens one long leftward swipe turns `n` pages |
| `Reader.TwoEpubOpensTurnTwoPages` | scripts/app.js:248-259 | as written, two EPUB opens followed by one 100-pixel leftward swipe call `next()` twice |
| `Reader.IntendedAtMostOneHandler` | scripts/app.js:254-259 | with the cleanup working as intended, at most one listener pair is attached, exactly one after any EPUB open, so a swipe turns at most one page |
| `Reader.StaleRelocationReachesTextBook` | scripts/app.js:160-165 | a `relocated` event from an earlier EPUB rendition writes its locator into the text book open now, and reopening that text book restores the locator rather than a scroll offset |
| `Reader.Session.constructor` | scripts/app.js:103-105 | no rendition, no current book and no listeners at page load, and the session invariant holds |
| `Reader.Session.OpenBook` | scripts/app.js:105-142 | `currentBookId` is always set; for a missing record nothing else changes and the library stays shown; otherwise the book type is recorded, the view is the dispatched one, and the rendition is new for EPUB, `null` for PDF and text, and left as it was when no renderer runs; an EPUB open also adds one swipe listener pair and one `relocated` listener, keeping the earlier ones; the session invariant (one swipe pair per rendition created, the current rendition among them) is kept |
| `Reader.Session.SaveProgression` | scripts/app.js:236-246 | the position goes into the record of the current book, as `Progressed` describes; with no book opened nothing is written; the store invariant is kept |
| `Reader.Session.Relocated` | scripts/app.js:160-165 | the `relocated` listener of any rendition created so far, current or not, saves its locator into the record of the book open now |
| `Reader.Session.HandleTouchEnd` | scripts/app.js:265-277 | every attached listener takes the same decision, `Swipe`: a touch ending more than 50 pixels left of where it started turns to the next page, more than 50 right turns to the previous page, and only when a rendition exists; there are as many actions as listener pairs |

## Left out

- The DOM: building the list items and `innerHTML`, showing and hiding views, the `.page-number` text, and drag-and-drop styling. These are UI.
- `FileReader`, `Blob`, object URLs and `TextDecoder`: browser I/O. A file's bytes are an input.
- epub.js and pdf.js. This covers opening and laying out books, `display`, `next` and `prev`, search and highlights, metadata parsing, and the PDF viewport at scale 1.5. The metadata outcome is an input; a rendition is a value naming its book and start position.
- `renderPdf` when `pdfjsLib` is undefined or the document fails to load: both only write an error message into the DOM.
- `setupSearch`, `prompt` and `alert`: search UI on top of epub.js.
- `debounce`, `setTimeout` and `clearTimeout`: event timing. The scroll listener is modelled only through what it calls, `Reader.Session.SaveProgression`. When a stale `relocated` listener fires is up to epub.js; the model lets any rendition created so far fire.
- Asynchrony. The source reads the files of one import concurrently and saves in whatever order the reads finish; the model saves in file order. IndexedDB transactions and their callbacks are atomic steps.
- Transaction errors other than key-generator exhaustion: storage quota and an unavailable database.
- Service-worker registration, and `sw.js` as a whole (offline caching of static assets).
- Reader.Session.OpenBook: for a text book whose saved position is a locator string, the source restores `parseInt` of that string; the model's view carries the position itself. Such a position reaches a text book only through a stale `relocated` listener (`Reader.StaleRelocationReachesTextBook`). Scroll offsets are integers in the model, while the browser's `scrollTop` is a double, saved as is and restored through `parseInt`, which truncates: 1234.5 restores to 1234, and an offset between 0 and 1 is truthy, so the catalog shows it as in progress, yet it restores to the top.
- Reader.Session.HandleTouchEnd: touch coordinates are integers here, while the browser reports doubles. All listener pairs are taken to have seen the same touch start; a pair attached between a touch start and its touch end is not modelled.
- Catalog.LoadBooksFromDB: each call is one atomic step. In the source the list is cleared when the call starts and filled when `getAll` succeeds, so two calls that overlap (one per file of a multi-file import, through `transaction.oncomplete`) can both clear before either fills, and the list then shows records twice.
- Catalog.DisplayTitle: JavaScript string length counts UTF-16 code units, and the model counts Unicode characters. The two differ for characters outside the Basic Multilingual Plane.

## Findings

| source | as written | input that shows it | evidently intended | confidence | as-written member | corrected member |
|---|---|---|---|---|---|---|
| scripts/app.js:254-259 | `setupSwipes` declares new `handleTouchStart` and `handleTouchEnd` functions on every call, so its `removeEventListener` calls remove nothing and every EPUB open adds another listener pair | open two EPUB books one after the other, then swipe left by 100 pixels: `next()` runs twice | one listener pair at a time, so one swipe turns one page | not executed; the listener identity rule of the DOM makes the removal a no-op | `Reader.TwoEpubOpensTurnTwoPages` | `Reader.IntendedAtMostOneHandler` |

The general form of the as-written half is `Reader.RepeatedEpubOpensTurnManyPages`, on `Reader.HandlersAfterOpens`; the corrected count is `Reader.IntendedHandlersAfterOpens`. `Reader.Session` follows the source as written: its `swipeHandlers` count grows by one on every EPUB open.
