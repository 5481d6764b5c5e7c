# Project dashboard listing core, in Dafny

This project models the browser dashboard in `app.js`. The dashboard lists project folders kept under the `projects/` prefix of a cloud storage bucket, and the files inside one folder. The model covers these parts:

- **Item classification** (module `Items`): the folder id derived from a typed name, 3D-model detection, the file icon, the type inferred from a file's extension, and the extension badge.
- **The list-shaping pipeline of `fetchItems`** (module `Listing`):
  - folders first, then name order;
  - the type filter buttons;
  - the search box;
  - removal of duplicate folders at the root.
- **The classification loop of `loadFolderFiles`** (module `Listing`): skip the folder marker, skip repeated paths, build file items, sort by name.
- **Generic sequence operations** (module `Seqs`) behind `filter`, the `seen`-set loops and `sort`, with loop versions of the two `seen`-set loops.
- **The listing caches** (module `Cache`): the root entry and per-folder entries, with their 30-second freshness window.
- **The admin-password check** (module `Admin`).
- **Upload progress** (module `Upload`): the arithmetic of a multi-file upload.
- **The dashboard state machine** (module `Session`):
  - breadcrumbs and the back button;
  - the fetch token that stops superseded fetches from rendering;
  - cache writes and invalidation;
  - the admin flag;
  - the delete gate;
  - upload, rename, cover and folder creation.

String helpers and `Option` are in `Strings` and `Wrappers`.

## How the model is built

- **Inputs the code cannot compute itself become parameters:**
  - `Date.now()` is a `now: int` argument;
  - `localeCompare` is comparison of collation keys (`Listing.Collation`, a function from names to integer sequences, compared lexicographically);
  - `sha256Hex` is a `digest` function that may fail;
  - the configured `adminPasswordHash` is a string.
- **Storage calls become their answers:**
  - the root prefixes with their marker names;
  - a folder's object names;
  - `None` when a listing rejected;
  - success flags for uploads, renames and folder creation.
- **The dashboard is a transition system.**
  - `Session.Step` applies one event: a click, a completed storage call or a sign-in change.
  - Interleaved async work is a sequence of such events, so a fetch's completion can arrive after any number of other events.
  - The admin confirm is one event, placed where its digest returns: before its `await` it only disables the button and hides the error line, which the model does not track. A sign-out during the digest is therefore followed by the flag going up (`Session.SignOutDuringConfirmKeepsAdmin`).
  - An upload from the file input or a drop carries `start`, the folder open when it began: the handler tests and captures `currentFolder` before its first `await`, so leaving the folder during the upload does not redirect it (`Session.BackDuringUploadKeepsTarget`).
  - A delete is two events: the click, which tests the gate before any storage call, and the end of its storage calls, which drops the caches and refetches whatever the flag is by then (`Session.SignOutDuringDeleteStillInvalidates`). `deleting` records the deletes in flight.
- **Null and empty folder ids.** `currentFolder` is `Option<string>`. Both `null` and the empty id mean the root, as the code's `!currentFolder` tests do.
- **Cache keys may be `null`.** The per-folder cache is keyed by `Option<string>` because a JavaScript `Map` accepts `null` as a key. Two paths write that key: a folder-panel upload whose folder is unknown, and a cache write after the user navigated.
- **Navigation never leaves the root.** Nothing in `app.js` appends to `folderPath`, so every reachable state stays at the root crumb (`Session.AlwaysAtRoot`). The in-folder branches of `fetchItems` are modelled all the same: a state can start anywhere.
- **Behaviours of the code that the model keeps as written:**
  - The admin check trims both the typed password and the configured secret.
  - The delete gate tests the untrimmed secret, so a secret of spaces passes its first test.
  - A superseded fetch still overwrites the cache.
  - A folder fetch writes the cache twice: once under its own id inside `loadFolderFiles`, and once under the folder that is open when the listing returns.
  - Creating a folder does not invalidate the root cache.
  - Upload, rename and cover changes have no admin gate in their handlers.

## Model

| member | source | states |
|---|---|---|
| Items.FolderIdFromName | app.js:72-74 | the id is trimmed, lower-case and a fixed point of trim-and-lower-case |
| Items.FolderIdOfPadded | app.js:72-74 | a name made of whitespace, a trimmed core and whitespace has the lower-cased core as its id |
| Items.FolderIdCollapses | app.js:72-74 | names differing only in surrounding whitespace or letter case give the same folder id |
| Items.ModelDetectionIgnoresCase | app.js:79-87 | whether a file counts as a 3D model does not depend on the letter case of its name or type |
| Items.InferredModelIsModelExt | app.js:832-836 | a listed file, carrying the type `loadFolderFiles` infers for it, counts as a 3D model exactly when its lower-cased name ends in one of the fourteen model extensions: none of the inferred types names a model format |
| Items.IconOfInferredType | app.js:90-100 | with the type `loadFolderFiles` infers, a `.pdf` file gets the PDF icon, an image extension the image icon, and a viewer model extension the model icon |
| Items.GetFileExtension | app.js:103-108 | the badge is empty exactly when the trimmed name has no dot or its last dot is first or last; otherwise it is the dot-free upper-cased text after the last dot |
| Items.ExtensionOfSplit | app.js:103-108 | a name that trims to stem.ext, with a non-empty stem and a non-empty dot-free ext, has badge upper-case ext |
| Strings.TrimIdempotent | app.js:137 | trimming twice is trimming once |
| Strings.NormalizeIgnoresPaddingAndCase | app.js:137 | the normalized search text ignores surrounding whitespace and letter case |
| Strings.TrimToLowerCommute | app.js:137 | trimming and lower-casing commute, so the order of the two calls does not matter |
| Listing.OrdersArePreorders | app.js:268-271 | both comparators (folders first, then name; name only) are total and transitive |
| Listing.SortItems | app.js:268-271 | the sorted list is a permutation of the input, ordered by the comparator, with no file before a folder |
| Listing.TypeFilter | app.js:273-283 | every kept item passes the chosen type test, every item passing it is kept, and "all" keeps the list unchanged |
| Listing.Search | app.js:285-291 | an empty query keeps everything; otherwise exactly the folders (root) or files (in a folder) whose lower-cased name contains the query are kept |
| Listing.FilterStepsAreSubseqs | app.js:273-291 | both filter steps only drop items and never reorder the rest |
| Listing.FilterSearchCommute | app.js:273-291 | the type filter and the search commute and together keep what both tests accept |
| Listing.RootDedup | app.js:293-301 | after root duplicate removal no two folders share a trimmed lower-cased name |
| Listing.RootDedupKeeps | app.js:293-301 | duplicate removal keeps every file in order, keeps every folder key, and each kept folder is the first of its key |
| Listing.RootDedupIdempotent | app.js:293-301 | removing duplicates twice is removing them once |
| Listing.Shape | app.js:267-301 | the rendered list is ordered folders-first, passes the type filter and the search, and at the root has distinct folder keys |
| Listing.ShapeComplete | app.js:267-301 | every listed item that passes the type filter and the search is drawn: inside a folder and for files always, and at the root a folder is drawn or another folder with its key is |
| Listing.ShapeIsSubseq | app.js:267-301 | the rendered list is the sorted listing with items left out and never reordered |
| Listing.RenderDedupIsNoop | app.js:311-321 | the second duplicate removal in `renderItems` changes nothing at the root |
| Listing.RootItems | app.js:246-255 | one folder per storage prefix, in order; each has the prefix as its id, the marker's name as its name when that name is non-empty, and the prefix as its name when the marker gives none or an empty one |
| Listing.KeptNames | app.js:828-841 | the loop keeps names from the listing, never the marker, with pairwise different lower-cased paths |
| Listing.CollectFilesShape | app.js:828-841 | each collected item is the file built from one listed name other than the marker, and no two share a lower-cased path |
| Listing.CollectCoversListing | app.js:828-841 | the lower-cased paths of the collected files are exactly those of the listed names other than the marker |
| Listing.LoadFolderFiles | app.js:823-846 | the result holds only files built from listed non-marker names, has distinct path keys, is sorted by name, covers every listed non-marker path, is a reordering of the collected files, and of names differing only in case keeps the one listed first |
| Listing.CollectedAreFirsts | app.js:838-841 | each collected file's name is the first listed non-marker name with that lower-cased path |
| Seqs.DedupLoop | app.js:293-301 | the `seen`-set loop computes the first-of-each-key filter |
| Seqs.FilterDedupMapLoop | app.js:828-841 | the `for`/`continue` loop computes skip-rejected, first-of-each-key, then build |
| Seqs.FilterCounts | app.js:273-291 | a filter keeps each accepted element as often as it occurs and drops the rest |
| Seqs.SortBy | app.js:268-271 | sorting yields a permutation in comparator order |
| Seqs.DedupKeepsFirst | app.js:293-301 | every keyed element the `seen`-set filter keeps is the first of its key in the input |
| Seqs.LexTrans | app.js:268-271 | the collation-key order is transitive |
| Cache.FreshItems | app.js:181-184 | the cached items are usable exactly when an entry exists and less than 30000 ms have passed since it was written |
| Cache.FreshnessWindow | app.js:65 | an entry written at t is usable through t + 29999 and never from t + 30000 on |
| Cache.Put | app.js:264 | a write changes exactly one key of the per-folder cache |
| Cache.Invalidate | app.js:1006 | a delete removes exactly one key of the per-folder cache |
| Admin.CheckTrimmed | app.js:1080-1091 | on the trimmed values: "not configured" exactly for an empty secret; a validation error exactly when a digest secret's hash fails; success only when the digest equals the lower-cased secret, or, for any other secret, when the password equals it |
| Admin.CheckAdmin | app.js:1076-1107 | "not configured" exactly for a blank secret; a validation error exactly when a digest secret's hash fails; success only on a digest or plaintext match |
| Admin.BlankSecretNeverAuthorizes | app.js:1081-1086 | a secret made only of whitespace is reported as not configured |
| Admin.DigestSecret | app.js:1087-1089 | a 64-hex-digit secret admits exactly the passwords whose digest equals it in lower case, whatever its letter case |
| Admin.PlaintextSecret | app.js:1090-1091 | any other non-blank secret admits exactly the password equal to it after trimming; anything else is a wrong password |
| Admin.PaddingIgnored | app.js:1080-1081 | whitespace around the typed password or the stored secret does not change the outcome |
| Admin.OpenMessage | app.js:1047-1055 | the modal opens with the "not configured" text exactly when the secret is the empty string, and blank otherwise |
| Admin.ConfirmMessage | app.js:1083-1099 | after a confirm the error line is hidden exactly on success, reads "error validating" exactly on a validation error, and never keeps the "not configured" text |
| Admin.BlankSecretReadsAsWrongPassword | app.js:1083-1099 | confirming against a blank secret ends on "incorrect password", and a secret of spaces opens the modal without the "not configured" text |
| Admin.IntendedConfirmMessage | app.js:1083-1099 | each confirm outcome keeps its own text: hidden, "not configured", "incorrect password" or "error validating" |
| Admin.IntendedNamesMissingSecret | app.js:1080-1085 | with each outcome keeping its text, a confirm says "not configured" exactly when the trimmed secret is empty |
| Upload.Percent | app.js:983-986 | for a non-empty batch the percentage is the whole number r with r·total ≤ loaded·100 < (r+1)·total; it is 0 for an empty batch, at most 100 while loaded bytes do not exceed the total, and reaches 100 exactly when everything is loaded |
| Upload.FloorPercent | app.js:985 | the floor of loaded·100 / total brackets the loaded share, stays within 100 up to the total and reaches 100 exactly at it |
| Upload.PercentMonotone | app.js:983-986 | more loaded bytes never show a smaller percentage |
| Upload.UploadProgress | app.js:979-1011 | the bar shows exactly the reference sequence `ExpectedShown`: 0, then, for each report of each file in order, the percentage of the earlier files' final byte counts plus that report, ending after the first failed file; it starts at 0; the batch completes exactly when every file does; it stays within 100 when reports do not exceed sizes; it never goes back when reports are monotone; it ends at 100 when every file finished |
| Upload.UploadFiles | app.js:988-1001 | the loop over the files shows exactly `ExpectedShown`, completes exactly when every file does, leaves each completed file at its final byte count, and its last value is the percentage of the bytes loaded |
| Upload.ReportFile | app.js:994-997 | the progress events of one file set its byte count to each report in turn, leave the others alone, and add one bar value per report: the earlier bytes plus that report |
| Upload.ShownBar | app.js:983-1001 | the reference bar starts at 0, stays within 100 when no report exceeds its file's size, and never goes back when every file's reports are monotone |
| Upload.ExpectedShownBounded | app.js:983-986 | when no report exceeds its file's size, every value of the reference bar is at most 100 |
| Upload.ExpectedShownMonotone | app.js:983-997 | when every file's reports are monotone, the reference bar never goes back, across files as well as within one |
| Session.BeginFetch | app.js:175-178 | a fetch takes the next token and changes nothing but the token and what is on screen |
| Session.CompleteFetch | app.js:243-306 | completing a fetch touches only the caches and the display, and a superseded one leaves the display alone |
| Session.Navigated | app.js:853-858 | the typed search sets the normalized query, the chosen filter sets the filter, the toggle flips the view mode, a crumb click is `GoToCrumb`, the back button below the root drops the last crumb and opens the one before, and nothing else changes; the trail stays rooted and in step with the open folder |
| Session.ViewStep | app.js:116-145 | the trail stays well formed; the token rises by one exactly when the event refetches (everything but sign-out, and the back button only below the root); with no new token the trail, open folder, filter and query are unchanged; sign-out drops the admin flag and no other view event touches it |
| Session.AdminStep | app.js:1065-1097 | admin and delete events never change the trail, open folder, filter, query or view mode; the token rises exactly when the admin flag is dropped, a confirm is authorized or a recorded delete ends; the admin button drops a raised flag and otherwise opens the modal, an authorized confirm raises the flag and closes the modal, the cancel button closes the modal and keeps the flag, and the flag goes up nowhere else |
| Session.AdminPrepared | app.js:914-943 | before any refetch an admin event changes at most the admin flag, the modal, the caches and the deletes in flight; it moves the flag and the modal as the admin button and confirm do, and raises the flag only on an authorized confirm |
| Session.LoadStep | app.js:243-306 | a completed listing changes only the caches and what is on screen |
| Session.PanelLoaded | app.js:823-846 | opening a folder panel caches that folder's files under its id, stamped now, and leaves every other cache key alone |
| Session.Invalidated | app.js:1006-1007 | an edit that went through changes only the caches before its refetch, and an upload, rename or cover change drops the root listing |
| Session.EditStep | app.js:979-1016 | an edit changes only the token, the caches and what is on screen, and takes a new token exactly when it went through; an upload from the open folder goes through only when a folder was open as it began |
| Session.FirstSegment | app.js:937-938 | the folder part of a file id is its longest prefix without a '/' |
| Session.GoToCrumb | app.js:853-858 | clicking crumb idx keeps the first idx + 1 crumbs and opens the last of them |
| Session.StepKeepsWellFormed | app.js:853-858 | the breadcrumb trail stays rooted and `currentFolder` stays the id of its last crumb |
| Session.StepToken | app.js:176 | an event raises the token by one exactly when it starts a fetch; if the token is unchanged, path, context, filter and query are unchanged too |
| Session.RunToken | app.js:176 | over any run the token never decreases; if it ends where it began, the view settings are as they were |
| Session.SupersededFetchDoesNotRender | app.js:267 | a fetch whose token is no longer the latest leaves the display and the token alone |
| Session.OnlyLaterFetchRenders | app.js:267-303 | once a later fetch has been issued, the earlier one cannot render after any sequence of events |
| Session.LatestFetchRenders | app.js:267-306 | if no fetch started since, the latest fetch renders its listing shaped with the filter, query and context it was issued for |
| Session.SupersededFetchStillWritesCache | app.js:257-264 | a superseded fetch still stores its listing in the cache: the root entry, or the same entry under both its own folder and the folder open when it completes |
| Session.AdminOnlyByConfirm | app.js:1065-1097 | the admin flag goes up only through a confirm whose check says authorized |
| Session.DeleteGate | app.js:914-918 | a refused delete click only opens the admin modal; an allowed one only records the delete in flight |
| Session.DeleteFinishes | app.js:933-942 | the end of a recorded delete clears the root cache, drops the affected folder's files and nothing else, and starts a fetch, whatever the flag is; the end of an unrecorded one changes nothing |
| Session.SignOutDuringDeleteStillInvalidates | app.js:914-942 | a delete let through before a sign-out still clears the root cache and refetches when its storage calls end, with the flag down |
| Session.ConfirmGrantsAdmin | app.js:1092-1096 | an authorized confirm raises the flag, closes the modal and refetches, from any state |
| Session.CancelClosesModal | app.js:1075 | the modal's cancel button closes the modal and changes nothing else: no check, no fetch, the flag as it was |
| Session.AdminFlagFalls | app.js:1067-1070 | the admin button with the flag up drops it, and a sign-out always drops it |
| Session.SignOutDuringConfirmKeepsAdmin | app.js:1076-1096 | a sign-out while the digest runs is followed by the flag going up, and the next sign-in keeps it |
| Session.SearchSetsQuery | app.js:136-139 | the search box sets the query to the typed text trimmed and lower-cased, keeps the filter and the trail, and refetches |
| Session.FilterSetsFilter | app.js:140-144 | a filter button sets the chosen filter, keeps the query and the trail, and refetches |
| Session.ToggleFlipsView | app.js:953-957 | the view toggle switches to the other view mode and changes no filter, query or trail; two toggles restore the mode |
| Session.BackDropsLastCrumb | app.js:1025-1031 | below the root the back button drops the last crumb, opens the one before and refetches; at the root it changes nothing |
| Session.DeleteListedFileInvalidatesItsFolder | app.js:935-939 | deleting a file listed in a trimmed, slash-free folder forgets that folder's cached files |
| Session.UploadInvalidatesOnlyOnSuccess | app.js:979-1011 | a batch where every file succeeds clears the root cache and the target's files and starts a fetch; a failed batch changes nothing |
| Session.UploadForgetsOnlyItsTarget | app.js:1006-1016 | a successful upload forgets its target folder's cached files and keeps every other folder's entry; an upload from the open folder targets the folder open when it began, and with none open it changes nothing |
| Session.BackDuringUploadKeepsTarget | app.js:1013-1016 | after the back button is pressed during an upload, the finished upload still forgets the files of the folder it began in, and clears the root cache |
| Session.FolderCreationKeepsCaches | app.js:871-884 | creating a folder leaves both caches untouched, and refetches exactly when the trimmed name is non-empty, no marker exists and the marker write succeeds |
| Session.StartupStaysAtRoot | app.js:53-58 | the initial state is well formed, and every run from it stays at the root crumb in the root context |
| Session.AlwaysAtRoot | app.js:53-54 | from a state at the root crumb, every run stays at the root crumb, in the root context |
| Session.OptimisticRenderNeedsFreshCache | app.js:180-215 | at the root a cached listing is drawn at once, shaped for the current view, while it is fresh, and nothing is drawn once 30000 ms have passed |
| Session.OptimisticRenderInFolder | app.js:216-241 | inside a folder the folder's cached files are drawn at once, shaped for the current view, while fresh, and nothing is drawn once 30000 ms have passed |

## Left out

- Storage calls, `fetch` of marker files, and DOM rendering: modelled only as their answers and as the item list a render draws.
- The inline folder panels (`renderFolderPanel`, `renderFolderPanelInto`): only the cache write of `loadFolderFiles` when a panel opens, and their upload button, are modelled.
- The 3D viewer, the folder preview, `firebase-init.js`, `filters.js` and `viewToggle.js`: not part of this model. Their labels, highlights and viewer state do not affect the listing.
- The sign-in form: only its effect through the auth listener (fetch on sign-in, admin flag cleared on sign-out) is modelled.
- Concurrency: async handlers are events placed where their awaited calls end; only the delete is split at its `await`, because only it changes modelled state on both sides. An upload from the open folder reads that folder before its `await`; the event carries the value read. A handler's time readings are a single `now`.
- Admin modal messages: `Admin.OpenMessage` and `Admin.ConfirmMessage` say which text the error line shows; the wording itself and its visibility flag are DOM state, and `Session` only records whether the modal is open: the admin button and a refused delete open it, an authorized confirm and the cancel button close it. A confirm against a blank secret ends on the same "incorrect password" text as a wrong password (see Findings).
- Strings.ToLower: case mapping covers ASCII and the Latin-1 letters that map one-to-one. Full Unicode case mapping is left out.
- Strings.ToUpper: the same range as `ToLower`. The one-to-many and out-of-range mappings of `toUpperCase` are left out: ß to "SS", ÿ to Ÿ, µ to Greek capital mu, and every letter beyond Latin-1, so an extension badge built from such letters can differ from the browser's.
- Upload.Percent: integer floor of `loaded * 100 / total`. The floating-point `loaded / total * 100` of the code can differ by one for some values, and that rounding is not modelled.
- Cover upload progress: the single-file progress bar is text only. The cover change is modelled by its success flag.
- Listing.SortItems: states permutation and order but not the stability of `Array.prototype.sort`, although `Seqs.Insert` keeps equal elements in input order.
- Listing.Collation: `localeCompare` is assumed to compare names through a collation key. An implementation whose order is not of that form is not modelled.
- Items.GetFileIcon: stated only through `Items.IconOfInferredType`, for the types `loadFolderFiles` assigns. Uploaded files with other types are not characterised.
- Session.Step: requires a well-formed breadcrumb trail. Every state the code builds has one (`Session.StepKeepsWellFormed`), and crumb clicks on an empty trail would throw in the code.

## Findings

| source | as written | input that shows it | evidently intended | confidence | as-written member | corrected member |
|---|---|---|---|---|---|---|
| app.js:1083-1099 | the not-configured branch sets its text but leaves `ok` false, so the `else` of `if (ok)` overwrites it with "Senha incorreta" | any password with `adminPasswordHash` set to "   " (or to "" when the modal is confirmed) | a confirm against a blank secret says the admin password is not configured | medium, not executed | Admin.BlankSecretReadsAsWrongPassword | Admin.IntendedNamesMissingSecret |
