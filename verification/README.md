# github-copy-code, modelled in Dafny

This project models the logic of the "copy as formatted markup" browser extension. The extension puts a copy button next to each file of a GitHub diff. The button renders that file's hunks through a user-chosen template. The model covers three parts.

- **Render-context builder** (`Markup`, `DiffPath`). It takes one parsed file diff and decides whether the file was added, deleted or modified. It extracts path, name and extension with the anchored path pattern and derives the language id. It then builds one hunk view per hunk, dropping `+`/`-` markers when the whole file was added or deleted.
- **Template side** (`TemplateRenderer`, `Sandbox`).
  - The `trimWhitespace` and `collapseWhitespace` helpers.
  - The fixed dummy context `validate` evaluates against.
  - The memoised renderer.
  - The `retry` policy.
  - The request/response correlation of the round trip to the isolated frame.
- **Template management** (`TemplatesRepo`, `TemplatesService`, `TemplateTransfer`, `TemplateList`, `TemplateForm`).
  - The template store, including its single-default rule.
  - The service that creates and updates records.
  - Import validation.
  - The list's order and view choice.
  - Submit validation in the template form.

Each source file is one module. `Wrappers` holds `Option`, `Result` and `Outcome`. `Text` holds the JavaScript string operations the source relies on: `trim()`, `replace(/\s+/g, " ")`, `join` and decimal formatting. `trim()` and `\s` use one whitespace predicate, ECMAScript WhiteSpace plus LineTerminator.

Foreign calls are parameters or inputs:

| foreign call | becomes |
|---|---|
| template engine (Mustache, Handlebars) | a function from source and context to text or an error message |
| `mustache.parse` | its outcome |
| `JSON.parse` | the parsed value |
| `crypto.randomUUID`, `Date.now` | ids and clock readings |
| `onSave`, `onImport` | whether their promise resolves |
| timers and message events | events in a sequence |
| task calls in `retry` | a sequence of attempt outcomes |

The IndexedDB store is an immutable map from id to stored record. Every store operation is one atomic step. Reads return records in key order, as IndexedDB does.

## Model

| member | source | states |
|---|---|---|
| DiffPath.GetFilePath | utils/diff.ts:3-10 | Names equal to `dev/null` (no slash) count as absent, and the new name wins over the old one. The result is a suffix of the chosen name. It is two characters shorter exactly when the name starts with `a/` or `b/`, and the whole name otherwise. |
| DiffPath.StripDiffPrefix | utils/diff.ts:8 | The result is a suffix of the name: two characters shorter exactly when the name starts with `a/` or `b/`, and the whole name otherwise. |
| DiffPath.StripsOnePrefix | utils/diff.ts:8 | Only one prefix is removed: `a/b/x` gives `b/x`. |
| DiffPath.SlashedMarkerIsAName | utils/diff.ts:4-8 | `/dev/null` (with slash) is not treated as absent and comes back unchanged. |
| Markup.LastIndexOf | entrypoints/github.content/markup.ts:28 | Finds the last occurrence of a character, or reports that there is none. The regex's greedy `[^/]+\.` settles on that last dot. |
| Markup.NameStart | entrypoints/github.content/markup.ts:28 | The name group starts just after the last slash before the dot, or at the start of the path. |
| Markup.MatchPath | entrypoints/github.content/markup.ts:27-29 | Fails on a name without an `a/` or `b/` prefix. A match has the name minus its prefix as path, and a non-empty extension shorter than the name, which is no longer than the path. `Markup.MatchPathSpec` shows it agrees with the pattern. |
| Markup.MatchPathSound | entrypoints/github.content/markup.ts:27-33 | Every groups value `MatchPath` returns is a match of the anchored pattern: prefix `a/` or `b/`, non-empty directory segments, a non-empty slash-free stem, a dot, and a non-empty dot-free extension. |
| Markup.MatchPathComplete | entrypoints/github.content/markup.ts:27-33 | Every match of the pattern is the one `MatchPath` returns. The groups are therefore unique, and `MatchPath` fails only when the pattern does. |
| Markup.MatchPathSpec | entrypoints/github.content/markup.ts:27-33 | Both directions together: `MatchPath` gives a match exactly when the pattern matches. |
| Markup.LangId | entrypoints/github.content/markup.ts:35 | `diff-<ext>` for a modified file with an extension, `diff` for one without, and the bare extension (possibly empty) for an added or deleted file. |
| Markup.Classify | entrypoints/github.content/markup.ts:16-35 | `isAdded` holds exactly when the old name is `/dev/null`, `isDeleted` exactly when the new name is, and `isModified` exactly when neither does. The examined name is the old one for a deleted file and the new one otherwise, with a missing name read as "". On a match, path, name and extension are the pattern's groups; with no match all three are "". The language id follows `LangId`. |
| Markup.ModifiedClassified | entrypoints/github.content/markup.ts:16-35 | A file that is neither added nor deleted, with a matching new name, takes path, name and extension from the match and the language id `diff-<ext>`. |
| Markup.ExactlyOneFlag | entrypoints/github.content/markup.ts:21-23 | Exactly one flag holds, unless both names are `/dev/null`. |
| Markup.NoExtensionBlanksPath | entrypoints/github.content/markup.ts:27-35 | `b/Makefile` yields an empty path and name as well as an empty extension, with language id `diff`. |
| Markup.BuildHunkList | entrypoints/github.content/markup.ts:37-56 | One view per hunk, in input order, each with its hunk's start lines and code and the file-level language id, path and name. `isFirst` holds only at index 0 and `isLast` only at the last index. |
| Markup.BuildHunkView | entrypoints/github.content/markup.ts:42-54 | One hunk's view. It has no contract of its own; `Markup.BuildHunkList` states what each view holds. |
| Markup.BuildContext | entrypoints/github.content/markup.ts:58-66 | `isAdded` holds exactly when the old name is `/dev/null`, `isDeleted` exactly when the new name is, and `isModified` exactly when neither is. There is one hunk view per hunk of the diff, in order. Each view has its hunk's start lines and that hunk's code, with markers stripped unless the file is modified. `isFirst` holds only at index 0 and `isLast` only at the last index. Every view carries the classified language id, path and name. |
| Markup.BuildContextWellFormed | entrypoints/github.content/markup.ts:21-56 | Every built context is well formed: consistent flags, first/last only at the ends, and file-level fields shared by all hunks. |
| Markup.SingleHunkFirstAndLast | entrypoints/github.content/markup.ts:43-44 | A single hunk is both first and last. |
| Markup.StripMarker | entrypoints/github.content/markup.ts:41 | A line starting with `+` or `-` loses that first character. Any other line comes back unchanged. |
| Markup.StripLineMarkers | entrypoints/github.content/markup.ts:41 | Never lengthens the text. Away from a line start, text without a line terminator is left unchanged; `Markup.StripJoinedLines` relates it to per-line stripping. |
| Markup.HunkCode | entrypoints/github.content/markup.ts:39-41 | One hunk's code. It has no contract of its own; `Markup.HunkCodeByLines` states it line by line. |
| Markup.StripLineMarkersPlain | entrypoints/github.content/markup.ts:41 | On one line with no line terminator, the multiline replacement touches only its first character. |
| Markup.StripLineMarkersAcrossNewline | entrypoints/github.content/markup.ts:41 | A newline starts a new line for `^` in multiline mode. |
| Markup.StripJoinedLines | entrypoints/github.content/markup.ts:41 | When no line holds a line terminator, the multiline replacement on the joined text equals dropping one marker from each line before joining. |
| Markup.HunkCodeByLines | entrypoints/github.content/markup.ts:39-41 | A modified file's code is its lines joined verbatim. An added or deleted file's code is its lines, each stripped of one marker, joined. |
| Markup.AddedFileScenario | entrypoints/github.content/markup.ts:21-56 | A new `x.txt` with lines `+a`, `+b` is added, with code `a\nb`, language id `txt` and path `x.txt`. |
| Text.Trim | utils/templateRenderer.ts:23 | Neither end of the result is whitespace. The result is a contiguous slice of the input with only whitespace before and after it. |
| Text.TrimUnique | utils/templateRenderer.ts:23 | A whitespace prefix, an edge-clean middle and a whitespace suffix trim to exactly that middle. |
| Text.TrimIdempotent | utils/templateRenderer.ts:23 | Trimming twice is trimming once. |
| Text.CollapseWhitespace | utils/templateRenderer.ts:29 | The result has the same words (maximal non-whitespace runs) as the input, in order. It is empty exactly when the input is. It starts with whitespace exactly when the input does, and ends with whitespace exactly when the input does. Every whitespace character left is a space, and no two are adjacent. So each whitespace run became exactly one space; `Text.CollapseUnique` shows these clauses fix the result. |
| Text.CollapseFixpoint | utils/templateRenderer.ts:29 | Already-collapsed text is left unchanged. |
| Text.CollapseIdempotent | utils/templateRenderer.ts:29 | Collapsing twice is collapsing once. |
| Text.WordLengthMaximal | utils/templateRenderer.ts:29 | The run `Words` takes at each step is maximal: no whitespace inside it, and whitespace or the end of the text right after it. The words are therefore exactly the runs `\s+` separates. |
| Text.CollapseIsJoinedWords | utils/templateRenderer.ts:29 | The collapsed text is the input's words joined by single spaces. One space is added in front when the input starts with whitespace, and one behind when it ends with whitespace after some word. |
| Text.CollapseUnique | utils/templateRenderer.ts:29 | Any text of single spaces between non-whitespace characters, with the input's words and the input's leading and trailing whitespace, is the collapsed input. |
| TemplateRenderer.TrimWhitespaceHelper | utils/templateRenderer.ts:20-25 | The helper's output is the rendered block trimmed: edge-clean and framed by whitespace in the block. |
| TemplateRenderer.CollapseWhitespaceHelper | utils/templateRenderer.ts:26-31 | The helper's output has single spaces only and no newline. It keeps the rendered block's words, in order, and starts and ends with whitespace exactly when the block does. |
| TemplateRenderer.DummyContextWellFormed | utils/templateRenderer.ts:33-59 | The dummy context is well formed, with only `isModified` and two hunks. Its language id is what the builder gives a modified `.txt` file, and it is exactly the context the builder makes for a modified `text.txt` with those hunks. |
| TemplateRenderer.DummyDiffClassified | utils/templateRenderer.ts:34-42 | The dummy's file is a modified `text.txt` with extension `txt` and language id `diff-txt`. |
| TemplateRenderer.DummyLangId | utils/templateRenderer.ts:40 | A modified `.txt` file gets the language id `diff-txt` that the dummy context carries. |
| TemplateRenderer.DummyPathMatched | utils/templateRenderer.ts:41-42 | `b/text.txt` matches with path and name `text.txt` and extension `txt`. |
| TemplateRenderer.DummyHunks | utils/templateRenderer.ts:37-58 | The builder's hunk list for the dummy diff is the dummy's hunk list. |
| TemplateRenderer.Validate | utils/templateRenderer.ts:67-70 | Passes exactly when evaluation against the dummy context succeeds, and otherwise fails with the engine's error. |
| TemplateRenderer.ValidateIgnoresOtherContexts | utils/templateRenderer.ts:67-70 | Only the engine's behaviour on the dummy context matters to `validate`. |
| TemplateRenderer.GetTemplateRenderer | utils/templateRenderer.ts:74-82 | Returns the slot's renderer. It creates one only when the slot is empty. |
| TemplateRenderer.RendererCreatedOnce | utils/templateRenderer.ts:74-82 | Over any number of calls, at most one renderer is created and every call returns the same one. |
| Sandbox.Retry | utils/sandbox.ts:16-27 | The run resolves with the first returned value after only failures. It rethrows the error of a failing call, and only of a call whose `attempts` argument is below 1. The `k`-th wait is the `baseMs` argument of the `k`-th call, waited only because that call's `attempts` was at least 1. There is one wait before each call but the first. When the outcomes run out it is still retrying, all of them having failed. |
| Sandbox.FirstSuccessNoWait | utils/sandbox.ts:21-22 | A first call that returns is the result, with no wait. |
| Sandbox.NoAttemptsLeftRethrows | utils/sandbox.ts:23-24 | A failure while `attempts < 1` rethrows that error with no wait. |
| Sandbox.OneFailureThenSuccess | utils/sandbox.ts:16-26 | With the defaults, one failure then a success resolves after two calls and one 500 ms wait. |
| Sandbox.SwappedStep | utils/sandbox.ts:24-26 | A failure with attempts left waits `baseMs` and recurses with `(attempts - 1, baseMs * 2)` in the `(baseMs, attempts)` positions. |
| Sandbox.AttemptsNeverRunOut | utils/sandbox.ts:26 | From any pair with `baseMs >= 2` and `attempts >= 3`, the swapped recursion keeps that invariant, so the `attempts` argument never falls below 1. |
| Sandbox.DefaultAttemptsSequence | utils/sandbox.ts:16-27 | From (500, 5) the `attempts` argument runs 1000, 8, 1998, 14. |
| Sandbox.AlwaysFailingNeverAbandoned | utils/sandbox.ts:24-26 | A task that always throws is never given up on. |
| Sandbox.AsWrittenSixFailures | utils/sandbox.ts:24-26 | Six failures under the defaults leave `retry` still retrying, after waits of 500, 4, 999, 7, 1997 and 13 ms. |
| Sandbox.RetryIntended | utils/sandbox.ts:16-27 | The same policy with the recursion's arguments in declared order. It makes at most `attempts + 1` calls. |
| Sandbox.IntendedDoubling | utils/sandbox.ts:24-26 | One unrolled step of the corrected policy. |
| Sandbox.IntendedGivesUpAfterSixCalls | utils/sandbox.ts:16-27 | With the arguments in order, an always-failing task is called six times, waits 500, 1000, 2000, 4000 and 8000 ms, and then rethrows the sixth error. |
| Sandbox.SendMessage | utils/sandbox.ts:42-65 | A new request is pending with its listener registered and its timer armed. The envelope carries the command, the message and the request's id. |
| Sandbox.Deliver | utils/sandbox.ts:50-63 | A message with another id changes nothing, and a settled request keeps its outcome. |
| Sandbox.Settle | utils/sandbox.ts:50-58 | Settling a promise only takes effect while it is pending. It has no contract of its own; `Sandbox.SettledStaysSettled` states the consequence. |
| Sandbox.CleanUp | utils/sandbox.ts:60-63 | Removes the listener and clears the timer. It has no contract of its own; `Sandbox.DeliverConsistent` states that both go together with settlement. |
| Sandbox.Run | utils/sandbox.ts:50-63 | Delivering a sequence of events keeps the request's id and leaves a settled request settled. `Sandbox.FirstEventWins` gives the outcome. |
| Sandbox.DeliverConsistent | utils/sandbox.ts:50-63 | The listener and the timer are live exactly while the request is pending. |
| Sandbox.SettledStaysSettled | utils/sandbox.ts:50-63 | Once settled, no later event changes the request. |
| Sandbox.FirstEventWins | utils/sandbox.ts:50-63 | The outcome is decided by the first settling event, as the reference `FirstSettlement` defines it. The listener and the timer are gone exactly when the request is settled. |
| Sandbox.FirstSettlementSkips | utils/sandbox.ts:54-59 | Messages for other ids are skipped. |
| Sandbox.TimeoutRejects | utils/sandbox.ts:50-53 | A request whose timer fires before any matching response is rejected with "Request timed out". |
| TemplatesRepo.ToDB | utils/templatesRepo.ts:58-61 | The stored flag is 1 exactly when `isDefault` holds. Every other field is copied. |
| TemplatesRepo.FromDB | utils/templatesRepo.ts:62-65 | `isDefault` holds exactly when the stored flag is 1. Every other field is copied. |
| TemplatesRepo.FromToDB | utils/templatesRepo.ts:58-65 | `fromDB(toDB(t)) == t`. |
| TemplatesRepo.ToFromDB | utils/templatesRepo.ts:51-65 | `toDB(fromDB(d)) == d` for a stored record whose flag is 0 or 1. |
| TemplatesRepo.KeyLessTransitive | utils/idb.ts:5-8 | The key order of the store is transitive. |
| TemplatesRepo.KeyLessTotal | utils/idb.ts:5-8 | Any two distinct keys are ordered. |
| TemplatesRepo.MinKey | utils/templatesRepo.ts:118-122 | The first key of a non-empty set in key order. |
| TemplatesRepo.SortedKeys | utils/templatesRepo.ts:131-135 | The keys of a set, each once, in ascending key order. |
| TemplatesRepo.CreateOrUpdate | utils/templatesRepo.ts:72-75 | Adds the record under its id or replaces the one there, and reads back as the given template. No other record changes. |
| TemplatesRepo.Delete | utils/templatesRepo.ts:77-80 | Removes exactly the given id. No other record changes. |
| TemplatesRepo.GetOne | utils/templatesRepo.ts:124-128 | Returns the record exactly when the id is stored, and it is the stored record read back. |
| TemplatesRepo.GetAll | utils/templatesRepo.ts:131-135 | Every stored record, read back, once each, in ascending key order. |
| TemplatesRepo.GetDefault | utils/templatesRepo.ts:118-122 | Null exactly when no stored record is default. Otherwise it is a default record read back, the first default in key order. |
| TemplatesRepo.ClearOthers | utils/templatesRepo.ts:90-102 | The first pass of `setDefault`: every default other than the target is rewritten as not default with `updatedAt = now`, and every other record keeps its value. No key is added or removed. |
| TemplatesRepo.FirstDefaultIsLeast | utils/templatesRepo.ts:118-135 | In a listing of the store in ascending id order, the first default record has the least id among all defaults. |
| TemplatesRepo.SetDefault | utils/templatesRepo.ts:82-116 | The keys are unchanged. Afterwards the target is the only default, or no record is default when the target is absent. Prior defaults and the target are rewritten with `updatedAt = now` and keep their other fields. All other records are untouched. |
| TemplatesRepo.PutThenGetOne | utils/templatesRepo.ts:72-75 | After `createOrUpdate(t)`, `getOne(t.id)` is `t` and every other id reads as before. |
| TemplatesRepo.DeleteThenGetOne | utils/templatesRepo.ts:77-80 | After `delete(id)`, `getOne(id)` is null and every other id reads as before. |
| TemplatesRepo.DeleteAbsentIsNoOp | utils/templatesRepo.ts:77-80 | Deleting an id that is not stored changes nothing. |
| TemplatesRepo.FirstDefaultAt | utils/templatesRepo.ts:118-122 | The reference lookup returns the first default of a list, or null when the list has none. |
| TemplatesRepo.FirstDefaultOfGetAll | utils/templatesRepo.ts:118-135 | The first default in `getAll` is the record `getDefault` returns. |
| TemplatesRepo.NoDefaultInGetAll | utils/templatesRepo.ts:118-135 | When `getAll` holds no default, the store holds none. |
| TemplatesRepo.GetDefaultIsFirstOfGetAll | utils/templatesRepo.ts:118-135 | `getDefault` equals the first default record of `getAll`. |
| TemplatesRepo.GetDefaultReturnsTheDefault | utils/templatesRepo.ts:118-122 | With at most one default stored, `getDefault` returns it. |
| TemplatesRepo.SetDefaultThenGetDefault | utils/templatesRepo.ts:82-122 | After `setDefault(id)` on a stored id, there is at most one default, and `getDefault` returns that record, freshly stamped, even if several records were default before. |
| TemplatesRepo.SetDefaultAbsentClearsAll | utils/templatesRepo.ts:90-113 | After `setDefault` on an absent id, no record is default. |
| TemplatesRepo.SetDefaultIdempotent | utils/templatesRepo.ts:82-116 | Setting the same default twice at the same instant is setting it once. |
| TemplatesService.GetAllTemplates | utils/templatesService.ts:46-48 | Every stored template, once each, as `getOne` would return it, in ascending id order. |
| TemplatesService.GetDefaultTemplate | utils/templatesService.ts:50-52 | Null exactly when no stored template is default. Otherwise it is a stored default template, the first by id. |
| TemplatesService.DeleteTemplate | utils/templatesService.ts:88-90 | The template can no longer be read, and every other record is untouched. |
| TemplatesService.SetDefaultTemplate | utils/templatesService.ts:92-94 | No record appears or disappears. Afterwards the target is the only default, or none is when the target is absent, and `getDefaultTemplate` returns the target. Only the target and the former defaults are rewritten. Each of them changes its flag and `updatedAt` and nothing else, and every other record is untouched. |
| TemplatesService.CreateTemplate | utils/templatesService.ts:54-65 | The new record has the given id, name, content and clock readings, and is not default. It is stored and reads back as returned. With a fresh id every existing record is unchanged. |
| TemplatesService.UpdateTemplate | utils/templatesService.ts:67-86 | Fails with "Template not found" exactly when the id is not stored, and then the store is unchanged. Otherwise the record keeps its id, `isDefault` and `createdAt`, takes the new name and content and `updatedAt = now`, is stored and is returned. |
| TemplatesService.CreateWithTakenIdReplaces | utils/templatesService.ts:54-65 | An id already in use is overwritten. |
| TemplatesService.ServiceKeepsAtMostOneDefault | utils/templatesService.ts:54-94 | Create, update, delete and set-default each preserve "at most one default". |
| TemplateTransfer.ToTemplates | entrypoints/popup/components/TemplateTransfer.tsx:65-75 | One template per element, in order. Each has the element's name and content, is not default, and takes its id and times from the supplied stamps. |
| TemplateTransfer.ValidImport | entrypoints/popup/components/TemplateTransfer.tsx:54-63 | The format check: an array whose every element has string `name` and `content`. It has no contract of its own; `TemplateTransfer.ImportAllOrNothing` and `TemplateTransfer.OneBadElementRejectsAll` state its role. |
| TemplateTransfer.SuccessMessage | entrypoints/popup/components/TemplateTransfer.tsx:77-80 | The success alert text with the count in decimal. It has no contract of its own; `TemplateTransfer.HandleImport` states when it is shown. |
| TemplateTransfer.HandleImport | entrypoints/popup/components/TemplateTransfer.tsx:44-87 | Nothing happens without a file. `onImport` is called only for a parsed array in which every element has a string name and content. Then it receives all the new templates, and the alert reports the count or the failure. Otherwise the alert reports the failure. |
| TemplateTransfer.ImportAllOrNothing | entrypoints/popup/components/TemplateTransfer.tsx:54-76 | `onImport` is called exactly when the file parses and passes the format check, and then with as many templates as elements. |
| TemplateTransfer.OneBadElementRejectsAll | entrypoints/popup/components/TemplateTransfer.tsx:54-83 | One element without a string name rejects the whole file. |
| TemplateTransfer.EmptyArrayImportsNothing | entrypoints/popup/components/TemplateTransfer.tsx:54-80 | An empty array is accepted, and zero templates are reported. |
| TemplateTransfer.ExportThenImport | entrypoints/popup/components/TemplateTransfer.tsx:65-75 | Importing exported templates passes the check and gives back their names and contents, in order. None of them is default, and they carry the new ids and times. |
| TemplateList.Compare | entrypoints/popup/components/TemplateList.tsx:51-55 | Negative whenever the first template is default. Positive when only the second is. Between two non-default templates it is negative exactly when the first was updated later, and zero exactly when both were updated at the same time. |
| TemplateList.CompareConsistent | entrypoints/popup/components/TemplateList.tsx:51-55 | Unless both templates are default, the comparator is antisymmetric and its sign agrees with "default first, then newest first". |
| TemplateList.CompareInconsistentOnTwoDefaults | entrypoints/popup/components/TemplateList.tsx:52 | With two defaults, each is put before the other. |
| TemplateList.SingleDefaultPosition | entrypoints/popup/components/TemplateList.tsx:52-53 | With at most one default, no two positions hold a default. |
| TemplateList.Insert | entrypoints/popup/components/TemplateList.tsx:51-55 | Inserting into an ordered list keeps it ordered and adds exactly the new element. |
| TemplateList.SortTemplates | entrypoints/popup/components/TemplateList.tsx:51-55 | The result is a permutation of the input in the comparator's order. The input is an immutable value. |
| TemplateList.SortedOrder | entrypoints/popup/components/TemplateList.tsx:50-55 | With at most one default, the default comes first and the others are newest first. The comparator accepts every pair in the result. |
| TemplateList.InsertAtEnd | entrypoints/popup/components/TemplateList.tsx:51-55 | An element that belongs after all others is appended. |
| TemplateList.SortOrderedIsIdentity | entrypoints/popup/components/TemplateList.tsx:51-55 | With at most one default, sorting an ordered list changes nothing. |
| TemplateList.SortIdempotent | entrypoints/popup/components/TemplateList.tsx:51-55 | With at most one default, sorting twice is sorting once. |
| TemplateList.ChooseView | entrypoints/popup/components/TemplateList.tsx:29-55 | The branches in order: the spinner while loading, then a non-empty error, then the empty card, then the sorted cards. |
| TemplateForm.Validate | entrypoints/popup/components/TemplateFormModal.tsx:46-60 | A blank trimmed name gives "Template name is required". A blank trimmed body gives the required message. A parse failure replaces the body error with its message, or with "Invalid Mustache syntax". |
| TemplateForm.Submit | entrypoints/popup/components/TemplateFormDialog.tsx:51-90 | The form is marked validated. With any error, `onSave` is not called and the errors are shown. Otherwise `onSave` gets the trimmed name and body (and the checkbox in the dialog). A resolved save closes the form. A rejected one leaves only a general error. |
| TemplateForm.SubmitSavesIff | entrypoints/popup/components/TemplateFormModal.tsx:48-71 | `onSave` is called exactly when the trimmed name and body are non-empty and the body parses. |
| TemplateForm.SubmitWithoutErrors | entrypoints/popup/components/TemplateFormDialog.tsx:75-82 | A form that passes validation calls `onSave` with its trimmed name and body, plus the checkbox in the dialog. |
| TemplateForm.EmptyParseMessageStillBlocks | entrypoints/popup/components/TemplateFormModal.tsx:57-65 | A parse error with an empty message still blocks the save. |
| TemplateForm.ModalOpen | entrypoints/popup/components/TemplateFormModal.tsx:33-40 | On show, the fields take the template's values, or blanks for a new one, and the errors and the validated mark are cleared. While hidden, nothing changes. |
| TemplateForm.DialogInit | entrypoints/popup/components/TemplateFormDialog.tsx:43-49 | The checkbox starts ticked exactly when the template is the current default, so a new template starts unticked. The fields and the errors are initialised as in the modal. |
| TemplateForm.Close | entrypoints/popup/components/TemplateFormDialog.tsx:92-99 | Name, body, the validated mark and the errors are reset, and `onClose` is called. The dialog also resets `isDefault`. |
| TemplateForm.SubmitAfterCloseRefused | entrypoints/popup/components/TemplateFormModal.tsx:48-53 | After a reset, a submit is refused with both required-field messages. |
| TemplateForm.OpenThenSubmitSavesTrimmed | entrypoints/popup/components/TemplateFormModal.tsx:33-71 | Opening on a template and submitting unchanged saves its trimmed name and body. |

## Left out

- The template engines (Mustache and Handlebars compile and render), `mustache.parse`, jsdiff's `parsePatch` and `JSON.parse` are foreign libraries. The engine is a function parameter. The parse results are inputs.
- TemplateRenderer.Render has no contract of its own. It is the engine applied to the caller's context.
- IndexedDB, the `idb` wrapper, transactions and proxy-service registration are left out. The store is a map, and each repository operation is one atomic step.
- The `Flag` type allows only 0 and 1. A stored `isDefault` of any other value, written around this code, is not modelled.
- TemplatesRepo.KeyLess compares keys character by character as Unicode scalar values. IndexedDB compares UTF-16 code units. The two orders differ only when a character outside the Basic Multilingual Plane is compared with one from U+E000 to U+FFFF.
- TemplatesRepo.SetDefault stamps every rewritten record with one clock value `now`. The source reads the clock once per record.
- TemplateList.SortTemplates does not state stability, although the insertion it uses keeps tied elements in input order. With two defaults, JavaScript leaves the order implementation-defined, while the model gives insertion-sort order. The ordering lemmas therefore require at most one default.
- Sandbox.Retry records waits as numbers instead of sleeping. When the supplied outcomes run out it reports `StillRetrying`, because the source would call the task again.
- The 50 ms timer value, `postMessage`, window listeners and the iframe creation in `ensureSandboxContentWindow` are DOM and timing. Only the correlation and the settle-once logic are kept.
- Sandbox.SendMessage: the fresh `messageId` is a parameter, not `crypto.randomUUID`.
- Sandbox.SendMessage: the target window is not modelled; the model treats the target as a window other than the one listening. With the default `targetWindow = window`, the posted envelope `{ command, messageId, message }` would itself reach the listener with a matching `messageId`. The request would then settle with its own request payload. That self-delivery is not modelled.
- Export in TemplateTransfer is not modelled: Blob, the downloads API and `JSON.stringify`. `Exported` only describes the JSON shape an exported template has, for the round-trip lemma.
- JSON numbers are integers in the model, since import never reads them.
- The `finally` that clears the file input is DOM and is not modelled. So are alert dismissal, React rendering and the state hooks.
- Markup.StripJoinedLines and Markup.HunkCodeByLines assume that no hunk line holds a line terminator. `HunkCode` itself handles any text, treating `\n`, `\r`, U+2028 and U+2029 as line starts.
- DiffPath.GetFilePath keeps the source's check for `dev/null` without a slash, while `Markup.Classify` checks for `/dev/null`. Both are modelled as written.
- Content-script routing, the background fetch, DOM polling, icons and the build configuration are outside the core.

## Findings

| source | as written | input that shows it | evidently intended | confidence | as-written member | corrected member |
|---|---|---|---|---|---|---|
| utils/sandbox.ts:26 | `retry(task, attempts - 1, baseMs * 2)` passes the remaining attempts as `baseMs` and the doubled delay as `attempts` | A task that always throws, with the defaults (500, 5). The waits run 500, 4, 999, 7, 1997, 13, … and `attempts` never drops below 1, so the retries never stop. | `retry(task, baseMs * 2, attempts - 1)`: waits 500, 1000, 2000, 4000, 8000, then rethrow after six calls | high (not executed) | Sandbox.AsWrittenSixFailures | Sandbox.IntendedGivesUpAfterSixCalls |
