# vibe-bench core, modelled in Dafny

vibe-bench is a web application where people submit their solutions to
coding "benchmarks" (task definitions). Visitors like submissions, and
administrators curate both benchmarks and submissions. This project models
the application's core: the server actions, the read queries, the role
logic of the authentication setup, the client-side state of the like button,
the submit form and the navigation bar, and the database seed. It proves
properties of each of them.

The store (a relational database in the application) is a class `Store.Db`.
It has three fields that the actions reassign atomically:

- the benchmark rows;
- the submission rows;
- the set of Like rows, keyed by their unique pair (submission, fingerprint).

`Store.WellFormed` is the invariant that every action keeps:

- every reference points at a stored row;
- every denormalised `likeCount` equals the number of Like rows of its
  submission.

Each writing action is a method, proved equal to a pure function on the
tables (`Toggle`, `Moderate`, `Create`, `Update`, `Delete`). The lemmas about
those functions state what the application promises. Inputs the application
gets from its environment are explicit parameters:

- the session;
- the form data;
- the request headers;
- the clock (`now`);
- the ids the store would generate (`newId`);
- SHA-256 (`hash`);
- the URL and e-mail checks of the validation library (`isUrl`, `isEmail`);
- the file upload (`upload`);
- any failure of the store (`fault`).

The modules follow the source files:

| module | source |
|---|---|
| `Common`, `Forms` | JavaScript string and `FormData` behaviour the actions rely on |
| `Store` | the entities and the database |
| `Auth` | `src/lib/auth.ts` |
| `LikeActions` | `src/lib/actions/like.ts` |
| `SubmitActions` | `src/lib/actions/submit.ts` |
| `ModerationActions` | `src/lib/actions/admin.ts` |
| `BenchmarkActions` | `src/lib/actions/benchmark.ts` |
| `Listing`, `BenchmarkQueries` | `src/lib/api/benchmarks.ts` |
| `SubmissionQueries` | `src/lib/api/submissions.ts` |
| `Navbar` | `src/components/ui/navbar.tsx` |
| `LikeButton` | `src/components/submissions/like-button.tsx` |
| `SubmitForm` | `src/components/benchmarks/submit-form.tsx` |
| `Seed` | `prisma/seed.ts` |

Some things the code does not pin down are settled as follows:

- **Deleting a referenced benchmark.** The Prisma schema is not part of this
  model. Deleting a benchmark that any submission refers to is taken to fail
  (Prisma's default referential action, Restrict, on a required relation).
- **Validation.** It follows zod version 3. A failed field check marks the
  parse as failed but does not stop it, so the evidence rule (`.refine`) is
  still checked and reported.
- **List order.** The lists are ordered by creation time, newest first.
  Rows created at the same instant may come in any order, as in SQL. Each
  query is therefore a ghost function: it returns one of the admissible
  orders, characterised by `Listing.NewestFirstOf`.

## Model

| member | source | states |
|---|---|---|
| `Common.Or` | src/lib/actions/submit.ts:72-73 | `a \|\| b` on an optional string: the value when it is non-empty, the fallback otherwise |
| `Common.NullIfEmpty` | src/lib/actions/submit.ts:117-120 | `x \|\| null`: None exactly for the empty string, the string itself otherwise |
| `Common.Split` | src/lib/auth.ts:15 | `split(sep)`: at least one piece, no piece contains the separator, and joining the pieces with it gives back the input |
| `Common.SplitJoin` | src/lib/auth.ts:15 | splitting a joined list of separator-free strings gives back the list |
| `Common.SplitNoSep` | src/lib/auth.ts:15 | a string without the separator splits into itself alone |
| `Common.SplitAppend` | src/lib/actions/submit.ts:114 | `(x + sep + y).split(sep)` is `x.split(sep)` followed by `y.split(sep)` |
| `Common.TrimStart` | src/lib/actions/submit.ts:115 | the result is a suffix of the input, all it drops is whitespace, and it does not start with whitespace |
| `Common.TrimEnd` | src/lib/actions/submit.ts:115 | the result is a prefix of the input, all it drops is whitespace, and it does not end with whitespace |
| `Common.Trim` | src/lib/actions/submit.ts:115 | `trim()`: no whitespace at either end, empty exactly when the input is all whitespace, and equal to `TrimEnd(TrimStart(s))` |
| `Common.TrimIsInfix` | src/lib/actions/submit.ts:115 | the trimmed string is the infix of the input between a leading and a trailing run of whitespace |
| `Common.TrimChars` | src/lib/actions/submit.ts:115 | every character of the trimmed string occurs in the input |
| `Common.TrimTrimmed` | src/lib/actions/submit.ts:115 | a string with no whitespace at its ends trims to itself |
| `Common.TrimIdempotent` | src/lib/actions/submit.ts:115 | trimming twice is trimming once |
| `Common.NonEmpty` | src/lib/actions/submit.ts:116 | `.filter(Boolean)`: keeps exactly the non-empty entries; their order and repeats are fixed by `Common.NonEmptyAppend` and `Common.NonEmptyOne` |
| `Common.NonEmptyAppend` | src/lib/actions/submit.ts:116 | filtering a concatenation is the concatenation of the filtered parts, so the order and the repeats of the kept entries are those of the input |
| `Common.NonEmptyOne` | src/lib/actions/submit.ts:116 | a single entry is kept exactly when it is non-empty |
| `Common.TrimAll` | src/lib/actions/submit.ts:115 | `.map((p) => p.trim())`: same length, each entry trimmed |
| `Common.TrimAllAppend` | src/lib/actions/submit.ts:115 | trimming every entry of a concatenation trims every entry of each part |
| `Forms.GetAll` | src/lib/actions/submit.ts:76 | `formData.getAll(name)`: the values submitted under the name and no others; their order and repeats are fixed by `Forms.GetAllOne` and `Forms.GetAllAppendAt` |
| `Forms.Get` | src/lib/actions/benchmark.ts:29-33 | `formData.get(name)`: null exactly when no entry has the name, otherwise a submitted value |
| `Forms.GetIsFirstOfAll` | src/lib/actions/benchmark.ts:29-33 | `get` returns the first of the values `getAll` lists |
| `Forms.Field` | src/lib/actions/submit.ts:67-71 | `(get(name) as string) \|\| ''`: the submitted value when it is non-empty, the empty string when the field is missing or empty |
| `Forms.FromEntries` | src/lib/actions/submit.ts:62 | `Object.fromEntries(formData.entries())` has exactly the submitted names as keys |
| `Forms.GetAllAppendAt` | src/lib/actions/submit.ts:76 | `getAll` on two concatenated forms is the concatenation of the two |
| `Forms.GetAllOne` | src/lib/actions/submit.ts:76 | no entry gives no values; one entry gives its value exactly when its name matches |
| `Forms.FromEntriesKeepsLast` | src/lib/actions/submit.ts:62 | the echoed record keeps the last value of a repeated name |
| `Store.LikeCountNonNegative` | src/lib/actions/like.ts:41-76 | under the counter invariant no `likeCount` is negative |
| `Store.Db.State` | src/lib/actions/like.ts:41-76 | the store read as one value of three tables (the constructor starts it empty) |
| `Store.Db.Valid` | src/lib/actions/like.ts:41-76 | the store object satisfies the invariant `Store.WellFormed` |
| `Auth.AllowList` | src/lib/auth.ts:15 | the allow-list is exactly the non-empty comma-separated entries of `ADMIN_EMAILS`, untrimmed |
| `Auth.AllowListUnset` | src/lib/auth.ts:15 | an unset or empty variable gives an empty allow-list |
| `Auth.AllowListEntries` | src/lib/auth.ts:15 | `"a,b"` gives the entries `a` and `b`, character for character |
| `Auth.IsAdmin` | src/lib/actions/admin.ts:8-18 | `checkAdmin`: an admin session is a present session whose user role is `'ADMIN'` |
| `Auth.CreatedRole` | src/lib/auth.ts:34-55 | the role a new user is stored with: the default role field, then the creation hook (proved about in `Auth.CreatedRoleDecided`) |
| `Auth.WithDefaultRole` | src/lib/auth.ts:47-55 | the `role` field defaults to `'USER'` and nothing else changes |
| `Auth.BeforeCreate` | src/lib/auth.ts:34-43 | the creation hook keeps every field and sets the role to `'ADMIN'` exactly when the e-mail is on the allow-list, `'USER'` otherwise |
| `Auth.CreatedRoleDecided` | src/lib/auth.ts:15-55 | a new user is stored as ADMIN exactly when the e-mail is a non-empty allow-list entry, as USER otherwise, whatever role the input carried; with the variable unset, always USER |
| `LikeActions.ClientIp` | src/lib/actions/like.ts:14 | `x-forwarded-for` when it is non-empty, else `x-real-ip` when it is non-empty, else `'unknown'`; never empty |
| `LikeActions.UserAgent` | src/lib/actions/like.ts:15 | the `user-agent` header when it is non-empty, else `'unknown'`; never empty |
| `LikeActions.FingerprintSourcePrefix` | src/lib/actions/like.ts:16-18 | a signed-in requester's hashed string is the anonymous one behind a `userId-` prefix |
| `LikeActions.FingerprintSource` | src/lib/actions/like.ts:18 | the hashed string: `userId-ip-ua` when a user id is given, `ip-ua` otherwise |
| `LikeActions.First32` | src/lib/actions/like.ts:20 | `slice(0, 32)`: a prefix of at most 32 characters, exactly 32 when the input has as many, the whole input when it is shorter |
| `LikeActions.Fingerprint` | src/lib/actions/like.ts:12-21 | the fingerprint is the prefix of the hash of the source string that has 32 characters, or all of the hash when it is shorter |
| `LikeActions.Toggle` | src/lib/actions/like.ts:30-80 | the toggle succeeds exactly when the submission exists; it creates the Like row when absent and removes it when present, reports which, and changes no other Like row; on failure nothing changes |
| `LikeActions.ToggleFrame` | src/lib/actions/like.ts:41-76 | only the toggled submission changes, and only its counter, by +1 on a like and -1 on an unlike |
| `LikeActions.LikersInsert` | src/lib/actions/like.ts:57-72 | creating the row adds the fingerprint to that submission's likers only |
| `LikeActions.LikersRemove` | src/lib/actions/like.ts:41-56 | deleting the row removes the fingerprint from that submission's likers only |
| `LikeActions.TogglePreservesWellFormed` | src/lib/actions/like.ts:30-80 | the transaction keeps every `likeCount` equal to the number of Like rows |
| `LikeActions.ToggleTwice` | src/lib/actions/like.ts:30-80 | toggling twice with the same fingerprint restores the store, and the second answer is the opposite of the first |
| `LikeActions.CheckLiked` | src/lib/actions/like.ts:86-103 | `checkLiked` is true exactly when the requester's fingerprint has liked the submission; a store failure reads as false |
| `LikeActions.ToggleLike` | src/lib/actions/like.ts:27-81 | `toggleLike` performs `Toggle` for the requester's fingerprint and keeps the invariant; on a store failure nothing changes and the error is reported; a reported `liked` agrees with `checkLiked` afterwards |
| `SubmitActions.RawData` | src/lib/actions/submit.ts:66-77 | the author name falls back to the session name and then to `'Anonymous'`, so it is never empty; the e-mail falls back to the session e-mail; the file list is every `chatLogFiles` value |
| `SubmitActions.RawDataReadsForm` | src/lib/actions/submit.ts:66-77 | the benchmark id, repository URL, base model, coding tool, plugin string, chat-log URL and chat-log text are the submitted values read through `Forms.Field` |
| `SubmitActions.AllFieldsListed` | src/lib/actions/submit.ts:9-21 | the error record's keys are the ten schema fields |
| `SubmitActions.FileMessages` | src/lib/actions/submit.ts:20 | one `'Invalid url'` message per entry that is not a URL; none exactly when all are URLs |
| `SubmitActions.FieldErrors` | src/lib/actions/submit.ts:9-33 | the field errors list each failing field with its messages, and are empty exactly when the input passes every field check and the evidence rule |
| `SubmitActions.NoEvidenceRejected` | src/lib/actions/submit.ts:22-33 | with no chat-log URL, text or file, `chatLogUrl` reports exactly the evidence message |
| `SubmitActions.AnyEvidenceSuffices` | src/lib/actions/submit.ts:22-33 | any one of the three kinds of evidence satisfies the rule, so no field reports its message |
| `SubmitActions.RequiredFieldsReported` | src/lib/actions/submit.ts:12-15 | a non-URL repository or an empty base model, coding tool or plugin string is reported on its field with its message |
| `SubmitActions.Acceptable` | src/lib/actions/submit.ts:9-33 | the schema accepts the input: a URL repository, non-empty base model, coding tool and plugin strings, a valid e-mail and chat-log URL when given, URL files, and some chat-log evidence |
| `SubmitActions.Messages` | src/lib/actions/submit.ts:12-20 | the messages the schema rule of one field reports |
| `SubmitActions.ParsePlugins` | src/lib/actions/submit.ts:113-116 | `split(',').map(trim).filter(Boolean)` (its properties are the three lemmas that follow) |
| `SubmitActions.ParsedPluginsAreClean` | src/lib/actions/submit.ts:113-116 | every stored plugin is non-empty, free of commas and trimmed |
| `SubmitActions.ParsePluginsField` | src/lib/actions/submit.ts:113-116 | a comma-free field yields its trimmed text, or nothing when it is blank |
| `SubmitActions.ParsePluginsAppend` | src/lib/actions/submit.ts:113-116 | the plugins of `x + "," + y` are those of `x` followed by those of `y`: input order and repeats are kept |
| `SubmitActions.ParsePluginsExample` | src/lib/actions/submit.ts:113-116 | `"pandas, matplotlib, "` is stored as `["pandas", "matplotlib"]` |
| `SubmitActions.BlankPluginsAccepted` | src/lib/actions/submit.ts:15 | the plugin string `", "` passes validation yet is stored as an empty list |
| `SubmitActions.NewSubmission` | src/lib/actions/submit.ts:105-125 | the stored row is PENDING, owned by the session user, with a zero counter and the parsed plugins; each optional string is stored as `value \|\| null` |
| `SubmitActions.StoredAuthor` | src/lib/actions/submit.ts:72-73 | a stored submission always has an author name; its e-mail is null exactly when neither the form nor the session has one |
| `SubmitActions.InsertPreservesWellFormed` | src/lib/actions/submit.ts:105-125 | a new row under a fresh id, for an existing benchmark and with no likes, keeps the invariant |
| `SubmitActions.Submit` | src/lib/actions/submit.ts:54-136 | login required exactly without a session, with the form echoed; validation failure exactly for unacceptable input, with the field errors and the defaulted fields; success exactly for acceptable input the store can insert (known benchmark, fresh id, no fault), adding exactly one PENDING row; every other outcome leaves the store unchanged |
| `SubmitActions.SubmitPreservesWellFormed` | src/lib/actions/submit.ts:105-125 | a submission keeps the invariant |
| `SubmitActions.SubmitSolution` | src/lib/actions/submit.ts:54-136 | the action on the store is `Submit` and keeps the invariant |
| `ModerationActions.Moderate` | src/lib/actions/admin.ts:8-43 | refused exactly without an admin session; succeeds exactly for an admin, an existing submission and no store failure, and then changes that submission's status and nothing else; otherwise nothing changes |
| `ModerationActions.ModeratePreservesWellFormed` | src/lib/actions/admin.ts:20-43 | a status change keeps every reference and counter intact |
| `ModerationActions.ModerateLastWins` | src/lib/actions/admin.ts:20-43 | of two decisions only the last counts, and repeating a decision changes nothing |
| `ModerationActions.NonAdminCannotModerate` | src/lib/actions/admin.ts:8-18 | a session whose role is not `'ADMIN'` changes nothing |
| `ModerationActions.ApproveSubmission` | src/lib/actions/admin.ts:20-31 | `approveSubmission` is `Moderate` with APPROVED on the store |
| `ModerationActions.RejectSubmission` | src/lib/actions/admin.ts:33-43 | `rejectSubmission` is `Moderate` with REJECTED on the store |
| `ModerationActions.SetStatus` | src/lib/actions/admin.ts:21-26 | the admin check then the status update, as `Moderate` |
| `BenchmarkActions.ReadFields` | src/lib/actions/benchmark.ts:29-50 | the title is the submitted value, or empty when missing; each optional field null exactly when missing or empty, its value otherwise |
| `BenchmarkActions.ActiveFlag` | src/lib/actions/benchmark.ts:73 | `formData.get('isActive') === 'true'` |
| `BenchmarkActions.Deletable` | src/lib/actions/benchmark.ts:105-121 | the row exists and no submission refers to it, as the restricted relation requires |
| `BenchmarkActions.Create` | src/lib/actions/benchmark.ts:26-60 | unauthorised exactly without an admin session; `'Title is required'` exactly for an empty title; otherwise either the failure message with no change, or one new active row owned by the admin under the returned id, with every other row kept; it succeeds exactly for an admin, a non-empty title, no store failure and a fresh id, and the new row carries the title, description, requirement document, prototype URL and user stories read from the form |
| `BenchmarkActions.Update` | src/lib/actions/benchmark.ts:65-100 | same checks; on success every editable field and `isActive` come from the form, while the id, owner and creation time stay; an unknown id or a store failure gives the failure message and no change; it succeeds exactly for an admin, a non-empty title, no store failure and an existing id |
| `BenchmarkActions.Delete` | src/lib/actions/benchmark.ts:105-121 | succeeds exactly for an admin, no store failure and an unreferenced existing benchmark; removes only that row |
| `BenchmarkActions.CrudPreservesWellFormed` | src/lib/actions/benchmark.ts:26-121 | none of the three leaves a submission pointing at a missing benchmark |
| `BenchmarkActions.DeleteUndoesCreate` | src/lib/actions/benchmark.ts:26-121 | deleting a benchmark just created restores the store |
| `BenchmarkActions.ReferencedNotDeletable` | src/lib/actions/benchmark.ts:105-121 | a benchmark any submission refers to cannot be deleted |
| `BenchmarkActions.UpdateIdempotent` | src/lib/actions/benchmark.ts:65-100 | submitting the same edit twice gives the same benchmark |
| `BenchmarkActions.CreateBenchmark` | src/lib/actions/benchmark.ts:26-60 | the action on the store is `Create` and keeps the invariant |
| `BenchmarkActions.UpdateBenchmark` | src/lib/actions/benchmark.ts:65-100 | the action on the store is `Update` and keeps the invariant |
| `BenchmarkActions.DeleteBenchmark` | src/lib/actions/benchmark.ts:105-121 | the action on the store is `Delete` and keeps the invariant |
| `Listing.NewestFirst` | src/lib/api/benchmarks.ts:32-34 | `orderBy: { createdAt: 'desc' }`: every selected key exactly once, in non-increasing creation time |
| `Listing.NewestFirstSameKeys` | src/lib/api/benchmarks.ts:32-34 | the listing holds exactly the selected keys |
| `Listing.NewestFirstUnique` | src/lib/api/benchmarks.ts:32-34 | with distinct creation times there is only one such order |
| `BenchmarkQueries.ListingsOf` | src/lib/api/benchmarks.ts:26-30 | each listed benchmark comes with its number of submissions |
| `BenchmarkQueries.GetBenchmarks` | src/lib/api/benchmarks.ts:14-38 | `getBenchmarks()`: the active benchmarks only, each once, as stored, with its submission count, newest first |
| `BenchmarkQueries.GetAdminBenchmarks` | src/lib/api/benchmarks.ts:40-61 | `getAdminBenchmarks()`: every benchmark, each once, with its submission count, newest first |
| `BenchmarkQueries.GetBenchmarkById` | src/lib/api/benchmarks.ts:63-97 | null exactly for an unknown id, active or not; otherwise the benchmark with all of its submissions (every status), newest first, and their count |
| `BenchmarkQueries.DistinctLength` | src/lib/api/benchmarks.ts:88-92 | a list of distinct ids that are exactly those of a set is as long as the set is large, so the count equals the length of the list |
| `BenchmarkQueries.CreatedIsListed` | src/lib/actions/benchmark.ts:39-50 | a benchmark just created is on the public list with no submissions |
| `BenchmarkQueries.UpdateSetsVisibility` | src/lib/actions/benchmark.ts:73 | after an update the benchmark is public exactly when `isActive` was `'true'`, and on the admin list either way |
| `BenchmarkQueries.DeletedIsGone` | src/lib/actions/benchmark.ts:109-111 | a deleted benchmark is on neither list and is not found by id |
| `BenchmarkQueries.OnListing` | src/lib/api/benchmarks.ts:14-61 | a row is on a listing exactly when its benchmark is selected, shown as stored with its count |
| `BenchmarkQueries.PublicIsActivePartOfAdmin` | src/lib/api/benchmarks.ts:14-61 | the public list shows exactly the active rows of the admin list |
| `SubmissionQueries.GetAllSubmissions` | src/lib/api/submissions.ts:3-28 | `getAllSubmissions()`: every approved submission once, as stored, newest first; no pending or rejected one |
| `SubmissionQueries.GetSubmissionById` | src/lib/api/submissions.ts:30-51 | the stored row of whatever status, or null exactly for an unknown id |
| `SubmissionQueries.ListedIffApproved` | src/lib/api/submissions.ts:3-51 | a submission is on the public list exactly when approved, but is found by id whatever its status |
| `SubmissionQueries.ModerationDecidesListing` | src/lib/actions/admin.ts:20-43 | after approval a submission is listed; after rejection it is not |
| `SubmissionQueries.ToggleKeepsListing` | src/lib/actions/like.ts:30-80 | liking never changes which submissions are public |
| `SubmissionQueries.SubmittedIsNotListed` | src/lib/actions/submit.ts:123 | a new submission is stored as PENDING and readable by id, and the public list does not change |
| `Navbar.RefreshRole` | src/components/ui/navbar.tsx:6-33 | the session is unchanged without a user row; otherwise only the role changes, to the stored role or `'USER'` when that is null or empty |
| `Navbar.RefreshIdempotent` | src/components/ui/navbar.tsx:13-28 | refreshing twice is refreshing once |
| `Navbar.AdminFollowsStoredRole` | src/components/ui/navbar.tsx:13-28 | once the row is found, the admin controls show exactly when the stored role is `'ADMIN'`, whatever the session said |
| `Navbar.CreatedUserSeenAsCreated` | src/components/ui/navbar.tsx:13-28 | a user created by the hook is shown as admin exactly when the e-mail was allow-listed at creation |
| `LikeButton.Click` | src/components/submissions/like-button.tsx:20-25 | a click while pending does nothing; otherwise it flips `liked`, moves the count by one in the same direction, and marks the toggle pending |
| `LikeButton.Settle` | src/components/submissions/like-button.tsx:26-34 | at the end of the transition the button is enabled; success keeps the optimistic state, failure reverts it |
| `LikeButton.FailedClickRestores` | src/components/submissions/like-button.tsx:20-35 | a failed toggle leaves the button as it was before the click |
| `LikeButton.TwoClicksRestore` | src/components/submissions/like-button.tsx:20-35 | two successful clicks bring the button back to its start |
| `LikeButton.ClickAgreesWithServer` | src/components/submissions/like-button.tsx:20-35 | a button that agrees with the store before a click agrees after it, success or failure |
| `LikeButton.Button.constructor` | src/components/submissions/like-button.tsx:16-18 | the state starts from the initial props, not pending |
| `LikeButton.Button.HandleClick` | src/components/submissions/like-button.tsx:20-25 | the component's click is `Click` on its state |
| `LikeButton.Button.Complete` | src/components/submissions/like-button.tsx:26-34 | the answer of `toggleLike` settles the state as `Settle` |
| `SubmitForm.AfterUpload` | src/components/benchmarks/submit-form.tsx:22-46 | an empty selection or a failed upload leaves the list; otherwise the first file's URL is appended |
| `SubmitForm.OnlyFirstFileUploaded` | src/components/benchmarks/submit-form.tsx:27 | files after the first of a selection are ignored |
| `SubmitForm.Without` | src/components/benchmarks/submit-form.tsx:48-50 | removing a URL drops every copy of it and keeps every other URL as many times as before |
| `SubmitForm.WithoutAppend` | src/components/benchmarks/submit-form.tsx:48-50 | removal keeps the order of what stays |
| `SubmitForm.WithoutAbsent` | src/components/benchmarks/submit-form.tsx:48-50 | removing an absent URL changes nothing |
| `SubmitForm.RemoveUndoesUpload` | src/components/benchmarks/submit-form.tsx:22-50 | removing a newly uploaded URL, not listed before, undoes the upload |
| `SubmitForm.HiddenInputs` | src/components/benchmarks/submit-form.tsx:54-58 | the benchmark id, then one `chatLogFiles` input per listed URL, in order |
| `SubmitForm.FilesReachServer` | src/components/benchmarks/submit-form.tsx:54-58 | the server reads back exactly the form's file list, order and duplicates included |
| `SubmitForm.Form.constructor` | src/components/benchmarks/submit-form.tsx:18-19 | no files, not uploading |
| `SubmitForm.Form.HandleFileUpload` | src/components/benchmarks/submit-form.tsx:22-46 | the list becomes `AfterUpload` of the old one, and the uploading flag is down again afterwards |
| `SubmitForm.Form.RemoveFile` | src/components/benchmarks/submit-form.tsx:48-50 | the list becomes `Without` of the old one |
| `Seed.AdminEmail` | prisma/seed.ts:9-11 | the first comma-separated entry of `ADMIN_EMAILS`, or `admin@vibebench.ai` when it is unset or empty |
| `Seed.AdminEmailAllowed` | prisma/seed.ts:9-11 | the seeded address is on the allow-list, except that it is empty exactly when the variable starts with a comma |
| `Seed.UpsertUser` | prisma/seed.ts:14-25 | an existing user is kept untouched; otherwise one is created |
| `Seed.UpsertUserIdempotent` | prisma/seed.ts:14-25 | a second run finds the user of the first |
| `Seed.LowerChar` | prisma/seed.ts:94 | ASCII upper case to lower case, other characters unchanged |
| `Seed.Lower` | prisma/seed.ts:94 | `toLowerCase()` character by character |
| `Seed.Hyphenate` | prisma/seed.ts:94 | `replace(/\s+/g, '-')`: no whitespace left, no longer than the input |
| `Seed.HyphenateChars` | prisma/seed.ts:94 | hyphenating adds no character except the hyphen |
| `Seed.HyphenateNoSpace` | prisma/seed.ts:94 | a string without whitespace is unchanged |
| `Seed.Slug` | prisma/seed.ts:94 | the slug has no whitespace and no upper-case ASCII letter |
| `Seed.SlugIdempotent` | prisma/seed.ts:94 | a slug is its own slug |
| `Seed.SlugMergesRuns` | prisma/seed.ts:94 | titles differing only in the length of a whitespace run share a slug |
| `Seed.HyphenateSplit` | prisma/seed.ts:94 | a whitespace run between two words becomes one hyphen |
| `Seed.NewBenchmark` | prisma/seed.ts:30-90 | a seeded benchmark keeps its title and active flag and is owned by the system user |
| `Seed.NewSubmissions` | prisma/seed.ts:30-90 | the nested submissions point at their benchmark and start with no likes |
| `Seed.Insert` | prisma/seed.ts:93-97 | the create adds the benchmark row and its nested submissions under the given ids, each pointing at the new benchmark; every other submission is kept and no Like row is added |
| `Seed.UpsertAsWritten` | prisma/seed.ts:92-97 | as written: looked up by slug, created under a generated id |
| `Seed.RerunDuplicates` | prisma/seed.ts:92-97 | as written, a second run inserts a second row with the same title |
| `Seed.RerunDuplicatesLegacy` | prisma/seed.ts:92-97 | as written, two runs from an empty table leave two rows titled "Legacy PHP Migration" |
| `Seed.Upsert` | prisma/seed.ts:92-97 | corrected: the row is created under the slug it is looked up by, so it is found afterwards |
| `Seed.UpsertIdempotent` | prisma/seed.ts:92-97 | corrected: a second upsert changes nothing |
| `Seed.UpsertPreservesWellFormed` | prisma/seed.ts:92-97 | corrected: the upsert keeps the invariant when the generated submission ids are new |
| `Seed.SeedAll` | prisma/seed.ts:92-99 | corrected: after the loop every seeded title's slug is stored and no benchmark is lost |
| `Seed.SeedAllIdempotent` | prisma/seed.ts:92-99 | corrected: running the whole seed again changes nothing |
| `Seed.AllPresentNoOp` | prisma/seed.ts:92-99 | when every slug is stored already the loop is a no-op |

## Left out

- Input and output, the clock, id generation, SHA-256, the blob upload and the session provider are parameters. Request headers are a value; `revalidatePath`, `redirect` and `getLocale` are not modelled.
- Console logging, `alert` and the reset of the file input are not modelled.
- The proxy setup in `src/lib/auth.ts` (lines 6-13), the GitHub provider, the session expiry settings and the adapter are not modelled.
- Concurrency: each action is one atomic step; interleavings of concurrent requests are not modelled.
- The Prisma schema is not part of this model. Benchmark deletion is assumed to be restricted by referencing submissions, and `likeCount` to default to 0.
- The user table and the foreign keys `createdById` and `userId` are not modelled. Neither is the seeded system user's role.
- The Like row's own id and creation time, and every `updatedAt`, are not modelled.
- Read queries return the rows as stored; the `select` projections and the joined creator, user and benchmark fields are left out.
- The `/api/upload` route behind the form's upload is not part of this model.
- The key warning React gives for a URL listed twice is not modelled.
- `Seed.Lower`: lower-cases ASCII letters only, not the full Unicode case mapping of `toLowerCase()`.
- `SubmitActions.FieldErrors`: the URL and e-mail format rules of the validation library are parameters (`isUrl`, `isEmail`), not definitions.
- `Listing.NewestFirst`: the tie order of rows with equal creation times is left open, as the database leaves it.

## Findings

| source | as written | input that shows it | evidently intended | confidence | as-written member | corrected member |
|---|---|---|---|---|---|---|
| prisma/seed.ts:92-97 | the benchmark upsert looks the row up by `id` equal to the slug of its title, but `create: data` carries no `id`, so the row gets a generated id and the lookup never matches | running the seed twice on an empty database: both runs miss the lookup, leaving two rows titled "Legacy PHP Migration" (and two copies of each other benchmark and its submissions) | create the row with `id` set to the slug, so a second run finds it and changes nothing | not executed | `Seed.RerunDuplicatesLegacy` | `Seed.SeedAllIdempotent` |
