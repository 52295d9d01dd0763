# Drive: ownership-scoped folders, files and share links

A model, in Dafny, of the core of a small per-user file store written for Node
(Express, Prisma, Supabase storage). Signed-in users keep files in folders they own.
File contents live in an object bucket and their metadata in a relational store.
A folder can be published under a share token that expires after a number of days.

The model has these parts:

- **The two stores.** The relational store is a class `Metadata.MetadataStore`. It holds
  maps of users, folders, files and share links, plus autoincrement counters. Its
  invariant `Valid` says:
  - folder names are trimmed and unique per owner;
  - every file lies in an existing folder and has that folder's owner;
  - every share link points at an existing folder;
  - e-mails are unique.
- **The bucket.** The bucket is a class `BlobStorage.BlobStore`. It holds a set of object
  keys and a ghost log of the calls that change it. Each bucket call takes a flag saying
  whether the remote service answered without error.
- **The cross-store invariant.** `Metadata.Consistent` says that every file row points
  at an object that is in the bucket, and that no two rows share an object. Orphan
  objects are allowed.
- **The handlers.** Each handler of the folder, file and share controllers is a method.
  A handler that changes state states its whole new state and keeps both invariants.
  Read-only handlers change nothing. Every controller handler's outcome is one value of
  `Outcomes.Status`; registration has its own outcome type (`AuthController.RegisterOutcome`)
  and the upload middleware its own verdict (`FileRoutes.Admission`).
  The folder handlers report failures by redirecting with a flash message; the model
  names the kind of failure with the same status values.
- **Registration.** `AuthController.Register` is a guarded insert into the users
  table. The password hash is a function parameter.
- **Pure rules.** These are functions with lemmas: the upload type filter, the size
  limit, the temp-file name, the route table with its sign-in guard, and the browser
  checks of the sign-in and registration forms (including the password strength meter).

Clock readings are integers in milliseconds. UUIDs, the clock, random draws and the
answers of remote services are parameters supplied by the caller.

Points where the code behaves differently from what a reader might expect:

- A share link is still valid at exactly its expiry instant. The code refuses it only
  when `now > expiresAt`.
- Any falsy `days` value means one day: a missing field, an empty string, and in a JSON
  body also `0`, `false` or `null`. A truthy value is parsed and not clamped: the form
  value `"0"` gives a link usable only at its creation instant, and a negative number
  gives a link that is expired from the start.
- An expiry beyond the range of a JavaScript `Date` (about 100 million days out) cannot
  be stored, and creating such a link ends in a server error.
- Downloading a file is allowed to the file's owner or to the owner of its folder.
  Deleting a file is allowed to the file's owner only.
- Folder creation checks the name and then inserts. Concurrent requests are not
  modelled.

## Model

| member | source | states |
|---|---|---|
| Text.Trim | controllers/folderController.js:59 | `trim()` yields a slice of the input with only white space before and after it; the slice is empty exactly for blank input, and otherwise neither starts nor ends with white space |
| Text.TrimOfTrimmed | controllers/folderController.js:176 | a stored, already trimmed folder name is unchanged by `trim()` |
| Text.JsLength | controllers/authController.js:43 | `length` counts UTF-16 code units: at least the number of characters and at most twice as many |
| Text.JsLengthOfBmp | public/js/auth.js:214 | inside the Basic Multilingual Plane, `length` is the number of characters |
| Text.Basename | controllers/fileController.js:76 | `path.basename` never contains a slash |
| Text.BasenameOfTail | controllers/fileController.js:76 | the basename of `prefix/tail`, for a non-empty `tail` without a slash, is `tail` |
| Text.UuidHasNoSlash | controllers/fileController.js:51 | a version-4 UUID contains no slash, so it cannot add a path segment to a key |
| Ordering.InsertDesc | controllers/folderController.js:106 | inserting into the newest-first order adds exactly the new id, as a multiset |
| Ordering.InsertDescSorted | controllers/folderController.js:106 | inserting into a newest-first list keeps it newest-first |
| Ordering.SortDesc | controllers/folderController.js:26 | the result is a permutation of the id set, ordered by the key, descending |
| BlobStorage.BlobStore.Upload | controllers/fileController.js:55-61 | a non-overwriting put: it succeeds only if the service answers and the key is free, adds exactly that key, and logs the call |
| BlobStorage.BlobStore.Remove | controllers/fileController.js:134 | on success the keys leave the bucket; on failure the bucket is untouched; the call is logged either way |
| BlobStorage.CreateSignedUrl | controllers/fileController.js:107-109 | a URL for exactly the requested key and lifetime, or nothing when the service fails |
| LocalDisk.TempDir.Unlink | controllers/fileController.js:64 | after the unlink, the temp file is gone and no other temp file is touched |
| Metadata.MetadataStore.Valid | controllers/folderController.js:64-75 | the store invariant every handler keeps: folder names trimmed and unique per owner (the duplicate check of lines 64-75), every file in an existing folder of its own owner, every share link on an existing folder, e-mails unique, ids below the counters |
| Metadata.Consistent | controllers/fileController.js:51-82 | the cross-store invariant: every file row names a non-empty key that is in the bucket, and no two rows name the same key |
| Metadata.OwnNameIsFree | controllers/folderController.js:173-185 | in a valid store, a folder's own name never counts as taken once the folder itself is excluded, so renaming a folder to its current name passes the duplicate check |
| FolderController.SumSizes | controllers/folderController.js:126 | the folder's total size: the listed files' sizes added up in order, a missing size adding 0 |
| FolderController.SumSizesAppend | controllers/folderController.js:126 | the size total of a concatenation is the sum of the two totals |
| FolderController.SumSizesPermutation | controllers/folderController.js:126 | the size total does not depend on the order of the files |
| FolderController.SumSizesNonNegative | controllers/folderController.js:126 | the total of non-negative sizes is non-negative, with a missing size counted as 0 |
| FolderController.TotalSize | controllers/folderController.js:126 | the loop's `reduce` equals the size total, with a missing size counted as 0 |
| FolderController.Dashboard | controllers/folderController.js:16-33 | exactly the principal's folders, each once, most recently updated first, each with its own file count |
| FolderController.CreateFolder | controllers/folderController.js:55-91 | a missing or blank name gives BadRequest; a trimmed name the owner already uses gives Conflict; both change nothing; otherwise exactly one folder is added, under the trimmed name, owned by the principal; store validity (unique names) is kept |
| FolderController.AddFolder | controllers/folderController.js:77-82 | a folder with a trimmed name its owner does not use is added under the next id, and the store stays valid |
| FolderController.CreateTwice | controllers/folderController.js:64-75 | two creations with names that trim alike: the first succeeds, the second is a Conflict, and the store gains one folder |
| FolderController.ViewFolder | controllers/folderController.js:93-144 | checks run in order (BadRequest for a non-numeric id, then NotFound, then Forbidden), and no folder data is returned unless all pass; the files are exactly the folder's, newest upload first; `fileCount` is their number; `totalSize` is their size total |
| FolderController.UpdateFolder | controllers/folderController.js:146-199 | checks run in order: id, blank name, existence, ownership, then a duplicate name with the folder's own id excluded; on success only the folder's name (trimmed) and update time change; validity is kept |
| FolderController.RenameFolder | controllers/folderController.js:187-190 | only the named folder's name and update time change, and the store stays valid |
| FolderController.RenameKeepsInvariants | controllers/folderController.js:173-190 | a rename to a trimmed name that no other folder of the owner uses keeps names unique and every file and link attached |
| FolderController.DeleteKeepsInvariants | controllers/folderController.js:243-244 | removing a folder together with its files and links keeps the store valid |
| FolderController.DeleteKeepsPaths | controllers/folderController.js:225-244 | whether or not the bucket removed the folder's objects, every remaining file still points at an object that is in the bucket |
| FolderController.DeleteFolder | controllers/folderController.js:201-253 | after the id, existence and ownership checks: exactly one removal call for exactly the non-empty storage paths of the folder's files (no call when there are none); the folder, its files and its links then go whatever the bucket answered; a failed removal only raises a warning; no row ever points at a removed key |
| FileController.StorageKey | controllers/fileController.js:50-51 | the bucket key `{user}/{folder}/{uuid}-{originalname}`, the ids written in decimal |
| FileController.StorageKeyBasename | controllers/fileController.js:51-76 | the `filename` column of an upload is `{uuid}-{originalname}` whenever the original name has no slash |
| FileController.DistinctUuidsGiveDistinctKeys | controllers/fileController.js:51 | two uploads of one name into one folder get different keys whenever their UUIDs differ |
| FileController.UploadFile | controllers/fileController.js:29-91 | no file: BadRequest, nothing touched. Missing or foreign folder: NotFound or Forbidden, with no bucket call and no row. Otherwise one non-overwriting put under `{user}/{folder}/{uuid}-{name}`. A row is added only if the put succeeded; it points at that key, with the principal as owner and the checked folder. The temp file is gone on every path that has one. Both invariants are kept |
| FileController.InsertFile | controllers/fileController.js:72-82 | a row placed in a folder of its own owner is added under the next id and keeps the store valid |
| FileController.InsertKeepsPaths | controllers/fileController.js:66-82 | a row whose object was just written under a previously free key keeps every row pointing at a distinct object in the bucket |
| FileController.DownloadAccess | controllers/fileController.js:100 | download is allowed exactly to the file's owner or its folder's owner; a row whose folder is missing and whose owner is someone else ends in a server error |
| FileController.DeleteRuleImpliesDownloadRule | controllers/fileController.js:131 | whoever may delete a file may download it; when every file has its folder's owner, the two rules coincide |
| FileController.DownloadFile | controllers/fileController.js:93-122 | NotFound for an unknown id, then the access rule, then a signed URL for the file's own object with the 3600-second lifetime, or a server error when signing fails |
| FileController.DeleteFile | controllers/fileController.js:124-148 | NotFound, then Forbidden unless the principal owns the file; then one removal call for its object; the row goes whatever the bucket answered; both invariants are kept |
| FileController.RemoveKeepsPaths | controllers/fileController.js:134-141 | dropping a row, whether or not its object was removed, keeps every other row pointing at an object in the bucket |
| FileController.UploadThenDownload | controllers/fileController.js:29-122 | after a successful upload, the uploader's download gives a signed URL for the very key that was written |
| ShareController.ExpiresAt | controllers/shareController.js:29 | the creation time plus the day count (one day for a falsy `days`) times 86400000 ms |
| ShareController.IsExpired | controllers/shareController.js:54 | a link is refused strictly after its expiry instant, as in the listing and (line 82) the shared download |
| ShareController.ExpiryIsPermanent | controllers/shareController.js:54 | once a link is expired it stays expired |
| ShareController.LifetimeOfNewLink | controllers/shareController.js:29 | a link made for `d >= 0` days is usable from creation up to and including `d * 86400000` ms later, and not after |
| ShareController.DefaultLifetimeIsOneDay | controllers/shareController.js:29 | without `days`, a link is still valid 86400000 ms after creation and expired one millisecond later |
| ShareController.ZeroDaysLastOneInstant | controllers/shareController.js:29 | a link made for zero days is usable at its creation instant and expired one millisecond later |
| ShareController.ModerateDaysAreStorable | controllers/shareController.js:29 | up to 99 million days from a clock reading before the year 2286, the expiry fits in a `Date` |
| ShareController.HugeDaysAreNotStorable | controllers/shareController.js:29 | from a clock reading at or after 1970, more than 100 million days never gives an expiry a `Date` can hold |
| ShareController.NegativeDaysExpireAtOnce | controllers/shareController.js:29 | a link made for a negative number of days is already expired at creation |
| ShareController.CreateShare | controllers/shareController.js:21-44 | NotFound, then Forbidden, both without creating a link; otherwise exactly one link for the folder, expiring `days` (default 1) days later; a token that is already in use breaks uniqueness, and an expiry outside the range of a `Date` cannot be stored; both give a server error and change nothing |
| ShareController.ViewShare | controllers/shareController.js:46-72 | NotFound for an unknown token; Gone only when `now > expiresAt`; otherwise every file of the shared folder exactly once and nothing else; a file's URL is absent exactly when its own signing failed; no state is changed |
| ShareController.ListShared | controllers/shareController.js:57-65 | one entry per file of the folder, each with its own URL or none, independently of the other files |
| ShareController.DownloadSharedFile | controllers/shareController.js:74-97 | the same token checks as the listing; then NotFound unless the id names a file of the shared folder; then a signed URL for that file, or a server error; no state is changed |
| ShareController.ShareDiesWithFolder | controllers/folderController.js:243-244 | after the owner deletes a shared folder, its token is unknown, whether or not the bucket removal worked |
| AuthController.Register | controllers/authController.js:35-72 | checks run in order (both fields given, then at least 8 UTF-16 units, then an unused e-mail) before any write; on success exactly one user is added, holding `hash(password)`, the given e-mail and the given name; e-mails stay unique |
| AuthController.RegisterTwice | controllers/authController.js:48-52 | a second registration of the same e-mail is refused and the users table keeps only the first |
| AuthController.ShowLogin | controllers/authController.js:19-23 | a signed-in visitor is redirected to the dashboard, and only a signed-in one |
| FileRoutes.FileFilter | routes/files.js:38-54 | a type passes exactly when it is on the allow-list; a refused type gets the message `Unsupported file type: ` followed by the type |
| FileRoutes.AllowList | routes/files.js:40-48 | the allow-list is exactly PNG, JPEG, GIF, PDF, plain text, zip and x-zip-compressed |
| FileRoutes.RiskyTypesRejected | routes/files.js:49-53 | executables, HTML, octet streams and an empty type are refused |
| FileRoutes.WithinLimit | routes/files.js:36 | an upload passes the size limit when it has at most 50 MiB, 52428800 bytes |
| FileRoutes.LimitBoundary | routes/files.js:36 | 52428800 bytes is allowed and one byte more is not |
| FileRoutes.TempFilename | routes/files.js:26-30 | the temp name ends with `-` followed by the original name |
| FileRoutes.TempFilenameRoundTrip | routes/files.js:28-29 | the original name is what follows the second dash of the temp name, whatever dashes the name contains |
| FileRoutes.AdmitUpload | routes/files.js:57 | an upload reaches the handler exactly when a principal is present, the type is allowed and the size is within the limit; the sign-in guard runs first, then the type filter |
| Routes.RouteOf | routes/folders.js:16-28 | the verb and path of each of the eleven endpoints: the five folder routes here, the three file routes of routes/files.js:57-63 and the three share routes of routes/share.js:14-16 |
| Routes.Guarded | routes/share.js:14-16 | `ensureAuth` guards every route except the share listing and the shared download |
| Routes.DispatchRequest | routes/files.js:57-63 | a request reaches a guarded handler only with a principal, and is sent to sign-in exactly when it has none |
| Routes.WritesNeedSignIn | routes/share.js:14-16 | every POST route is guarded; the only open routes are the two share reads, both GET |
| Routes.RoutesDistinct | routes/folders.js:16-28 | no two endpoints share a verb and path pattern |
| AuthClient.IsValidEmail | public/js/auth.js:134-137 | the whole string is `local@domain` with neither part empty nor holding white space or `@`, and a dot strictly inside the domain |
| AuthClient.IndexOf | public/js/auth.js:135 | the first occurrence of a character, or none exactly when it does not occur |
| AuthClient.EmailFromParts | public/js/auth.js:134-137 | every `a@b.c` with non-empty parts free of white space and `@` is accepted |
| AuthClient.EmailParts | public/js/auth.js:134-137 | every accepted e-mail splits as `a@b.c` with such parts |
| AuthClient.ValidEmailHasOneAt | public/js/auth.js:135 | an accepted e-mail contains exactly one `@` |
| AuthClient.ValidEmailIsNotBlank | public/js/auth.js:57-63 | an accepted e-mail is never blank, so the two e-mail messages never compete |
| AuthClient.IsStrongPassword | public/js/auth.js:139-142 | a lower-case letter, an upper-case letter, a digit and one of `@$!%*?&` before the first line break, an allowed first character, and at least 8 UTF-16 units |
| AuthClient.StrongPasswordWithoutLineBreaks | public/js/auth.js:139-142 | without line breaks, a password is strong exactly when it has a lower-case letter, an upper-case letter, a digit and one of `@$!%*?&`, starts with one of the allowed characters, and has at least 8 units |
| AuthClient.FirstLine | public/js/auth.js:140 | the look-aheads see exactly the text before the first line terminator |
| AuthClient.StrongExample | public/js/auth.js:139-142 | `Abcdef1!` is strong |
| AuthClient.LeadingSpaceRejected | public/js/auth.js:140 | a leading space makes an otherwise strong password fail |
| AuthClient.LeadingLineBreakRejected | public/js/auth.js:140 | a leading line break hides every class from the look-aheads |
| AuthClient.MetPlusHints | public/js/auth.js:214-227 | each criterion either scores or leaves a hint, never both |
| AuthClient.PasswordStrength | public/js/auth.js:210-245 | with `h` criteria missing, the bar is 100 for none missing and `25 * (5 - h)` otherwise; the level is strong for at most one missing, good for two, medium for three and weak for four or five; the text is `Strong password` when strong, lists all the missing criteria after `Good - Add: ` or `Medium - Add: `, and only the first two after `Weak - Add: ` |
| AuthClient.StrongPasswordShowsStrong | public/js/auth.js:139-142 | every password the form accepts shows as strong with a full bar |
| AuthClient.ShortPasswordShowsStrong | public/js/auth.js:214-242 | `aB1!` shows as strong, yet the form refuses it |
| AuthClient.CaselessPasswordShowsStrong | public/js/auth.js:214-242 | `abcdef1!` shows as strong, yet the form refuses it |
| AuthClient.EmailError | public/js/auth.js:92-98 | no e-mail message exactly for an accepted e-mail; "required" exactly for a blank one; "invalid" exactly for a non-blank one that is not accepted |
| AuthClient.RegisterPasswordError | public/js/auth.js:100-109 | no password message exactly for a strong password; "required" exactly for an empty one; "too short" exactly for a non-empty one under 8 units; "weak" exactly for one of at least 8 units that is not strong |
| AuthClient.ValidateRegister | public/js/auth.js:111-114 | the confirmation message appears exactly when a confirmation field is present and differs from the password |
| AuthClient.RegisterSubmitsIff | public/js/auth.js:116-119 | the registration form is sent exactly when the e-mail is accepted, the password is strong, and any confirmation matches |
| AuthClient.SubmittedRegistrationPassesServerChecks | public/js/auth.js:100-109 | a registration the form sends always passes the server's presence and length checks |
| AuthClient.ValidateLogin | public/js/auth.js:57-73 | the sign-in form needs an accepted e-mail and any non-empty password, with no strength rule |
| AuthClient.RegisteredCredentialsPassLogin | public/js/auth.js:57-68 | whatever the registration form sends also passes the sign-in form |

## Left out

- Rendering, flash messages and redirect targets. The model keeps only the outcome of each request.
- The browser's DOM work: the password toggle, error elements, loading states and the strength-indicator HTML.
- Sessions and sign-in: passport, login, logout and `showRegister`. The sign-in middleware is reduced to "a principal id is present". Its own code (it requires itself and uses an undefined `app`) is not part of this model.
- The catch-all server errors raised when the relational store or a library throws. Store writes are total. If the row insert fails after an upload, the object is orphaned; this is not modelled.
- The dashboard's fallback to an empty list when the store fails.
- `parseInt` itself. The caller supplies the parsed number, or `None` for NaN where the code tests `isNaN` (view, update and delete folder) or where NaN matches nothing (shared-file download). A NaN id in upload, download, file delete or share creation, and a NaN `days`, reach the store and fail there; these are not modelled.
- Concurrency: the check-then-insert race in folder creation and the parallel signing in the share listing. The model is sequential.
- The environment overrides of the bucket name and of `SIGNED_URL_EXPIRES`. The default of 3600 seconds is modelled.
- The schema is not part of this model. Four things are assumed: a folder's share links are deleted with it; `createdAt`, `updatedAt` and `uploadedAt` default to the insertion time, taken as the request's clock reading; `updatedAt` is refreshed on rename; a duplicate share token is refused by a unique constraint.
- FileRoutes.WithinLimit: the size limit is applied by the upload library while the bytes stream in; only the resulting rule (larger than 52428800 bytes is refused) is modelled.
- LocalDisk.TempDir.Unlink: a failing unlink is swallowed by the code; the model treats unlink as always succeeding.
- ShareController.ViewShare: the listing order is whatever the store returns; the model only fixes which entries appear.
- FolderController.DeleteFolder: the list of paths sent for removal is modelled as a set. Under the store invariants the paths are distinct anyway.
