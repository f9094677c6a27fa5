# User module of an e-commerce backend, in Dafny

This project models the user module of a small e-commerce REST backend:

- **Registration.** The route validates the request body, then the service
  refuses an e-mail already on record. Otherwise it creates one cart and
  stores the new user with a hashed password. The route maps each outcome
  to a status code.
- **Documentation upload.** For each of the three document kinds
  (`identification`, `proofOfAddress`, `bankStatement`) that comes with a
  file, the service walks the user's document list by index. It splices out
  each entry of that kind that the index meets and removes its file. The
  index still advances after a splice, so an entry directly after a removed
  one is kept unexamined. Then it appends a new entry that points at the
  file the upload middleware stored, and finally writes the user back.
- **Premium toggle.** A `user` becomes `premium` depending on the names of
  their documents. A `premium` always goes back to `user`. Any other role
  is written back unchanged.
- **Deletion guard.** Deleting an id with no user answers "not found".

Files:

- `JsValues.dfy`: the JSON values of a request body, JavaScript truthiness
  and the short-circuit `&&`.
- `Collaborators.dfy`: the repository (a map from user id to stored user,
  with unique indexes on the id and the e-mail), the cart service, the
  document files on disk (storing a file; removing a missing file fails) and the in-memory
  user object a lookup returns.
- `DocumentList.dfy`: what the upload does to the document list, the
  files and the log of removed files, as functions on values, with the
  lemmas about them.
- `UserService.dfy`: the service operations as methods. The upload mutates
  the user's list in place with the source's index loop and is proved equal
  to the functions of `DocumentList`.
- `UserController.dfy`: the three route handlers as methods: validation,
  status codes and the role switch.

The premium test at src/users/controller.users.js:74 lists all three kinds
as operands of `&&`, so it evidently means "all three kinds are on file".
As written it tests for a `bankStatement` entry only (see "## Findings").
`UserController.NextRole` and `UserController.GetPremium` model the code.
`UserController.IntendedNextRole` states the intended rule.

## Model

| member | source | states |
|---|---|---|
| JsValues.And | src/users/controller.users.js:74 | `a && b` is truthy iff both operands are, and it yields one of its operands |
| JsValues.FalsyIff | src/users/controller.users.js:16 | a value fails `!x` exactly when it is one of the falsy values `undefined`, `null`, `false`, `0`, `""` |
| JsValues.AndChainOfStrings | src/users/controller.users.js:74 | an `&&` chain of non-empty strings evaluates to its last string |
| Collaborators.ToPublic | test/supertest.test.js:44-49 | the answered user carries the id, the first and last name, the e-mail and the role of the stored user |
| Collaborators.UserStore.FindById | src/users/service.users.js:48-55 | a lookup by id returns a fresh object holding the stored user, or nothing when the id is unknown |
| Collaborators.UserStore.FindByEmail | src/users/service.users.js:39-46 | a lookup by e-mail returns an id holding that e-mail, or nothing exactly when no user has it |
| Collaborators.UserStore.Register | src/users/service.users.js:30 | an insert fails with code 11000 exactly when the id or the e-mail is already stored, and then changes nothing; otherwise it adds the user |
| Collaborators.UserStore.Update | src/users/service.users.js:66-68 | an update replaces the stored user under the id and changes nothing else |
| Collaborators.UserStore.Delete | src/users/service.users.js:150 | a delete removes the id and nothing else |
| Collaborators.CartService.AddCart | src/users/service.users.js:18 | each call creates exactly one new cart and returns its id |
| Collaborators.Disk.Store | src/utils/multer.utils.js:22-29 | storing a file adds its path to the disk and logs no removal |
| Collaborators.Disk.Unlink | src/users/service.users.js:85 | removing a file fails exactly when it is not on disk; on success the file is gone and logged once |
| Collaborators.UnlinkAll | src/users/service.users.js:80-87 | a run of file removals, when it succeeds, only ever removes files |
| Collaborators.UnlinkAllSucceedsIff | src/users/service.users.js:80-87 | a run of file removals succeeds iff the paths are distinct and all on disk, and then removes exactly those paths |
| Collaborators.UnlinkAllAppend | src/users/service.users.js:80-87 | removing `a + b` is removing `a`, then removing `b` from what is left |
| Collaborators.UnlinkNext | src/users/service.users.js:85 | after a successful prefix of removals, a missing next path fails the whole run and a present one extends it |
| DocumentList.StoredPath | src/users/service.users.js:89-90 | the stored reference starts with the module directory, continues with `/documents/` and ends with the file name |
| DocumentList.Scan | src/users/service.users.js:80-87 | the index walk keeps or removes every entry: kept and removed entries are as many as the list's |
| DocumentList.ScanRemovesOnlyName | src/users/service.users.js:83-84 | the walk removes only entries of the scanned kind |
| DocumentList.ScanPermutes | src/users/service.users.js:80-87 | kept and removed entries together are the old list, as a multiset |
| DocumentList.ScanOtherNames | src/users/service.users.js:80-87 | the walk keeps every entry of any other kind, in order |
| DocumentList.ScanNoMatch | src/users/service.users.js:80-87 | a list with no entry of the kind is left unchanged |
| DocumentList.ScanAtMostOne | src/users/service.users.js:80-87 | with at most one entry of the kind, the walk removes exactly that entry and keeps all others in order |
| DocumentList.ScanSkipsNextEntry | src/users/service.users.js:80-86 | after a splice the index still advances, so an entry that directly follows a removed one is kept unexamined, even if it is of the same kind |
| DocumentList.ReplaceKind | src/users/service.users.js:78-96 | a block without a file does nothing; a block that succeeds only removes files, only appends to the removal log and leaves the new entry last |
| DocumentList.Upload | src/users/service.users.js:76-136 | an upload without files does nothing; one that succeeds only removes files and only appends to the removal log |
| DocumentList.ReplaceKindAtMostOne | src/users/service.users.js:78-96 | with at most one old entry, a block succeeds iff that entry's file is on disk; the result is the other entries in order plus the new entry, and only the old file is removed and logged |
| DocumentList.ReplaceKindOtherKinds | src/users/service.users.js:78-96 | one block leaves the entries of every other kind as they were, for any list |
| DocumentList.ReplaceKindCounts | src/users/service.users.js:80-95 | new length = old length - removed entries + supplied files; each removed file was on disk, is gone and is logged exactly once |
| DocumentList.ReplaceKindSparesSurvivors | src/users/service.users.js:84-85 | when no two entries share a file, no surviving entry has its file removed |
| DocumentList.ReplaceKindInstalls | src/users/service.users.js:78-95 | with at most one old entry, a supplied kind ends with exactly one entry, which points at the stored path of the new file |
| DocumentList.ReplaceKindKeepsNamesUnique | src/users/service.users.js:78-96 | one block keeps "at most one entry per kind" |
| DocumentList.UploadKeepsNamesUnique | src/users/service.users.js:76-136 | an upload keeps "at most one entry per kind" |
| DocumentList.UploadOrder | src/users/service.users.js:78-136 | the entries that are not replaced keep their relative order; the new entries follow in the order identification, proof of address, bank statement |
| DocumentList.UploadOnName | src/users/service.users.js:78-136 | a kind without a file, and every other name, is untouched; a supplied kind with at most one old entry ends with exactly the new entry |
| DocumentList.ReplaceKindKeepsConsistent | src/users/service.users.js:78-96 | on a list with at most one entry of the kind, every entry's file on disk and no shared file, a block whose new file sits at a fresh path succeeds and keeps all three properties |
| DocumentList.ReplaceKindKeepsFresh | src/users/service.users.js:78-96 | a fresh path that a block does not use for its new entry stays on disk and unreferenced |
| DocumentList.UploadKeepsConsistent | src/users/service.users.js:76-136 | on a consistent list, an upload whose files sit at distinct fresh paths always succeeds and leaves the list consistent, so the next upload succeeds too |
| DocumentList.UploadCounts | src/users/service.users.js:80-135 | new length = old length - removed entries + supplied files; the removal log only grows |
| UserService.NewUserData | src/users/service.users.js:20-28 | the stored user refers to the new cart and keeps the hashed password, the e-mail and the registration time; with role `user` and no documents, the document list starts consistent |
| UserService.RegisterUser | src/users/service.users.js:10-37 | a taken e-mail is refused with no cart created and no user stored; otherwise exactly one cart is created and the stored user refers to it, with the hashed password, role `user` and no documents |
| UserService.UpdateUser | src/users/service.users.js:66-74 | the in-memory user is written back under its id and answered in its public form |
| UserService.ReplaceKindInPlace | src/users/service.users.js:78-96 | the in-place index loop with splice, unlink and push computes exactly `ReplaceKind`; it fails exactly when `ReplaceKind` does |
| UserService.UploadUserDocumentation | src/users/service.users.js:76-143 | the three blocks compute `Upload`; on success the user is written back; if a file removal fails, nothing is written |
| UserService.DeleteUser | src/users/service.users.js:145-155 | an unknown id answers not found; afterwards the id is not stored, and nothing else changes |
| UserController.MissingRequiredField | src/users/controller.users.js:16 | registration is refused iff one of the five fields is one of the falsy values, which includes `""` and an age of 0 |
| UserController.RegistrationStatus | src/users/controller.users.js:26-32 | `failed` maps to 400, success to 201, a thrown code 11000 to 400 and any other thrown error to 500 |
| UserController.PostUser | src/users/controller.users.js:14-34 | an invalid body or a taken e-mail gives 400 and changes nothing; otherwise one cart is created and the user is stored and answered with 201, or 400 on a duplicate id |
| UserController.FirstFile | src/users/controller.users.js:40-42 | a form field contributes its first file, and nothing when it is absent or empty |
| UserController.NoFilesSelectedIff | src/users/controller.users.js:40-44 | no file is selected iff each of `identity`, `address` and `account` is absent or empty; then the middleware stores nothing and the upload has nothing to do |
| UserController.Uploader | src/users/controller.users.js:8-12 | the middleware stores the first file of each accepted field at the documents directory and removes nothing |
| UserController.PostDocuments | src/users/controller.users.js:36-56 | the files are stored first; 400 iff the id is missing, no file is sent or the user is unknown, and then the disk holds just the stored files; 200 iff the upload succeeds, and only then is the new list written back; 500 iff a replaced file could not be removed |
| UserController.UploadAfterMiddleware | src/users/controller.users.js:36-56 | for a consistent user whose sent files land at new, distinct paths, the upload after the middleware succeeds and the user stays consistent, so a replacing upload succeeds as well |
| UserController.PremiumTestIsBankStatement | src/users/controller.users.js:74 | the `includes` test holds iff a `bankStatement` entry is among the names |
| UserController.NextRole | src/users/controller.users.js:67-83 | `premium` becomes `user`; `user` becomes `premium` iff a `bankStatement` entry is on file and is refused otherwise; any other role stays |
| UserController.IntendedNextRole | src/users/controller.users.js:74 | the corrected test: `user` becomes `premium` iff all three kinds are on file; other roles behave as written |
| UserController.BankStatementAloneUpgrades | src/users/controller.users.js:74-75 | a user whose only document is a bank statement is upgraded by the code as written and refused by the intended rule |
| UserController.AsWrittenVersusIntended | src/users/controller.users.js:74 | the two rules differ exactly for a `user` who has a bank statement on file but lacks an identification or a proof of address |
| UserController.DocumentNames | src/users/controller.users.js:69-72 | the loop collects the names of the documents in list order |
| UserController.GetPremium | src/users/controller.users.js:58-91 | a missing id or user, or a refused `user`, gives 400 and writes nothing; otherwise the new role is written back and the updated user is answered with 200 |

## Left out

- HTTP routing, the authorisation policies and the request logger are not modelled. A handler is a method from request parameters to a status code and payload.
- The upload middleware is reduced to storing each sent file under the documents directory (`UserController.Uploader`). The file name it builds from the clock and the original name is an input, `UploadedFile.filename`. Its refusal of a second file in one field is not modelled; the handler takes the first file of each field.
- UserController.UploadAfterMiddleware: its guarantee requires that the middleware stores the sent files at paths not yet on disk and different from each other. The names are built from the clock and the original file name, which makes a clash unlikely but does not rule it out. With a clash, the model follows the code: a replaced entry whose path equals the new file's removes the new file.
- Password hashing is a function parameter. The registration clock is a `now` parameter. The id the repository assigns to a new user is a `newId` parameter.
- The data-access layer, the cart service and the public-user transformer are not part of this model. They are reduced to the behaviour in `Collaborators.dfy`; the public form's fields are taken from what the integration test reads.
- The repository's representation of "no user" (an empty object or `null`) is not shown. Both lookups return an absent result. The `Object.keys(...)` tests, `if (!user)` and the absent result are treated as the same test.
- UserService.NewUserData: the role `user` and the empty document list of a new user are assumed defaults of the repository's schema, which is not part of this model. The consistency of a new user's documents, and the statements that rely on it, depend on these defaults.
- Collaborators.Disk.Unlink: removing a file fails only when the path is absent. Other file-system errors (permissions, a directory at the path) are not modelled; the upload's success condition assumes they do not occur.
- Numbers are integers: floating point and `NaN` are not modelled.
- A thrown repository error is a `Failure` value. Errors other than duplicate keys come only from code that is not shown, so only code 11000 arises in the model. `RegistrationStatus` still maps every code.
- `req.files` being absent altogether (no multipart body) is not modelled. The map of form fields may be empty.
- UserService.ReplaceKindInPlace: after a failed file removal, the in-memory list and the disk are left as they are at that moment and are not specified. The user is then never written back.
- UserService.UpdateUser: an id that no longer exists changes nothing. The repository's answer in that case is not shown, so the payload is the in-memory user.
- The delete route handler, with its double response, is not modelled. The service's guard is modelled as `UserService.DeleteUser`.
- Concurrent uploads or toggles, and atomicity between the file system and the database, are not modelled.
- The integration test (test/supertest.test.js:76-86) expects a freshly registered user, who has no documents, to be upgraded to premium. Neither the code nor the intended rule allows that: both refuse a user with no documents.

## Findings

| source | as written | input that shows it | evidently intended | confidence | as-written member | corrected member |
|---|---|---|---|---|---|---|
| src/users/controller.users.js:74 | `docs.includes('identification' && 'proofOfAddress' && 'bankStatement')`: the `&&` chain evaluates to `'bankStatement'`, so only that kind is tested | a `user` whose only document is a `bankStatement` entry is upgraded to `premium` | upgrade only when all three kinds are on file | not executed | UserController.NextRole (and UserController.BankStatementAloneUpgrades) | UserController.IntendedNextRole (and UserController.AsWrittenVersusIntended) |

The route handler `UserController.GetPremium` keeps the rule as written: it
states what the code does. The corrected rule and the lemma comparing the
two show what the fix changes.
