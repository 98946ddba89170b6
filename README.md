# Candidate records of the recruiting back office, in Dafny

This project models the candidate-record subsystem of a small recruiting
application (an Express/Prisma backend and a React frontend) and proves
properties of it. Recruiters create candidates. Each candidate has contact
fields, education entries, work-experience entries and an optional CV file.
Recruiters then list, read, update and delete candidates, and upload and
download the CV.

The modules follow the source files:

| module | file | models |
|---|---|---|
| `Base`, `Text` | `base.dfy`, `text.dfy` | `Option`/`Result`, JavaScript truthiness, `trim`, `toLowerCase`, `lastIndexOf`, `substring`, `path.basename`/`extname`/`join`, `parseInt` |
| `Validation` | `validation.dfy` | the backend field validators |
| `ClientValidation` | `client_validation.dfy` | the browser's copy of the validators, proved equal to the backend's |
| `ErrorMiddleware` | `error_middleware.dfy` | `createError` and the error envelope |
| `AuthMiddleware` | `auth_middleware.dfy` | the `Bearer` header check and the `req.user` write |
| `UploadMiddleware` | `upload_middleware.dfy` | multer's file filter, the size limit and the error mapping |
| `FileHandler` | `file_handler.dfy` | the CV store: a class over a path → bytes map |
| `CandidateService` | `candidates_service.dfy` | the candidate store: pure transitions on a `Database` value, and a class whose methods are proved against them |
| `CandidatesController` | `candidates_controller.dfy` | the seven request handlers: check order, id and query parsing, service and file calls |
| `CandidateForm` | `candidate_form.dfy` | the create form: `validateForm` filling its error map in loops, `handleSubmit`, and the list helpers |

The store keeps five invariants (`CandidateService.Consistent`), and every
write preserves them:
- emails are unique;
- ids are below the id counter;
- a candidate's three CV fields are all set or all unset;
- every child row belongs to a stored candidate;
- the listing order holds exactly the stored ids, increasing.

Two things are parameters rather than definitions:
- Date parsing is a parameter `parse: string -> Option<int>`, which returns `None` for an invalid date.
- The clock (`Date.now()`) is a parameter `now`.

## Model

| member | source | states |
|---|---|---|
| Validation.ValidateEmail | backend/src/utils/validation.ts:6-17 | valid iff the email is present and matches `^[^\s@]+@[^\s@]+\.[^\s@]+$`; an absent or blank email gets the "obligatorio" message, any other failure the format message |
| Validation.EmailShapeIsPattern | backend/src/utils/validation.ts:11-12 | the computable shape test (one `@` not in front, no whitespace or second `@`, a `.` strictly inside the domain) agrees with the regex's language on every string |
| Validation.EmailMissingWhenBlank | backend/src/utils/validation.ts:7-9 | absent, empty or whitespace-only input fails with "El email es obligatorio" |
| Validation.WellFormedEmailExample | backend/src/utils/validation.ts:11-16 | `test@example.com` passes |
| Validation.MalformedEmailExamples | backend/src/utils/validation.ts:7-14 | `invalid-email`, `testexample.com` and `test@` fail on format; `""` fails as missing |
| Validation.EmailWithoutAt | backend/src/utils/validation.ts:11-14 | a non-blank string without `@` fails on format |
| Validation.ValidateRequired | backend/src/utils/validation.ts:19-24 | valid iff the value is present and not empty after trimming; the error names the field |
| Validation.ValidateMinLength | backend/src/utils/validation.ts:26-31 | valid iff the untrimmed length is at least the minimum, so exactly the minimum passes |
| Validation.ValidateDateRange | backend/src/utils/validation.ts:33-50 | valid when either date is absent or empty; with both present, the format error if either fails to parse, otherwise invalid iff end < start, and a reversed range gets the "posterior" message |
| Validation.EqualDatesPass | backend/src/utils/validation.ts:45-47 | a range whose two ends are the same parseable date passes |
| Validation.ValidateDate | backend/src/utils/validation.ts:85-96 | valid iff the date is absent or empty, or parses |
| Validation.ValidationExtension | backend/src/utils/validation.ts:71 | the extension is the lower-cased name from its last `.`, or the whole lower-cased name when there is none (JavaScript's `substring(-1)`) |
| Validation.ValidateFile | backend/src/utils/validation.ts:52-83 | no file passes; otherwise the MIME check, then the extension check, then size ≤ 10 MiB; the first failing check's message is returned, and valid iff all three hold |
| Validation.FileSizeBoundary | backend/src/utils/validation.ts:77-80 | exactly 10 MiB passes and one byte more fails with the size message |
| ClientValidation.ValidateEmail | frontend/src/utils/validation.ts:6-17 | valid iff the email matches the same pattern as the backend's |
| ClientValidation.ValidateRequired | frontend/src/utils/validation.ts:19-24 | valid iff present and not blank, with the field-named message |
| ClientValidation.ValidateMinLength | frontend/src/utils/validation.ts:26-31 | valid iff the untrimmed length reaches the minimum |
| ClientValidation.ValidateFile | frontend/src/utils/validation.ts:33-59 | no file passes; otherwise valid iff allowed `type`, allowed lower-cased extension and size ≤ 10 MiB, checked in that order |
| ClientValidation.ValidateDateRange | frontend/src/utils/validation.ts:61-78 | valid when either date is missing; otherwise the format error for an unparseable date; invalid iff end < start, with the "posterior" message |
| ClientValidation.EmailCopiesAgree | frontend/src/utils/validation.ts:6-17 | the browser's email check gives the backend's result on every string |
| ClientValidation.RequiredCopiesAgree | frontend/src/utils/validation.ts:19-24 | the two required checks agree on every value and field name |
| ClientValidation.MinLengthCopiesAgree | frontend/src/utils/validation.ts:26-31 | the two length checks agree on every input |
| ClientValidation.FileCopiesAgree | frontend/src/utils/validation.ts:33-59 | the two file checks agree on every file, messages included |
| ClientValidation.DateRangeCopiesAgree | frontend/src/utils/validation.ts:61-78 | the two range checks agree on every pair of dates |
| ErrorMiddleware.PlainError | backend/src/middleware/error.middleware.ts:3-5 | an error thrown with `new Error` has its message, a stack and no status |
| ErrorMiddleware.CreateError | backend/src/middleware/error.middleware.ts:31-35 | keeps the message and the status (400 by default) |
| ErrorMiddleware.StatusOf | backend/src/middleware/error.middleware.ts:10 | the error's status when it is set and non-zero, 500 otherwise |
| ErrorMiddleware.ErrorHandler | backend/src/middleware/error.middleware.ts:7-29 | status as `StatusOf`; `success` false; the generic message iff status is 500 in production, else the message or "Algo salió mal" when it is empty; details iff not production and a stack exists |
| ErrorMiddleware.CreatedErrorKeepsStatusAndMessage | backend/src/middleware/error.middleware.ts:10-21 | an error from `createError` with a status other than 500 reaches the client with its own status and message |
| ErrorMiddleware.ProductionHidesInternalErrors | backend/src/middleware/error.middleware.ts:10-26 | in production an error without status is answered 500 with the generic message and no details |
| AuthMiddleware.CheckAuthorization | backend/src/middleware/auth.middleware.ts:10-26 | missing or non-`Bearer ` header: 401 "requerido"; otherwise the token is the header after `Bearer `, rejected 401 "inválido" iff blank, accepted otherwise |
| AuthMiddleware.EmptyTokenRejected | backend/src/middleware/auth.middleware.ts:19-21 | the header `Bearer ` alone fails 401 "inválido" |
| AuthMiddleware.AnyNonBlankTokenAccepted | backend/src/middleware/auth.middleware.ts:17-25 | every non-blank token is accepted as it is |
| AuthMiddleware.Authenticate | backend/src/middleware/auth.middleware.ts:10-26 | decides as `CheckAuthorization`; sets `req.user` to the token on success and leaves it alone on rejection |
| UploadMiddleware.FileFilter | backend/src/middleware/upload.middleware.ts:10-25 | accepts iff the MIME type is one of the three allowed and the lower-cased `path.extname` is `.pdf`, `.docx` or `.doc`; an accepted name has a non-empty extension |
| UploadMiddleware.Receive | backend/src/middleware/upload.middleware.ts:10-34 | no file passes through; a file failing the filter gives the 400 filter error; a filtered file over 10 MiB gives the `LIMIT_FILE_SIZE` multer error; a filtered file of at most 10 MiB reaches the controller unchanged |
| UploadMiddleware.UploadCallback | backend/src/middleware/upload.middleware.ts:39-50 | no error: `next()`; `LIMIT_FILE_SIZE`: 400 "excede el tamaño máximo"; another multer error: 400 with the `Error al subir archivo: ` prefix; any other error passes unchanged |
| UploadMiddleware.UploadCV | backend/src/middleware/upload.middleware.ts:37-51 | `next()` with the file unchanged iff there is no file or it passes the filter and the limit; a filtered-out file gives the 400 "Solo se permiten archivos PDF o DOCX", an oversize one the 400 "excede el tamaño máximo" |
| UploadMiddleware.UploadRejectionsAre400 | backend/src/middleware/upload.middleware.ts:20-47 | every rejection of the stage is a 400, and without one the controller sees the file unchanged |
| UploadMiddleware.MismatchedPairRejected | backend/src/middleware/upload.middleware.ts:11-24 | an allowed MIME type with a disallowed extension, or the reverse, is filtered out |
| UploadMiddleware.NoExtensionRejected | backend/src/middleware/upload.middleware.ts:18-21 | a name without an extension never passes the filter |
| UploadMiddleware.ReceivedFilePassesValidation | backend/src/middleware/upload.middleware.ts:10-34 | a file that got through the filter and the size limit passes `validateFile` |
| UploadMiddleware.DotPdfPassesValidation | backend/src/utils/validation.ts:70-74 | the name `.pdf` passes `validateFile`'s extension check |
| UploadMiddleware.DotPdfFailsFilter | backend/src/middleware/upload.middleware.ts:18-21 | the name `.pdf` fails the filter, because `path.extname(".pdf")` is empty |
| FileHandler.MimeForExtension | backend/src/utils/fileHandler.ts:57-65 | `.pdf`, `.docx` and `.doc` map to their MIME types and anything else to `application/octet-stream` |
| FileHandler.StoredName | backend/src/utils/fileHandler.ts:25-27 | `candidate-{id}-{timestamp}` followed by the original name's extension: it starts with that stem, contains no `/`, and its extension is the original's, case kept |
| FileHandler.StoredPath | backend/src/utils/fileHandler.ts:25-28 | the uploads directory joined with the stored name: its base name is the stored name and its extension the original's |
| FileHandler.SaveOutcome | backend/src/utils/fileHandler.ts:15-38 | fails with the validator's message and no status iff the file is invalid; otherwise the name is `StoredName` of the id, the timestamp and the original name, the path is the uploads directory joined with it, and the MIME type is the upload's own |
| FileHandler.ReadFile | backend/src/utils/fileHandler.ts:50-71 | fails with "No se pudo leer el archivo: " + path iff the path is absent; otherwise returns the stored bytes, the path's base name, and the MIME type of its lower-cased extension |
| FileHandler.FileSystem.EnsureUploadsDir | backend/src/utils/fileHandler.ts:7-13 | afterwards the uploads directory exists; a second call changes nothing |
| FileHandler.FileSystem.SaveFile | backend/src/utils/fileHandler.ts:15-38 | returns `SaveOutcome`; writes the bytes at the returned path on success and nothing on failure |
| FileHandler.FileSystem.DeleteFile | backend/src/utils/fileHandler.ts:40-48 | never fails; afterwards the path is absent, and a missing path leaves the files as they were |
| FileHandler.FileSystem.GetFile | backend/src/utils/fileHandler.ts:50-71 | returns `ReadFile` on the current files |
| FileHandler.StoredStemPlain | backend/src/utils/fileHandler.ts:25-27 | `candidate-{id}-{timestamp}` holds no `/` and no `.` |
| FileHandler.ExtNameAfterPlainStem | backend/src/utils/fileHandler.ts:26-27 | a non-empty stem without `/` or `.` followed by an extension has exactly that extension |
| FileHandler.SaveThenRead | backend/src/utils/fileHandler.ts:31-37 | reading the saved path yields exactly the saved bytes and the saved file name |
| FileHandler.FailedSaveWritesNothing | backend/src/utils/fileHandler.ts:18-22 | an invalid file makes the save fail, and the client sees a 500 |
| FileHandler.SaveSucceedsAfterUploadStage | backend/src/utils/fileHandler.ts:18-22 | a file that passed the upload filter and the size limit is always saved |
| FileHandler.DownloadTypeOfFilteredUpload | backend/src/utils/fileHandler.ts:57-65 | a file that passed the filter is downloaded with one of the three allowed MIME types |
| FileHandler.ReadAfterDelete | backend/src/utils/fileHandler.ts:40-71 | after deleting a path it reads as missing, and every other path reads as before |
| CandidateService.OrNull | backend/src/services/candidates.service.ts:67-68 | `value \|\| null`: kept iff truthy |
| CandidateService.EducationRows | backend/src/services/candidates.service.ts:42-49 | one row per supplied entry, in order; none when the list is omitted |
| CandidateService.WorkRows | backend/src/services/candidates.service.ts:52-59 | one row per supplied entry, in order; none when the list is omitted |
| CandidateService.NewEducationDefaults | backend/src/services/candidates.service.ts:45-48 | an entry's missing optional fields are stored as null and `isCurrent` as false |
| CandidateService.NewWorkDefaults | backend/src/services/candidates.service.ts:55-58 | the same for work entries |
| CandidateService.NewCandidate | backend/src/services/candidates.service.ts:62-68 | a new candidate has the fresh id and the given email, null phone or address iff empty, and no CV |
| CandidateService.Patch | backend/src/services/candidates.service.ts:154-160 | each scalar field is written only when supplied; a supplied empty phone or address becomes null; id and CV fields are kept |
| CandidateService.EmptyPatchIsIdentity | backend/src/services/candidates.service.ts:154-160 | an update that supplies nothing leaves the candidate as it was |
| CandidateService.WithCv | backend/src/services/candidates.service.ts:241-248 | the three CV fields are set together to the given name, path and MIME type; every other field is kept |
| CandidateService.ReplaceRowsOwnedBy | backend/src/services/candidates.service.ts:163-203 | a supplied list replaces its owner's rows wholesale (or only deletes them when the write fails); an omitted list and every other owner keep their rows |
| CandidateService.Create | backend/src/services/candidates.service.ts:31-83 | an email already stored fails 409 and changes nothing; otherwise exactly one candidate with the fresh id is added and the counter advances |
| CandidateService.CreateThenFind | backend/src/services/candidates.service.ts:42-80 | the new id was unused, a read returns exactly the created record, and its rows are one per supplied entry |
| CandidateService.CreateKeepsOthers | backend/src/services/candidates.service.ts:62-80 | every other id reads as before |
| CandidateService.CreateKeepsConsistent | backend/src/services/candidates.service.ts:31-83 | create preserves the store invariants |
| CandidateService.Find | backend/src/services/candidates.service.ts:116-130 | succeeds iff the id is stored, else fails 404 "Candidato no encontrado" |
| CandidateService.Newest | backend/src/services/candidates.service.ts:89-99 | one record per listed candidate |
| CandidateService.NewestIsDescending | backend/src/services/candidates.service.ts:96-98 | the listing is newest first: ids strictly decrease |
| CandidateService.NewestListsEveryone | backend/src/services/candidates.service.ts:89-100 | every stored candidate appears in the listing, and the listing is as long as the count |
| CandidateService.ListPage | backend/src/services/candidates.service.ts:85-114 | at most `limit` records, those at positions from (page-1)·limit of the newest-first listing; pagination is page, limit, the store size and its ceiling division by limit |
| CandidateService.PageIsSlice | backend/src/services/candidates.service.ts:86-91 | a page is the listing after skipping (page-1)·limit and taking `limit` |
| CandidateService.PagesListEveryone | backend/src/services/candidates.service.ts:85-114 | concatenating pages 1 to `totalPages` gives back the whole listing |
| CandidateService.PagesCoverPrefix | backend/src/services/candidates.service.ts:86-91 | the first n pages cover the first n·limit records |
| CandidateService.Update | backend/src/services/candidates.service.ts:132-216 | an unknown id fails 404 and changes nothing; the 409 occurs iff the email is non-empty, differs from the stored one and is taken; success stores the patched candidate; listing order and counter are kept |
| CandidateService.UpdateThenFind | backend/src/services/candidates.service.ts:154-213 | after a successful update a read returns the patched candidate with the supplied lists, or the old rows for an omitted list |
| CandidateService.UpdateKeepsOthers | backend/src/services/candidates.service.ts:163-213 | every other candidate reads as before |
| CandidateService.UpdateUniqueViolation | backend/src/services/candidates.service.ts:143-213 | the only other failure is the supplied empty email that another candidate holds; the candidate is then unchanged, but a supplied list's rows were already deleted |
| CandidateService.UpdateKeepsConsistent | backend/src/services/candidates.service.ts:132-216 | update preserves the store invariants |
| CandidateService.OnlySetCvWritesCv | backend/src/services/candidates.service.ts:154-160 | an update never changes a candidate's CV path |
| CandidateService.Delete | backend/src/services/candidates.service.ts:218-233 | an unknown id fails 404 and changes nothing; otherwise the candidate is removed and the record before deletion is returned |
| CandidateService.DeleteThenFind | backend/src/services/candidates.service.ts:218-233 | afterwards the id reads as 404, and the returned record is the one stored before |
| CandidateService.DeleteRemovesRows | backend/src/services/candidates.service.ts:227-230 | the candidate's education and work rows go with it |
| CandidateService.DeleteKeepsOthers | backend/src/services/candidates.service.ts:227-230 | every other candidate reads as before, rows included |
| CandidateService.DeleteKeepsConsistent | backend/src/services/candidates.service.ts:218-233 | delete preserves the store invariants |
| CandidateService.RemoveIdKeepsIncreasing | backend/src/services/candidates.service.ts:228-230 | removing an id from the listing order keeps it increasing and drops exactly that id |
| CandidateService.SetCv | backend/src/services/candidates.service.ts:235-251 | the stored candidate becomes `WithCv` of it and is returned; every other candidate, the rows, the listing order and the counter are kept |
| CandidateService.SetCvThenFind | backend/src/services/candidates.service.ts:235-251 | a read returns the record with only the CV fields changed |
| CandidateService.SetCvKeepsOthers | backend/src/services/candidates.service.ts:241-248 | every other candidate reads as before |
| CandidateService.SetCvKeepsConsistent | backend/src/services/candidates.service.ts:235-251 | setting the CV preserves the store invariants |
| CandidateService.CandidateStore.CreateCandidate | backend/src/services/candidates.service.ts:31-83 | the store becomes `Create`'s new database and the result is `Create`'s; the invariants are kept |
| CandidateService.CandidateStore.GetCandidates | backend/src/services/candidates.service.ts:85-114 | returns `ListPage` of the store |
| CandidateService.CandidateStore.GetCandidateById | backend/src/services/candidates.service.ts:116-130 | returns `Find` on the store |
| CandidateService.CandidateStore.UpdateCandidate | backend/src/services/candidates.service.ts:132-216 | the store becomes `Update`'s new database and the result is `Update`'s; the invariants are kept |
| CandidateService.CandidateStore.DeleteCandidate | backend/src/services/candidates.service.ts:218-233 | the store becomes `Delete`'s new database and the result is `Delete`'s; the invariants are kept |
| CandidateService.CandidateStore.UpdateCandidateCV | backend/src/services/candidates.service.ts:235-251 | the store becomes `SetCv`'s new database and the updated candidate is returned; the invariants are kept |
| CandidatesController.ParseId | backend/src/controllers/candidates.controller.ts:117 | the decimal rendering of any integer parses back to that integer |
| CandidatesController.InvalidId | backend/src/controllers/candidates.controller.ts:119-121 | the rejection is a 400 "ID de candidato inválido" |
| CandidatesController.QueryNumber | backend/src/controllers/candidates.controller.ts:98-99 | `parseInt(q) \|\| fallback`: the fallback when absent, unparseable or zero, otherwise the parsed number |
| CandidatesController.NegativeQueryKept | backend/src/controllers/candidates.controller.ts:98-99 | a negative page is kept, so the service's skip is negative |
| CandidatesController.PositiveQueryNumber | backend/src/controllers/candidates.controller.ts:98-99 | the corrected reading is always at least 1 |
| CandidatesController.PositiveQueryNumberAgrees | backend/src/controllers/candidates.controller.ts:98-99 | the corrected reading equals the one as written whenever that is at least 1, and is the fallback otherwise |
| CandidatesController.FirstDateError | backend/src/controllers/candidates.controller.ts:49-71 | none iff every entry with both dates passes the range check; otherwise the first failing entry's message, with the list's prefix, as a 400 |
| CandidatesController.CheckDateRanges | backend/src/controllers/candidates.controller.ts:49-59 | the `for ... of` loop returns the same as `FirstDateError` |
| CandidatesController.RequiredNameError | backend/src/controllers/candidates.controller.ts:24-32 | a 400 with the field's required message iff the name is absent or blank |
| CandidatesController.ShortNameError | backend/src/controllers/candidates.controller.ts:39-47 | a 400 with the field's length message iff the name is shorter than 2 |
| CandidatesController.EmailFieldError | backend/src/controllers/candidates.controller.ts:34-37 | a 400 with the validator's message iff the email is absent or does not match the pattern |
| CandidatesController.SuppliedNameError | backend/src/controllers/candidates.controller.ts:148-166 | on update an omitted name passes; a supplied one fails 400 unless non-blank and at least 2 long, and a blank one fails as required |
| CandidatesController.CreateFieldsError | backend/src/controllers/candidates.controller.ts:24-47 | the checks run in the order required first name, required last name, email, first-name length, last-name length, and the first failing one's message is the 400; none iff all pass |
| CandidatesController.MissingFirstNameReportedFirst | backend/src/controllers/candidates.controller.ts:24-29 | a missing or blank first name is reported as missing whatever else is wrong |
| CandidatesController.EmailCheckedBeforeLength | backend/src/controllers/candidates.controller.ts:30-47 | with both names present, a bad email is reported before a short name |
| CandidatesController.EducationDatesCheckedFirst | backend/src/controllers/candidates.controller.ts:49-71 | a bad education range is reported before any work range |
| CandidatesController.UnparseableSingleDateAccepted | backend/src/controllers/candidates.controller.ts:50-59 | an entry with one unparseable date and no other date passes the handler's range checks |
| CandidatesController.DatesError | backend/src/controllers/candidates.controller.ts:49-71 | none iff every education and work range is accepted; any error is a 400 |
| CandidatesController.CreateBodyError | backend/src/controllers/candidates.controller.ts:24-71 | none iff the body passes every create check; any error is a 400 |
| CandidatesController.CreateDataOf | backend/src/controllers/candidates.controller.ts:73-84 | the service receives the body's lists, phone and address unchanged |
| CandidatesController.UpdateFieldsError | backend/src/controllers/candidates.controller.ts:148-176 | only supplied fields are checked, each by the create rule; any error is a 400 |
| CandidatesController.UpdateBodyError | backend/src/controllers/candidates.controller.ts:148-200 | none iff every supplied field and every range passes |
| CandidatesController.CreateAcceptedIsUpdateAccepted | backend/src/controllers/candidates.controller.ts:24-71 | a body that passes the create checks passes the update checks |
| CandidatesController.EmptyFirstNameRejectedOnUpdate | backend/src/controllers/candidates.controller.ts:148-152 | a supplied empty first name still fails as required |
| CandidatesController.AnswerRecord | backend/src/controllers/candidates.controller.ts:83-93 | a record is sent with the given status, and a service error goes to `next` |
| CandidatesController.ListCandidates | backend/src/controllers/candidates.controller.ts:96-113 | 200 with `ListPage` of the store at the page and limit read from the query (defaults 1 and 10), both at least 1, so at most `limit` records |
| CandidatesController.DefaultListing | backend/src/controllers/candidates.controller.ts:98-99 | without a query, page 1 of 10 is listed |
| CandidatesController.GetCandidate | backend/src/controllers/candidates.controller.ts:115-136 | a non-numeric id: 400 before any read; otherwise the read's record with 200, or its error |
| CandidatesController.DownloadCv | backend/src/controllers/candidates.controller.ts:283-305 | a non-numeric id: 400; an unknown id: 404; a candidate without CV: 404; otherwise `getFile`'s error, or 200 with its bytes, MIME type and file name |
| CandidatesController.UploadThenDownload | backend/src/controllers/candidates.controller.ts:249-305 | downloading after an upload returns the uploaded bytes under the stored name |
| CandidatesController.DownloadAfterDelete | backend/src/controllers/candidates.controller.ts:225-305 | after a delete the download fails 404 |
| CandidatesController.CreateCandidateController | backend/src/controllers/candidates.controller.ts:19-94 | a failed check passes its error on and leaves the store; otherwise the store makes `Create`'s change and the answer is 201 with the record or the error |
| CandidatesController.UpdateCandidateController | backend/src/controllers/candidates.controller.ts:138-223 | bad id or failed check: the error and no change; otherwise `Update`'s change and 200 with the record or the error |
| CandidatesController.DeleteCandidateController | backend/src/controllers/candidates.controller.ts:225-247 | bad id: 400 and no change; otherwise `Delete`'s change; the CV file is removed iff the deleted record names one; 200 on success |
| CandidatesController.UploadCvController | backend/src/controllers/candidates.controller.ts:249-281 | bad id 400, no file 400, unknown candidate 404, each before any write; otherwise the file is saved and the candidate's CV fields are the returned metadata |
| CandidateForm.KeyName | frontend/src/components/CandidateForm/CandidateForm.tsx:68-99 | entry keys are spelled `education-…` and `work-…` |
| CandidateForm.NameError | frontend/src/components/CandidateForm/CandidateForm.tsx:39-57 | a name records the required error when blank, the length error only otherwise, and nothing iff non-blank and at least 2 long |
| CandidateForm.RequiredError | frontend/src/components/CandidateForm/CandidateForm.tsx:66-74 | an entry field records the required error iff blank |
| CandidateForm.DatesError | frontend/src/components/CandidateForm/CandidateForm.tsx:76-81 | a `…-dates` error is recorded iff both dates are given and the range check fails |
| CandidateForm.EmailError | frontend/src/components/CandidateForm/CandidateForm.tsx:59-62 | the email records an error iff it does not match the pattern |
| CandidateForm.EducationEntryErrors | frontend/src/components/CandidateForm/CandidateForm.tsx:65-82 | an education entry records nothing iff institution and degree are non-blank and its range is accepted |
| CandidateForm.WorkEntryErrors | frontend/src/components/CandidateForm/CandidateForm.tsx:85-102 | a work entry records nothing iff company and position are non-blank and its range is accepted |
| CandidateForm.AcceptedEducationPart | frontend/src/components/CandidateForm/CandidateForm.tsx:65-82 | an accepted education entry records no error under any of its three keys |
| CandidateForm.AcceptedWorkPart | frontend/src/components/CandidateForm/CandidateForm.tsx:85-102 | an accepted work entry records no error under any of its three keys |
| CandidateForm.NoErrorIffAccepted | frontend/src/components/CandidateForm/CandidateForm.tsx:35-105 | no key records an error exactly when every field and entry is accepted |
| CandidateForm.RecordAt | frontend/src/components/CandidateForm/CandidateForm.tsx:41 | recording an error writes that key only |
| CandidateForm.NameErrorsAt | frontend/src/components/CandidateForm/CandidateForm.tsx:39-62 | after the names and the email, each of those keys holds its own error and no other key is set |
| CandidateForm.RecordEducationEntryAt | frontend/src/components/CandidateForm/CandidateForm.tsx:65-82 | one pass of the education loop writes the three keys of that entry and no others |
| CandidateForm.RecordWorkEntryAt | frontend/src/components/CandidateForm/CandidateForm.tsx:85-102 | one pass of the work loop writes the three keys of that entry and no others |
| CandidateForm.AllKeysRecorded | frontend/src/components/CandidateForm/CandidateForm.tsx:104-105 | after both loops the map holds exactly the recorded errors, and is empty iff the form is accepted |
| CandidateForm.ValidateForm | frontend/src/components/CandidateForm/CandidateForm.tsx:35-106 | the map holds exactly the error each key records; the result is true iff the map is empty iff the form is accepted |
| CandidateForm.VisitedEveryKey | frontend/src/components/CandidateForm/CandidateForm.tsx:65-102 | every key that can record an error is visited by the loops |
| CandidateForm.SubmitPayload | frontend/src/components/CandidateForm/CandidateForm.tsx:122-130 | the names and email are sent as typed; empty phone, address and lists are sent as undefined, and non-empty ones unchanged |
| CandidateForm.AcceptedFormPassesServerChecks | frontend/src/components/CandidateForm/CandidateForm.tsx:113-130 | a form the browser accepts passes every create check of the server |
| CandidateForm.ServerSkipsEntryFields | backend/src/controllers/candidates.controller.ts:24-71 | the converse fails: an education entry with an empty institution passes the server but not the form |
| CandidateForm.HandleSubmit | frontend/src/components/CandidateForm/CandidateForm.tsx:108-151 | a rejected form sends nothing and shows the fix-errors message; otherwise the payload is sent; success iff the create resolves; a rejection shows its message or the fallback; the CV upload starts iff a file was chosen and the response carries a non-zero id, and its outcome never changes success |
| CandidateForm.RemoveAt | frontend/src/components/CandidateForm/CandidateForm.tsx:157-159 | removing index i drops exactly entry i and keeps the rest in order; an index outside the list changes nothing |
| CandidateForm.ReplaceAt | frontend/src/components/CandidateForm/CandidateForm.tsx:161-165 | the entry at the index is replaced and every other entry kept |
| CandidateForm.AddEducation | frontend/src/components/CandidateForm/CandidateForm.tsx:153-155 | appends a blank entry after the old list |
| CandidateForm.AddWorkExperience | frontend/src/components/CandidateForm/CandidateForm.tsx:167-169 | appends a blank entry after the old list |
| CandidateForm.RemoveUndoesAdd | frontend/src/components/CandidateForm/CandidateForm.tsx:153-159 | removing the entry just added gives back the list |
| CandidateForm.BlankEntryRecordsErrors | frontend/src/components/CandidateForm/CandidateForm.tsx:66-74 | a freshly added entry is reported as missing its institution and degree |
| CandidateForm.EditEducation | frontend/src/components/CandidateForm/CandidateForm.tsx:161-165 | only the edited field of the entry changes |
| CandidateForm.UpdateEducation | frontend/src/components/CandidateForm/CandidateForm.tsx:161-165 | the list keeps its length, the entry at the index becomes `EditEducation` of it, and every other entry is kept |
| CandidateForm.EditWork | frontend/src/components/CandidateForm/CandidateForm.tsx:175-179 | only the edited field of the entry changes |
| CandidateForm.UpdateWorkExperience | frontend/src/components/CandidateForm/CandidateForm.tsx:175-179 | the list keeps its length, the entry at the index becomes `EditWork` of it, and every other entry is kept |
| CandidateForm.EditTouchesOneKey | frontend/src/components/CandidateForm/CandidateForm.tsx:161-165 | editing one entry's institution changes no error except that entry's institution error |

## Left out

- The database client, the Express app and its routing, and the HTTP client of the frontend are not part of this model. The store is an in-memory value, and handlers take the parsed body.
- Concurrency is not modelled. The read-then-write email check and the untransacted delete-then-update run as one sequential step.
- Date parsing (`new Date(s)`) is a parameter. Dates are stored as the strings given, not as `Date` values.
- `IsWs` covers the common whitespace characters, not every Unicode space of JavaScript's `\s`. `ToLower` folds ASCII letters only. Lengths count characters, not UTF-16 code units.
- `parseInt` is modelled for decimal digits with an optional sign, `0x` prefixes and surrounding whitespace. Its loss of precision on very long digit strings is not modelled.
- Row ids and `createdAt` are not stored. "Newest first" is read as decreasing candidate id, which is the creation order.
- A JSON `null` in a body is treated like an absent field. Non-string values where strings are expected are not modelled.
- `__dirname`, real paths with trailing slashes, and the stack frames of errors are not modelled. An error's stack is its first line.
- The filesystem is a map path → bytes plus a set of directories. `mkdir`, `writeFile` and `unlink` cannot fail, and no permissions are modelled.
- multer's multipart parsing is not modelled. The upload stage receives an already-parsed file.
- Console logging in the controllers and the form is not modelled.
- The login controller, the auth context and the React components other than the form are not modelled. The rendering, navigation and the two-second timer of the form are not modelled either.
- Checks that the file-upload component runs before a file reaches the form are not modelled. `validateForm` itself never checks the CV.
- CandidateService.Create: an entry date that is truthy but does not parse is stored as its string and the create succeeds. The source passes `new Date(s)`, an invalid date, to the database client, which rejects the write with a 500. The handler lets such a date through when the entry's other date is missing (CandidatesController.UnparseableSingleDateAccepted). Date values are not modelled.
- CandidateService.Update: the same unparseable single date is stored here. In the source the client rejects `candidate.update` after the `deleteMany` calls, so the supplied lists' old rows are gone and the candidate is unchanged.
- CandidateService.ListPage: requires page ≥ 1 and limit ≥ 1. A negative skip or take is the database client's own behaviour, which the model does not describe (see Findings).
- CandidateService.CandidateStore.GetCandidates: requires page ≥ 1 and limit ≥ 1, for the same reason.
- CandidateService.SetCv: requires a stored id. The client throws on a missing id, and the upload handler checks existence first.
- CandidateService.CandidateStore.UpdateCandidateCV: requires a stored id, for the same reason.
- CandidatesController.ListCandidates: uses the corrected page and limit reading below, not `parseInt(q) || 1` as written.
- CandidateForm.UpdateEducation: requires an index inside the list. The form only calls it for rendered entries. JavaScript would fill holes for an index past the end, and that is not modelled.
- CandidateForm.UpdateWorkExperience: requires an index inside the list, for the same reason.
- CandidateForm.HandleSubmit: the upload's outcome is not an input, because the source ignores it.

## Findings

| source | as written | input that shows it | evidently intended | confidence | as-written member | corrected member |
|---|---|---|---|---|---|---|
| backend/src/controllers/candidates.controller.ts:98-99 | `parseInt(req.query.page) \|\| 1` keeps every non-zero number, negatives included, and the same holds for `limit` | `GET /candidates?page=-1`: the service computes `skip = (-1 - 1) * 10 = -20` | a page and a limit below 1 fall back to the defaults | not executed | CandidatesController.NegativeQueryKept | CandidatesController.PositiveQueryNumber |
