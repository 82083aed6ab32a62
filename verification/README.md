# Document management backend — a Dafny model

This project models the decision logic of an Express/Mongoose backend that stores
PDF documents, attaches placeholder text extractions to them, and guards its routes
with JSON Web Token authentication. The model is functional:

- the database is an immutable `Store`: documents and extraction sets, each in
  insertion order;
- every operation is a pure function returning a `Result`/`Outcome`, and writes
  return the store as it stands afterwards;
- the filesystem, the clock, randomness, password hashing and token signing are
  parameters.

Modules follow the backend's files:

| module | file | models |
|---|---|---|
| `Outcomes` | `outcomes.dfy` | application errors (`CustomError(message, status)`, upload-parser errors, schema `ValidationError`, anything else), `Result`, `Outcome` |
| `Text`, `Paths`, `Lookup` | `text.dfy`, `paths.dfy`, `lookup.dfy` | the JavaScript string operations, `path.basename`/`extname`/`join`, and `findOne`/`deleteOne` over an ordered collection |
| `Models` | `models.dfy` | the document and extraction records, the store's invariant, `save()` with the schema's `required` checks and the unique `_id` |
| `PageOrder`, `MockData` | `page_order.dfy`, `mock_data.dfy` | the stable sort by page number, and the mock extraction generator |
| `Upload`, `Validation`, `ErrorHandler` | `upload.dfy`, `validation.dfy`, `error_handler.dfy` | the upload filter and limits, the request validators, and the global error handler |
| `DocumentService`, `DocumentController` | `document_service.dfy`, `document_controller.dfy` | the document lifecycle and its route handlers |
| `Users`, `AuthService`, `Auth` | `users.dfy`, `auth_service.dfy`, `auth.dfy` | the user schema and admin bootstrap, login and tokens, and the authentication and role gates |
| `DocumentCleanup` | `document_cleanup.dfy` | the orphaned-document cleanup, a loop over the store's listing |

A route handler answers `Respond(status, body, headers)` or `Next(error)`; the
error handler then turns `Next(error)` into a status and `{error}` body.

Where the code and the behaviour its tests describe disagree, the model follows the code:

- the metadata projection carries only `id`, `fileName`, `uploadDate`, `hasFile`
  and `fileUrl`: there is no size, page count or path;
- extraction retrieval returns no page total;
- the service never checks the disk;
- the error handler has no branch of its own for storage-layer errors, so schema and
  duplicate-key failures answer 500.

## Model

| member | source | states |
|---|---|---|
| Models.MissingPaths | backend/src/models/Document.ts:19-32 | a document is refused by the `required` validators exactly when one of its required string paths is empty; every reported path is one of the six required paths |
| Models.SaveDocument | backend/src/models/Document.ts:19-32 | a save succeeds exactly when no required path is missing and the id is new; it then appends the document and touches nothing else; a missing path gives a schema error naming the paths |
| Models.SaveDocumentKeepsValid | backend/src/models/Document.ts:19-32 | saving keeps the store consistent: unique ids, and every extraction set refers to a stored document |
| Models.AddSetKeepsValid | backend/src/services/documentService.ts:52-58 | saving the extraction set of a stored document that has none yet keeps the store consistent |
| Models.FindDocument | backend/src/services/documentService.ts:64 | `findById` finds nothing exactly when no document has the id; otherwise it finds a stored document with that id |
| Models.FindExtractions | backend/src/services/documentService.ts:101 | `findOne({documentId})` finds nothing exactly when no set has the id; otherwise a stored set for that document |
| Lookup.FindFirst | backend/src/services/documentService.ts:64-66 | the lookup fails exactly when no element has the key; a found element is in the collection and has the key |
| Lookup.FindFirstUnique | backend/src/services/documentService.ts:64 | under a unique index the lookup by an element's key returns that very element |
| Lookup.RemoveFirst | backend/src/services/documentService.ts:120-123 | `deleteOne` changes nothing when no element has the key, and otherwise removes exactly one element |
| Lookup.RemoveFirstKeeps | backend/src/services/documentService.ts:120-123 | `deleteOne` adds nothing, keeps every element with another key, and under a unique index leaves none with the removed key |
| Lookup.RemoveFirstAt | backend/src/utils/documentCleanup.ts:24 | when the first element with a key is at position j, deleting by that key removes exactly position j |
| Lookup.RemoveFirstSlice | backend/src/services/documentService.ts:120-123 | `deleteOne` on a present key cuts the collection at the first match: the elements before and after it stay, in order |
| Lookup.AppendKeepsUnique | backend/src/models/User.ts:16-21 | inserting an element whose key is new keeps a unique index unique |
| PageOrder.Insert | backend/src/services/documentService.ts:109 | inserting into the sorted run adds exactly the one element (as a multiset) |
| PageOrder.SortByPage | backend/src/services/documentService.ts:109 | the sort with comparator `a.pageNumber - b.pageNumber`, as a stable insertion sort; its properties are the lemmas below (sorted, a permutation, stable, idempotent) |
| PageOrder.InsertSorted | backend/src/services/documentService.ts:109 | inserting into a page-sorted sequence keeps it sorted |
| PageOrder.SortByPageSorted | backend/src/services/documentService.ts:109 | the sort's output is non-decreasing by page number |
| PageOrder.SortByPagePermutes | backend/src/services/documentService.ts:109 | the sort's output is a permutation of its input |
| PageOrder.OnPageAppend | backend/src/services/documentService.ts:109 | the items on one page of a concatenation are those of each part, in order |
| PageOrder.InsertOnPage | backend/src/services/documentService.ts:109 | inserting puts the new item before the items already on its page and leaves other pages alone |
| PageOrder.SortByPageStable | backend/src/services/documentService.ts:109 | the sort is stable: on every page the items keep their original relative order |
| PageOrder.SortByPageFixesSorted | backend/src/services/documentService.ts:109 | an already sorted sequence is left exactly as it is |
| PageOrder.SortByPageIdempotent | backend/src/services/documentService.ts:109 | sorting twice is sorting once |
| MockData.Generated | backend/src/utils/mockData.ts:21-25 | item i, before sorting, has the i-th id, the chosen phrase and page (i mod 5) + 1 |
| MockData.GenerateMockExtractions | backend/src/utils/mockData.ts:3-31 | the document id is returned unchanged; there are 8 to 12 items; they are sorted by page, a permutation of the generated items and stable per page; every page is in 1..5 and every text is one of the ten phrases |
| MockData.EveryPageCovered | backend/src/utils/mockData.ts:18-24 | since there are at least 8 items, each of pages 1 to 5 occurs |
| MockData.SortedKeepsItems | backend/src/utils/mockData.ts:27-30 | sorting loses none of the generated items |
| Paths.Basename | backend/src/controllers/documentController.ts:77 | the base name is the suffix of the path after its last `/`, and holds no `/` |
| Paths.Extname | backend/src/middleware/upload.ts:21 | the extension is a tail of the base name, empty or a `.` followed by no further `.`, and non-empty exactly when the base name has a `.` after its first character: the base name from its last non-leading `.` |
| Paths.ExtOfName | backend/src/middleware/upload.ts:21 | the extension of a base name is a tail of it, empty or a `.` followed by no further `.`, and non-empty exactly when the name has a `.` after its first character |
| Paths.ExtnameOfStem | backend/src/middleware/upload.ts:21-22 | a plain, dot-free stem followed by an extension-shaped tail has that tail as its extension |
| Paths.ResolveInDir | backend/src/controllers/documentController.ts:74-80 | the served path is the uploads directory, `/`, and the stored path's base name, so no directory of the stored path survives |
| Paths.ResolveIgnoresDirectories | backend/src/controllers/documentController.ts:76-80 | stored paths that differ only in their directories resolve to the same file |
| Paths.LastSlashIsBeforeName | backend/src/controllers/documentController.ts:77 | a path ending in `/name` (or equal to `name`) has base name `name` |
| Paths.BasenameOfPlain | backend/src/middleware/upload.ts:21 | a name with no `/` is its own base name |
| Paths.ExtnameAt | backend/src/middleware/upload.ts:21 | the extension of a plain name starts at its last `.`, when that dot is not the first character |
| Paths.ExtnameNone | backend/src/middleware/upload.ts:21 | a plain name without a `.` has no extension |
| Upload.FileFilter | backend/src/middleware/upload.ts:26-39 | a file passes exactly when it is declared `application/pdf` and its lower-cased extension is `.pdf`; the type is checked first ("Only PDF files are allowed"), then the extension ("Only .pdf files are allowed"), both 400 |
| Upload.UpperCaseExtensionAccepted | backend/src/middleware/upload.ts:33-36 | `X.PDF` declared as a PDF is accepted |
| Upload.ExtnameOfUpperPdf | backend/src/middleware/upload.ts:21 | the extension of `X.PDF` is `.PDF` |
| Upload.LowerOfUpperPdf | backend/src/middleware/upload.ts:33 | lower-casing `.PDF` gives `.pdf` |
| Upload.WrongTypeRefusedFirst | backend/src/middleware/upload.ts:28-30 | a `text/plain` file is refused on its type, whatever its name |
| Upload.StoredFilenameKeepsExtension | backend/src/middleware/upload.ts:18-23 | the stored name is a bare file name and has the original name's extension |
| Upload.StoredFilename | backend/src/middleware/upload.ts:18-23 | the stored name is the field name, `-`, the timestamp, `-`, the rounded random number, then the original name's extension; `StoredFilenameKeepsExtension` proves it is a bare name with that extension |
| Upload.CheckLimits | backend/src/middleware/upload.ts:41-47 | an upload is within limits exactly when the file is at most 100 MiB and there is at most one file; a larger file is refused with `LIMIT_FILE_SIZE` |
| Upload.MaxFileSizeIs100MiB | backend/src/middleware/upload.ts:42 | the limit is 104857600 bytes, 100 MiB |
| Validation.ValidateFileUpload | backend/src/middleware/validation.ts:31-41 | a request passes exactly when a file is present and declared `application/pdf`; no file is "No file uploaded", a wrong type "Only PDF files are allowed", both 400 |
| Validation.HandleValidationErrors | backend/src/middleware/validation.ts:46-57 | no messages lets the request through; otherwise one 400 error whose message is the messages joined by ", " |
| Validation.HandleValidationErrorsKeepsOrder | backend/src/middleware/validation.ts:52-55 | the joined message of two batches is the first batch's message, ", ", then the second's: order is preserved |
| Validation.DocumentIdErrors | backend/src/middleware/validation.ts:8-15 | the id is accepted exactly when it is not all whitespace; otherwise the one message "Document ID is required" |
| Validation.DocumentIdGate | backend/src/middleware/validation.ts:8-15 | with the error step behind it, the id check refuses exactly the blank ids, with 400 "Document ID is required" |
| Validation.TotalPagesErrors | backend/src/middleware/validation.ts:20-26 | an absent value is accepted; a present one is accepted exactly when its trimmed text is an integer of at least 1; the only possible message is "Total pages must be a positive integer" |
| Validation.TotalPagesDecimalIff | backend/src/middleware/validation.ts:20-26 | a count written in decimal is accepted exactly when it is at least 1 |
| Validation.TotalPagesAcceptsPositive | backend/src/middleware/validation.ts:20-26 | every positive count written in decimal is accepted |
| Validation.TotalPagesRefusesZero | backend/src/middleware/validation.ts:20-26 | `0` is refused |
| Validation.TotalPagesRefusesBlank | backend/src/middleware/validation.ts:20-26 | a value of only whitespace is refused |
| ErrorHandler.FileTooLargeText | backend/src/middleware/errorHandler.ts:25-29 | the size message, computed from the limit, reads "File size too large. Maximum size is 100MB" |
| ErrorHandler.HandleCustomError | backend/src/middleware/errorHandler.ts:9-16 | an application error answers its own status with its own message |
| ErrorHandler.HandleMulterError | backend/src/middleware/errorHandler.ts:21-33 | every upload-parser error answers 400; the size message exactly for `LIMIT_FILE_SIZE`, "File upload error" otherwise |
| ErrorHandler.HandleError | backend/src/middleware/errorHandler.ts:38-64 | first match wins: application errors keep status and message; upload-parser errors answer 400, with the 100MB message for `LIMIT_FILE_SIZE` and "File upload error" otherwise; everything else 500 "Internal server error" |
| ErrorHandler.ServerErrorIff | backend/src/middleware/errorHandler.ts:51-63 | the handler answers 500 exactly for unknown errors and for application errors that carry 500 |
| ErrorHandler.SchemaFailureIsInternal | backend/src/middleware/errorHandler.ts:61-63 | a schema validation failure answers 500 "Internal server error" |
| ErrorHandler.UploadRefusalsAre400 | backend/src/middleware/errorHandler.ts:25-32 | every refusal of the upload filter or limits answers 400, an oversized file with the 100MB message |
| DocumentService.ToMetadata | backend/src/services/documentService.ts:12-18 | the projection has a file exactly when the stored path is non-empty, exactly then carries a URL, and that URL is the stored path; id, file name and upload date are copied; `filePath` is never set |
| DocumentService.NewDocument | backend/src/services/documentService.ts:36-47 | the record a create builds: title and file name the original name, description "Uploaded document", path `/uploads/<stored name>`, the declared type, metadata size/`system`/version 1; `CreateDocument` states these fields of the appended record |
| DocumentService.GetAllDocuments | backend/src/services/documentService.ts:20-23 | one projection per stored document, in store order |
| DocumentService.GetAllDocumentsIds | backend/src/services/documentService.ts:20-23 | the listing's ids are the stored ids, position by position, so every listed id can be looked up |
| DocumentService.CreateDocument | backend/src/services/documentService.ts:25-61 | no file is 400 "No file uploaded", a non-PDF type 400 "Only PDF files are allowed", and every failure leaves the store unchanged; success happens exactly for a present PDF with a non-empty original name and a fresh id, and appends one document (title and file name the original name, description "Uploaded document", path `/uploads/<stored name>`, the declared type, upload date the creation time, no tags, metadata size/`system`/1) and one extraction set for it |
| DocumentService.CreateThenGetMetadata | backend/src/services/documentService.ts:36-70 | after a successful create, looking the new id up answers the projection the create returned |
| DocumentService.CreateDocumentKeepsValid | backend/src/services/documentService.ts:36-58 | creating keeps the store consistent |
| DocumentService.GetDocumentMetadata | backend/src/services/documentService.ts:63-70 | fails with 404 "Document not found" exactly when the id is absent; otherwise answers that stored document's projection |
| DocumentService.DefaultDocumentMissesFilePath | backend/src/services/documentService.ts:76-88 | the default record lacks exactly one required path, `filePath` |
| DocumentService.GetOrCreateDefaultMetadata | backend/src/services/documentService.ts:72-93 | as written: an existing id answers its projection; an unknown id answers a schema error on `filePath`; the store never changes |
| DocumentService.DefaultDocumentNeverSaved | backend/src/services/documentService.ts:76-89 | the default record is refused by every store, whatever the id |
| DocumentService.GetOrCreateDefaultMetadataIntended | backend/src/services/documentService.ts:72-93 | corrected: an unknown id gets the default record appended (empty path, size 0) and answers its projection; an existing id changes nothing |
| DocumentService.GetOrCreateDefaultIdempotent | backend/src/services/documentService.ts:72-93 | a second call with the same id changes nothing and answers the same |
| DocumentService.GetDocumentExtractions | backend/src/services/documentService.ts:95-111 | absent document 404 "Document not found", absent set 404 "No extractions found for this document"; on success the items are the stored set's, sorted by page, as a permutation that is stable per page |
| DocumentService.DeleteFrom | backend/src/services/documentService.ts:120-123 | the first extraction set for the id (if any) and the first document with the id are cut out; the records before and after each cut stay, in order; with no set for the id the sets are untouched |
| DocumentService.DeleteFromKeeps | backend/src/services/documentService.ts:120-123 | the cut removes one document and at most one set, adds nothing, and keeps every record of another id |
| DocumentService.DeleteFromValid | backend/src/services/documentService.ts:120-123 | in a consistent store the cut leaves a consistent store with no document and no set for the id |
| DocumentService.DeleteDocument | backend/src/services/documentService.ts:113-124 | a missing id is 404 and changes nothing; otherwise the first extraction set for the id and then the document are cut out, every other document and set stays in its place and order, nothing is added; in a consistent store, no document or set for the id remains and the store stays consistent |
| DocumentService.DeleteThenLookupsFail | backend/src/services/documentService.ts:113-124 | after a delete, both the metadata and the extraction lookups of the id answer "Document not found" |
| DocumentController.UploadDocument | backend/src/controllers/documentController.ts:13-23 | no file is `Next` 400 "No file uploaded" with the store unchanged; otherwise the service's result becomes 201 with the projection, or its error is passed on |
| DocumentController.UploadNoFileMatchesService | backend/src/controllers/documentController.ts:15-18 | the handler's own no-file check gives the same error the service would |
| DocumentController.ValidateFileUploadGuardsCreate | backend/src/routes/documents.ts:177 | on the upload route the validator runs before the handler: what it refuses the service refuses with the same error and no change; once it passes, the service fails only for an empty original name or a taken id |
| DocumentController.GetDocuments | backend/src/controllers/documentController.ts:25-32 | always 200 with the service's listing |
| DocumentController.GetExtractions | backend/src/controllers/documentController.ts:34-42 | 200 with the service's sorted extractions, or the service's error passed on unchanged |
| DocumentController.GetDocumentMetadataHandler | backend/src/controllers/documentController.ts:44-52 | 200 with the projection exactly when the document exists, otherwise `Next` "Document not found" |
| DocumentController.DeleteDocumentHandler | backend/src/controllers/documentController.ts:54-62 | an existing document is deleted and answered 204 with an empty body; a missing one is `Next` 404 with the store unchanged |
| DocumentController.ServeFile | backend/src/controllers/documentController.ts:69-97 | no path is 404 "File path not found"; a missing file 404 "File not found on disk"; a failed send 500 "Error sending file"; otherwise 200 with the file inside the uploads directory, `Content-Type: application/pdf` and `Content-Disposition: inline; filename="<fileName>"` |
| DocumentController.PdfHeaders | backend/src/controllers/documentController.ts:88-89 | the two headers set before sending: `Content-Type: application/pdf` and `Content-Disposition: inline; filename="<fileName>"` |
| DocumentController.GetDocumentFile | backend/src/controllers/documentController.ts:64-101 | as written: an absent document is `Next` "Document not found" |
| DocumentController.GetDocumentFileNeverServes | backend/src/controllers/documentController.ts:67-71 | as written, every existing document answers 404 "File path not found" and no file is ever served |
| DocumentController.GetDocumentFileIntended | backend/src/controllers/documentController.ts:64-101 | corrected (path read from `fileUrl`): an absent document is `Next` "Document not found" |
| DocumentController.GetDocumentFileIntendedRefuses | backend/src/controllers/documentController.ts:69-96 | corrected: a stored document without a file is 404 "File path not found", one whose file is missing on disk 404 "File not found on disk", a failed send 500 "Error sending file" |
| DocumentController.GetDocumentFileIntendedServes | backend/src/controllers/documentController.ts:74-97 | corrected: a document whose stored file exists is served 200 from the uploads directory as an inline PDF named after its original file |
| DocumentController.UploadThenExtractions | backend/src/controllers/documentController.ts:13-42 | uploading `contract.pdf` answers 201 with that name and a `/uploads/` URL, and its extractions are then served 200: 8 to 12 of them, sorted, on pages 1 to 5 |
| Users.SchemaErrors | backend/src/models/User.ts:15-40 | a user is valid exactly when email and name are non-empty, the password has at least 6 characters and the role is `admin` |
| Users.NormalizeEmail | backend/src/models/User.ts:16-22 | the email setters: trim, then lower-case |
| Users.Cast | backend/src/models/User.ts:15-37 | a new user as the schema casts it: email normalised, name trimmed, password as given, role `admin` when none is given; `CreateUser` states the stored record |
| Users.PreSave | backend/src/models/User.ts:43-53 | an unmodified password is kept as is; a modified one is replaced by exactly its salted hash (10 rounds), and a hashing failure aborts the save; nothing else changes |
| Users.ResaveKeepsHash | backend/src/models/User.ts:44 | saving again without modifying the password keeps the hash: a hash is never hashed again |
| Users.CreateUser | backend/src/models/User.ts:15-53 | a create succeeds exactly when the trimmed, lower-cased email and the trimmed name are non-empty, the password has 6 characters, the role is absent or `admin`, hashing works and id and email are new; it appends the user with the hashed password and role `admin` |
| Users.CreateUserKeepsValid | backend/src/models/User.ts:16-21 | creating keeps both unique indexes and the schema rules of every stored user |
| Users.EnsureAdminExists | backend/src/models/User.ts:63-82 | nothing is created when a user has the seed email; otherwise either exactly the admin account is appended or, on any failure, the collection is unchanged and no error escapes |
| Users.EnsureAdminExistsIdempotent | backend/src/models/User.ts:69-78 | once the admin exists, running the bootstrap again creates nothing |
| Users.EnsureAdminExistsKeepsValid | backend/src/models/User.ts:69-78 | the bootstrap keeps the collection's invariants |
| Users.DefaultAdminCreated | backend/src/models/User.ts:65-77 | with no environment overrides, an empty collection gets exactly `admin@example.com`, `Admin User`, role `admin`, holding the hash of `admin123` |
| Users.DefaultEmailIsNormal | backend/src/models/User.ts:16-22 | the default admin email is unchanged by the email setters |
| Users.DefaultNameIsTrimmed | backend/src/models/User.ts:28-32 | the default admin name is unchanged by trimming |
| Users.DefaultSeedCast | backend/src/models/User.ts:65-77 | with no environment overrides the seed is `admin@example.com` / `admin123` / `Admin User` / `admin`, and the schema setters leave it as it is |
| Text.Or | backend/src/services/authService.ts:5 | `value \|\| fallback`: a set, non-empty value wins, otherwise the fallback |
| Text.TrimsToItself | backend/src/middleware/validation.ts:10 | `trim` leaves a string with no whitespace at either end unchanged |
| Text.TrimEmptyIffBlank | backend/src/middleware/validation.ts:10-11 | trimming leaves nothing exactly when the string is all whitespace |
| Text.JoinSplit | backend/src/middleware/auth.ts:27 | joining the pieces of a split with the separator gives the string back |
| AuthService.FindAdmin | backend/src/services/authService.ts:28 | the lookup finds nothing exactly when no user has that email and role `admin`; a found user has both |
| AuthService.GenerateToken | backend/src/services/authService.ts:61-69 | signs the user's id, email and role with the secret and the 24-hour lifetime (86400 seconds); `GenerateThenVerify` connects it to verification |
| AuthService.VerifyToken | backend/src/services/authService.ts:52-59 | succeeds exactly when the library verifies the token, returning its payload unchanged; every failure is 401 "Invalid token" |
| AuthService.GenerateThenVerify | backend/src/services/authService.ts:52-68 | a token issued for a user verifies to a payload carrying the user's id, email and role |
| AuthService.Login | backend/src/services/authService.ts:23-50 | every failure is the same 401 "Invalid credentials"; with no admin of that email it fails; a success is an admin with that email whose password matches, answered with its token and `{id, email, name}` |
| AuthService.LoginSucceedsIff | backend/src/services/authService.ts:28-37 | under the unique email index, login succeeds exactly when a stored user has that email and the password matches its hash |
| AuthService.LoginTokenVerifies | backend/src/services/authService.ts:39-68 | a login's token verifies to the returned user's id and email with role `admin` |
| Auth.BearerSplit | backend/src/middleware/auth.ts:27 | splitting a `Bearer ` header on spaces gives `Bearer` followed by the pieces of the rest |
| Auth.BearerToken | backend/src/middleware/auth.ts:27 | the token is the text after `Bearer ` up to the next space or the end |
| Auth.BearerTokenOfHeader | backend/src/middleware/auth.ts:21-27 | a token without spaces is read back whole from `Bearer <token>` |
| Auth.Authenticate | backend/src/middleware/auth.ts:14-42 | no header or one not starting with `Bearer ` is 401 "No token provided" before any token check; a token failure is passed on unchanged; an unknown decoded id is 401 "User not found"; a verified token naming a stored user passes; a success attaches the stored user with that id, without its password; every failure is 401 |
| Auth.Authorize | backend/src/middleware/auth.ts:44-58 | passes exactly when a user is attached and its role is listed; no user is 401 "Not authorized", an unlisted role 403 "Not authorized to access this route" |
| Auth.LoginThenAccess | backend/src/middleware/auth.ts:14-58 | presenting a login's token as `Bearer <token>` gets through both gates of an admin route as the user who logged in |
| DocumentCleanup.KeptMembers | backend/src/utils/documentCleanup.ts:20-25 | the documents kept are exactly those whose file exists |
| DocumentCleanup.Kept | backend/src/utils/documentCleanup.ts:16-25 | the documents whose stored path exists, in listing order; never more than the listing |
| DocumentCleanup.MissingCountIsDropped | backend/src/utils/documentCleanup.ts:16-27 | the count of missing files is the number of documents the filter drops |
| DocumentCleanup.KeptUnique | backend/src/utils/documentCleanup.ts:24 | the documents left keep the unique `_id` index |
| DocumentCleanup.RemoveOrphan | backend/src/utils/documentCleanup.ts:20-25 | while walking the listing, deleting the orphan at the current position removes exactly that document |
| DocumentCleanup.SweepStep | backend/src/utils/documentCleanup.ts:16-27 | one step of the walk: a document whose file exists is passed over; an orphan is deleted by `_id` and counted; either way the store is still the kept part of the visited prefix followed by the unvisited rest |
| DocumentCleanup.Sweep | backend/src/utils/documentCleanup.ts:16-27 | with no failed delete, the store keeps exactly the documents with files, in order, and the count is the number of documents without one; otherwise it stops at the first orphan whose delete fails, with the documents before it already filtered |
| DocumentCleanup.CleanupOrphanedDocuments | backend/src/utils/documentCleanup.ts:9-40 | extraction sets are never touched; a failed listing changes nothing and returns 0; without failures exactly the documents with missing files go and their number is returned; a failed delete returns 0 with the earlier deletions kept |
| DocumentCleanup.SecondRunRemovesNothing | backend/src/utils/documentCleanup.ts:16-27 | against the same filesystem, a second run removes nothing and returns 0 |
| DocumentCleanup.AllPresentKeepsAll | backend/src/utils/documentCleanup.ts:20-27 | when every file exists, nothing is removed and the count is 0 |
| DocumentCleanup.CleanupCanOrphanExtractions | backend/src/utils/documentCleanup.ts:24 | unlike a document delete, the cleanup leaves a removed document's extraction set behind: a consistent store becomes inconsistent |

## Left out

- Express wiring: routing, request and response objects, and `res.sendFile` streaming. A handler's reply is a value, and the outcome of a send is the parameter `sendFails`.
- Multer's disk storage and the creation of the uploads directory. The stored file name is a function of `now` and `random` (`Date.now`, `Math.random`). The limits are the separate check `CheckLimits`.
- Calls to the filesystem: `fs.existsSync` is the parameter `onDisk`. The cleanup passes it the stored `filePath` (`/uploads/<name>`) as it is, while the controller passes the resolved path inside the uploads directory. Which of these exist is outside the model.
- Password hashing and comparison (bcrypt) and token signing and verification (RFC 7519) are parameters. Token expiry, the `exp` claim of section 4.1.4 of RFC 7519, is kept as the constant `JwtExpiresInSeconds`; the clock it is checked against is inside the `verify` parameter.
- AuthService.GenerateThenVerify, AuthService.LoginTokenVerifies, Auth.LoginThenAccess: these assume `SignerSound`, which says a token verifies to its payload. They therefore describe a token used before it expires.
- The token's `iat` and `exp` claims: the library adds `iat` when signing, and `verify` returns the decoded object with `iat` and `exp`, which `verifyToken` passes on. The model's `Payload` drops these two claims and keeps only `id`, `email` and `role`.
- Random ids (`uuid`, generated ObjectIds) and the mock generator's random draws are parameters (`newId`, `MockRolls`).
- ObjectId casting: ids are opaque strings. A malformed id that would fail to cast, including in `new Types.ObjectId(documentId)`, is not modelled.
- Dates are strings supplied by the caller. `lastModified`, the `timestamps` fields and `createdAt`/`updatedAt` are not modelled. `tags` is always empty.
- Storage failures other than schema validation and duplicate keys, such as a lost connection, are not modelled. The exceptions are the cleanup's `findFails`/`deleteFails` and a failed password hash.
- DocumentCleanup.CleanupOrphanedDocuments: requires the unique `_id` index over the listed documents, which every store has.
- Extraction sets are unique per `documentId` as an invariant of the model (`Models.Valid`). The database has no such index; the operations keep it.
- `trim` strips ASCII whitespace only, and `toLowerCase` lower-cases ASCII letters only.
- String lengths and positions count Unicode scalar values, not the UTF-16 code units JavaScript counts. For characters outside the Basic Multilingual Plane they differ: the password's `minlength: 6` (`Users.SchemaErrors`) accepts three emoji in JavaScript, but the model refuses them. Positions in `split`, `indexOf` and `lastIndexOf` follow the same convention.
- `path.basename` and `path.extname` cover plain paths only: no trailing slashes, and no special treatment of dotfiles beyond the leading-dot rule. `path.join` is modelled as concatenation with `/`, without normalising `..` or repeated slashes.
- The email setters (`trim`, `lowercase`) are taken to run on query filters as well as on saved documents. This is why lookups by email normalise the queried address.
- A schema validation error keeps only the failing paths, not the per-path messages.
- The entry point never calls the cleanup; it is modelled as a stand-alone operation.
- Console logging everywhere; the Swagger configuration; the frontend.

## Findings

| source | as written | input that shows it | evidently intended | confidence | as-written member | corrected member |
|---|---|---|---|---|---|---|
| backend/src/controllers/documentController.ts:67-71 | the file handler reads `filePath` from the metadata projection, which never sets it | any stored document, such as one just uploaded as `contract.pdf`: the answer is 404 "File path not found" | read the stored path, which the projection exposes as `fileUrl`, and serve the file | not executed | DocumentController.GetDocumentFileNeverServes | DocumentController.GetDocumentFileIntendedServes |
| backend/src/services/documentService.ts:76-89 | the default record has `filePath: ''`, but the schema marks `filePath` as required, and the required check refuses an empty string | any id not in the store: `save()` fails validation and the call ends in a schema error (500) instead of creating the default | store the default record (no file) so later calls find it | not executed | DocumentService.DefaultDocumentNeverSaved | DocumentService.GetOrCreateDefaultMetadataIntended |
