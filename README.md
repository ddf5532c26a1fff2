# siapms — a Dafny model of the project showcase's core logic

siapms is a project showcase: users register and log in, then publish
projects that have a cover photo, screenshots, links and a visibility flag.
This model covers the parts of it that hold real logic:

- the flat-file Express backend's project routes: the upload filter, the
  public and per-user listings, the visibility rule, and create, update and
  delete over the shared in-memory `projects` array;
- its authentication routes over the shared `users` array;
- its two validators;
- its error middleware;
- and, on the Angular client:
  - the markdown editor's toolbar insertion and preview toggle;
  - the project page's search filter and image URLs;
  - the project service's `Authorization` header and multipart form entries.

The modules follow the source files:

| module | file | models |
|---|---|---|
| `Wrappers` | wrappers.dfy | `Option`, standing for `undefined`/`null` |
| `JsText` | js_text.dfy | the JavaScript string and array operations the code relies on: `\s`, `trim`, ASCII `toLowerCase`, `includes`, `split`/`join` on one character, `substring` clamping, `filter` |
| `Bearer` | bearer.dfy | reading a token from `authorization?.split(" ")[1]` |
| `Validation` | validation.dfy | `validateEmail`, `validatePassword` |
| `ErrorHandler` | error_handler.dfy | `errorHandler` |
| `ProjectRoutes` | project_routes.dfy | the project routes; class `ProjectTable` for the shared array |
| `AuthRoutes` | auth_routes.dfy | the authentication routes; class `UserRegistry` for the shared array |
| `MarkdownEditor` | markdown_editor.dfy | the editor component; class `MarkdownEditorComponent` |
| `ProjectsPage` | projects_page.dfy | the projects page; class `ProjectsComponent` |
| `ProjectService` | project_service.dfy | the header and the form encoders |

Several calls are parameters of the operations that use them:

- bcrypt hashing and comparison;
- JWT signing and verification;
- `uuidv4`;
- the clock;
- `marked.parse`;
- the HTTP response of the page's load.

Times are integer timestamps. A multipart form is the sequence of its
`append` calls.

## Model

| member | source | states |
|---|---|---|
| Validation.ValidatePassword | siapms-frontend/utils/validation.js:6-8 | the password is accepted iff it is present and at least 6 characters long |
| Validation.ValidateEmailIsPattern | siapms-frontend/utils/validation.js:1-4 | the validator accepts exactly the language of `^[^\s@]+@[^\s@]+\.[^\s@]+$`: a run, '@', a run, '.', a run, where runs hold neither white space nor '@' |
| Validation.EmailRejectsSpace | siapms-frontend/utils/validation.js:2-3 | no string holding a white-space character is accepted |
| Validation.EmailHasOneAt | siapms-frontend/utils/validation.js:2-3 | an accepted address has exactly one '@', and something comes before it |
| Validation.EmailDomainHasInnerDot | siapms-frontend/utils/validation.js:2-3 | after the '@' there is a '.' that is neither directly after the '@' nor the last character |
| Validation.EmptyRejected | siapms-frontend/utils/validation.js:1-8 | the empty string fails both validators, and so does an absent password |
| Validation.ValidateEmail | siapms-frontend/utils/validation.js:1-4 | characterised by ValidateEmailIsPattern and the three lemmas above |
| ErrorHandler.HandleError | siapms-frontend/middleware/errorHandler.js:3-35 | the status is 400, 401 or 500; it is 500 iff none of the five checks applies; the `error` detail is present iff the status is 500 in development mode, and it is then the error's message |
| ErrorHandler.MulterLimitsAre400 | siapms-frontend/middleware/errorHandler.js:7-13 | the multer size and count limits give 400 with their fixed messages |
| ErrorHandler.ImageOnlyIs400 | siapms-frontend/middleware/errorHandler.js:17-19 | the upload filter's message gives 400 echoing it, even under a token error's name |
| ErrorHandler.TokenErrorsAre401 | siapms-frontend/middleware/errorHandler.js:22-28 | the two token errors give 401 "Invalid token" and 401 "Token expired" |
| ErrorHandler.OtherMulterCodesFallThrough | siapms-frontend/middleware/errorHandler.js:7-14 | a multer error with another code is classified exactly as the same error that is not from multer |
| ErrorHandler.FallbackIs500 | siapms-frontend/middleware/errorHandler.js:31-34 | anything else is 500 "Internal server error", with the detail only when `NODE_ENV` is "development" |
| Bearer.TokenOf | siapms-frontend/routes/projects.js:70 | a token is found iff the header is present and holds a space, and it holds no space itself |
| Bearer.Requester | siapms-frontend/routes/projects.js:70-81 | with a non-empty token the caller is whatever verification of that token gives; without one the caller is anonymous |
| Bearer.TokenOfHeader | siapms-frontend/routes/projects.js:70 | the token is the piece between the first and the second space, whatever the scheme word: `scheme + " " + t`, with or without a further space and text, yields `t` for any `scheme` and `t` without a space |
| JsText.TrimEmptyIffBlank | siapms-frontend/src/app/pages/projects/projects.component.ts:108 | `trim()` gives "" exactly for strings made only of white space |
| JsText.IncludesIff | siapms-frontend/routes/projects.js:34-36 | the unanchored search succeeds exactly when the needle occurs at some index |
| JsText.Split | siapms-frontend/src/app/components/markdown-editor/markdown-editor.component.ts:186 | a split on one character has at least one piece, and no piece holds the separator |
| JsText.JoinSplit | siapms-frontend/src/app/components/markdown-editor/markdown-editor.component.ts:186 | joining the pieces of a split gives back the string |
| JsText.SplitJoin | siapms-frontend/src/app/components/markdown-editor/markdown-editor.component.ts:186 | splitting a join of pieces free of the separator gives back the pieces |
| JsText.Substring | siapms-frontend/src/app/components/markdown-editor/markdown-editor.component.ts:160 | the result is never longer than the string, and within bounds it is the slice `[start, end)` |
| JsText.Filter | siapms-frontend/routes/projects.js:50 | the result holds each kept element exactly as often as the input, and nothing else |
| JsText.FilterIsSubsequence | siapms-frontend/src/app/pages/projects/projects.component.ts:113 | filtering keeps the relative order of the kept elements |
| ProjectRoutes.ExtNameShape | siapms-frontend/routes/projects.js:35 | `path.extname` is empty, or a '.' followed by neither '.' nor '/'; it ends the path once trailing slashes are dropped |
| ProjectRoutes.ExtName | siapms-frontend/routes/projects.js:35 | characterised by ExtNameShape, ExtNameOfName and ExtNameOfDotFile |
| ProjectRoutes.FileFilter | siapms-frontend/routes/projects.js:33-43 | characterised by FileFilterIff and the examples below |
| ProjectRoutes.FileFilterIff | siapms-frontend/routes/projects.js:33-43 | a file is accepted iff its lower-cased extension contains one of jpeg/jpg/png/gif/webp, and so does its mimetype |
| ProjectRoutes.UploadRejectionIs400 | siapms-frontend/routes/projects.js:41 | the filter's rejection reaches the error middleware as a 400 repeating "Only image files are allowed" |
| ProjectRoutes.ExtNameOfName | siapms-frontend/routes/projects.js:35 | a name `stem.ext` with no '/' and no '.' in `ext` has the extension `.ext` (except the name `..`) |
| ProjectRoutes.ExtNameOfDotFile | siapms-frontend/routes/projects.js:35 | a dot-file `.name` with no further '.' has no extension |
| ProjectRoutes.PngMimetype | siapms-frontend/routes/projects.js:34-36 | the mimetype `image/png` passes the type test |
| ProjectRoutes.UpperCaseExtensionAccepted | siapms-frontend/routes/projects.js:35-36 | the extension is lower-cased, so a name whose extension is `.PNG` is accepted with any image mimetype |
| ProjectRoutes.UpperCaseMimetypeRejected | siapms-frontend/routes/projects.js:36 | the mimetype is not lower-cased, so `IMAGE/PNG` is refused whatever the name |
| ProjectRoutes.LongerExtensionAccepted | siapms-frontend/routes/projects.js:34-36 | the match is unanchored, so a name whose extension is `.pngx` is accepted with any image mimetype |
| ProjectRoutes.DotFileRejected | siapms-frontend/routes/projects.js:35 | a dot-file such as `.png` has no extension and is refused |
| ProjectRoutes.NewestFirstSorts | siapms-frontend/routes/projects.js:51 | the sort orders by creation time, newest first, and is a permutation |
| ProjectRoutes.NewestFirstStable | siapms-frontend/routes/projects.js:51 | the sort is stable: projects created at the same time keep their order |
| ProjectRoutes.ListPublicSpec | siapms-frontend/routes/projects.js:47-58 | the public listing holds exactly the public projects, each as often as the table does, newest first, ties in table order |
| ProjectRoutes.ListOwnedSpec | siapms-frontend/routes/projects.js:95-106 | the user listing is the same for the projects owned by the caller |
| ProjectRoutes.ListPublic | siapms-frontend/routes/projects.js:47-58 | characterised by ListPublicSpec |
| ProjectRoutes.ListOwned | siapms-frontend/routes/projects.js:95-106 | characterised by ListOwnedSpec |
| JsText.FindIndex | siapms-frontend/routes/projects.js:173 | `findIndex` gives the first index whose element matches, or -1 when none does |
| ProjectRoutes.GetById | siapms-frontend/routes/projects.js:61-92 | 404 iff no project has the id; 403 iff the first project with the id is private and not the caller's; otherwise 200 with that project |
| ProjectRoutes.GetProject | siapms-frontend/routes/projects.js:61-92 | GetById with the caller read from the optional bearer token; characterised by PrivateProjectVisibility |
| ProjectRoutes.PrivateProjectVisibility | siapms-frontend/routes/projects.js:70-85 | a private project is refused to a request without a header, and shown to a bearer token that verifies as its owner |
| ProjectRoutes.UploadPaths | siapms-frontend/routes/projects.js:134 | one `/uploads/` path per stored file, in upload order |
| ProjectRoutes.ProjectTable.Create | siapms-frontend/routes/projects.js:117-155 | a missing or empty title or description gives 400 and leaves the table alone; otherwise exactly one project is appended: the caller's, with the new id, the uploaded paths, links defaulting to "", `isPublic` iff the field is "true", and both times the current time; the title/description invariant is kept |
| ProjectRoutes.ProjectTable.Update | siapms-frontend/routes/projects.js:172-224 | 404 for an unknown id and 403 for another owner's project, the table unchanged in both cases; otherwise only the found entry changes, by the field rules of the update, and the invariant is kept |
| ProjectRoutes.ProjectTable.Delete | siapms-frontend/routes/projects.js:231-270 | 404 and 403 as for update, the table unchanged; otherwise exactly the found entry is removed, the rest keeping its order, and the length drops by one |
| AuthRoutes.Find | siapms-frontend/routes/auth.js:32 | `find` gives nothing iff no user matches, and otherwise the first user that matches |
| AuthRoutes.RegistrationError | siapms-frontend/routes/auth.js:16-38 | the checks run in source order: missing fields first, then the email format, then the password length, then an existing email or username; registration is accepted iff all pass |
| AuthRoutes.NewUser | siapms-frontend/routes/auth.js:40-51 | the stored password is the hash of the password, not the password itself |
| AuthRoutes.WithoutPassword | siapms-frontend/routes/auth.js:57 | the reply keeps the id, username, email and creation time, and has no password field |
| AuthRoutes.UserRegistry.Register | siapms-frontend/routes/auth.js:12-62 | a refused registration answers 400 with the chain's message and leaves the users alone; an accepted one appends exactly the new user and answers 201 with it without its password; uniqueness is kept because the append repeats the duplicate lookup (see Findings) |
| AuthRoutes.UserRegistry.Append | siapms-frontend/routes/auth.js:42-53 | the step after `await bcrypt.hash` as written: the new user is pushed whatever `users` now holds |
| AuthRoutes.UserRegistry.AppendIfFree | siapms-frontend/routes/auth.js:32-53 | the step after the await with the lookup repeated: 400 "already exists" and no change when the email or username is now taken, otherwise exactly the new user appended; uniqueness is kept whatever ran before |
| AuthRoutes.OverlappingRegistrations | siapms-frontend/routes/auth.js:32-53 | two registrations checked against the same users and then both pushed append both users; with a shared email the users are no longer unique |
| AuthRoutes.OverlappingRegistrationsRechecked | siapms-frontend/routes/auth.js:32-53 | with the repeated lookup the second of two overlapping registrations with one email is refused with 400 and uniqueness is kept |
| AuthRoutes.OverlappingRegistrationsCollide | siapms-frontend/routes/auth.js:32-53 | two registrations accepted against the same users with the same email leave a duplicate once both are appended |
| AuthRoutes.OverlapExample | siapms-frontend/routes/auth.js:16-38 | "ann" and "bob" both registering with "a@b.co" on an empty list pass every check |
| AuthRoutes.RegisterKeepsUnique | siapms-frontend/routes/auth.js:32-53 | appending an accepted registration keeps emails and usernames unique |
| AuthRoutes.Login | siapms-frontend/routes/auth.js:70-106 | 400 when a field is missing; otherwise success iff the first user with that email exists and the password compares, with the token of that user and the user without its password, and every other reply is the one 401 "Invalid credentials"; no other reply exists |
| AuthRoutes.LoginFailuresAlike | siapms-frontend/routes/auth.js:80-89 | an unknown email and a known one whose first user fails the password comparison get the same 401 reply |
| AuthRoutes.RegisterThenLogin | siapms-frontend/routes/auth.js:53 | a user just registered logs in with the password they registered with, and gets their own record back |
| AuthRoutes.Me | siapms-frontend/routes/auth.js:109-130 | 401 "No token provided" iff there is no token; 401 "Invalid token" iff verification fails; 404 iff the verified id matches no user; a verified id that some user holds gives the first user with that id, without its password |
| MarkdownEditor.NewValueSplices | siapms-frontend/src/app/components/markdown-editor/markdown-editor.component.ts:196-202 | for a selection inside the text, the new value is the text with the selection replaced: before `start` and from `end` on nothing changes, and the inserted text ends at the caret position `start + length` |
| MarkdownEditor.NewValue | siapms-frontend/src/app/components/markdown-editor/markdown-editor.component.ts:196 | characterised by NewValueSplices |
| MarkdownEditor.InsertText | siapms-frontend/src/app/components/markdown-editor/markdown-editor.component.ts:161-194 | characterised by WrappingKinds, CodeKind, LinePrefixKinds, LinePrefixPlaceholders and UnknownKindDeletes |
| MarkdownEditor.WrappingKinds | siapms-frontend/src/app/components/markdown-editor/markdown-editor.component.ts:164-178 | bold, italic, heading, link and image put their marks around the selection, or around their placeholder when the selection is empty |
| MarkdownEditor.CodeKind | siapms-frontend/src/app/components/markdown-editor/markdown-editor.component.ts:179-183 | a selection holding a line break becomes a fenced block; otherwise inline code, with "code" standing for an empty selection |
| MarkdownEditor.LinePrefixKinds | siapms-frontend/src/app/components/markdown-editor/markdown-editor.component.ts:184-193 | list and quote give as many lines as the selection has, each the prefix followed by the selection's line |
| MarkdownEditor.LinePrefixPlaceholders | siapms-frontend/src/app/components/markdown-editor/markdown-editor.component.ts:185-192 | with an empty selection, list and quote insert one placeholder line |
| MarkdownEditor.UnknownKindDeletes | siapms-frontend/src/app/components/markdown-editor/markdown-editor.component.ts:161-196 | a kind outside the switch inserts nothing, so the emitted value is the text with the selection deleted |
| MarkdownEditor.GetMarkdownHtml | siapms-frontend/src/app/components/markdown-editor/markdown-editor.component.ts:150-153 | empty markdown gives ""; anything else goes to the renderer |
| MarkdownEditor.MarkdownEditorComponent.TogglePreview | siapms-frontend/src/app/components/markdown-editor/markdown-editor.component.ts:141-143 | the preview switch is negated and nothing else changes |
| MarkdownEditor.MarkdownEditorComponent.OnInput | siapms-frontend/src/app/components/markdown-editor/markdown-editor.component.ts:145-148 | the textarea's text is emitted unchanged |
| MarkdownEditor.MarkdownEditorComponent.InsertMarkdown | siapms-frontend/src/app/components/markdown-editor/markdown-editor.component.ts:155-205 | without a textarea nothing is emitted; otherwise exactly one value is emitted, the spliced text, and the caret goes to `start` plus the inserted length |
| MarkdownEditor.ToggleTwice | siapms-frontend/src/app/components/markdown-editor/markdown-editor.component.ts:141-143 | two toggles bring the preview switch back |
| ProjectsPage.Filtered | siapms-frontend/src/app/pages/projects/projects.component.ts:107-119 | a blank term shows every project; otherwise a project is shown iff the lower-cased term occurs in its lower-cased title, description or author's username, as often as it is loaded |
| ProjectsPage.FilteredKeepsOrder | siapms-frontend/src/app/pages/projects/projects.component.ts:113-118 | the shown projects keep the loaded order |
| ProjectsPage.SearchIgnoresCase | siapms-frontend/src/app/pages/projects/projects.component.ts:115-117 | a term and its lower-cased form match the same projects |
| ProjectsPage.UntrimmedTermMatched | siapms-frontend/src/app/pages/projects/projects.component.ts:108-117 | only the blank test trims: a non-blank term holding a white-space character that no field holds shows no project |
| ProjectsPage.GetImageUrl | siapms-frontend/src/app/pages/projects/projects.component.ts:121-124 | a missing or empty path gives the placeholder; otherwise the URL is the server root followed by exactly the path |
| ProjectsPage.ProjectsComponent.LoadProjects | siapms-frontend/src/app/pages/projects/projects.component.ts:93-105 | a received list becomes both the loaded and the shown projects; a failure leaves them; loading ends either way |
| ProjectsPage.ProjectsComponent.FilterProjects | siapms-frontend/src/app/pages/projects/projects.component.ts:107-119 | the shown projects become the filter of the loaded ones for the current term, and the loaded projects are left alone |
| ProjectService.AuthorizationHeader | siapms-frontend/src/app/services/project.service.ts:18-23 | the header is `"Bearer " + token`, and `"Bearer null"` without a token |
| ProjectService.HeaderCarriesToken | siapms-frontend/src/app/services/project.service.ts:21 | the backend reads back the token the client sent |
| ProjectService.MissingTokenSentAsNull | siapms-frontend/src/app/services/project.service.ts:19-21 | without a stored token the backend still receives the non-empty token "null" |
| ProjectService.CreateProjectForm | siapms-frontend/src/app/services/project.service.ts:39-58 | the appends of `createProject` build exactly the create form |
| ProjectService.CreateFormLayout | siapms-frontend/src/app/services/project.service.ts:41-53 | the five fields come first and in order, then the cover photo when present, then one entry per screenshot in array order |
| ProjectService.CreateFormReadBack | siapms-frontend/src/app/services/project.service.ts:40-53 | reading the form back by key gives each field, the cover photo when present, and the screenshots in order |
| ProjectService.CreateEntries | siapms-frontend/src/app/services/project.service.ts:39-58 | characterised by CreateFormLayout and CreateFormReadBack |
| ProjectService.KeyEntries | siapms-frontend/src/app/services/project.service.ts:63-72 | every entry appended for a key carries that key, and an undefined value appends nothing |
| ProjectService.UpdateProjectForm | siapms-frontend/src/app/services/project.service.ts:60-78 | the appends of `updateProject` build exactly the update form, key by key in `Object.keys` order |
| ProjectService.UpdateFormReadBack | siapms-frontend/src/app/services/project.service.ts:63-73 | a key's values in the update form are exactly its own entries; no other key contributes to them |
| ProjectService.UpdateEntries | siapms-frontend/src/app/services/project.service.ts:60-78 | characterised by UpdateFormReadBack, ScreenshotsExpand, NullCoverPhotoSent and UndefinedSkipped |
| ProjectService.ScreenshotsExpand | siapms-frontend/src/app/services/project.service.ts:64-67 | a screenshots array is sent as one file entry per element, in order |
| ProjectService.NullCoverPhotoSent | siapms-frontend/src/app/services/project.service.ts:68-71 | a null cover photo is not skipped: it is sent as the text "null" |
| ProjectService.UndefinedSkipped | siapms-frontend/src/app/services/project.service.ts:63-72 | a key sends nothing iff its value is undefined or it is an empty screenshots array |

## Left out

- File persistence is not modelled: `saveProjects`, `saveUsers` and the JSON files behind them. The arrays are object state.
- Deleting old upload files is not modelled (`fs.existsSync` and `fs.unlinkSync` in update and delete). When one of them throws, the route answers 500. In update the sent fields (and, when the screenshots step throws, the new cover photo) are then already written into the shared project object, so the table changes under a 500. In delete the project stays in the table. The model assumes these calls succeed.
- Multer itself is not modelled: disk storage, file naming, the 5 MB limit and the per-field counts. `Uploads` holds the names of the files multer kept. A limit error is a `Failure` given to `HandleError`.
- A request that is not multipart is not modelled. There `req.files` is undefined, so reading it throws and the route answers 500. In create that happens before the push, so the table is unchanged. In update it happens after the title, description, links and `isPublic` have been written into the shared project object, so the table changes under a 500 and the next `saveProjects` writes that change to disk.
- The `authenticateToken` middleware is not part of this model. The write routes take the authenticated caller's id as a parameter.
- Registration, login and `/me` take the request fields to be strings. Non-string JSON values (numbers, arrays) are not modelled, and neither is the 500 a throwing hash or compare would give.
- AuthRoutes.UserRegistry.Register: the model repeats the duplicate lookup after the hash (see Findings). The source checks before `await bcrypt.hash` and pushes after it, so overlapping requests can both pass; `Append` and `OverlappingRegistrations` model that, and the uniqueness that `Register` keeps holds for the program only when registrations do not overlap.
- AuthRoutes.Me: a verified token without a `userId` claim is not modelled. Verification gives the user id or nothing.
- AuthRoutes.NewUser: `bcrypt.hash` is modelled as a function of the password alone. The random salt is left out, so two hashes of the same password are equal here.
- Route order is not modelled. GET `/user` is declared after GET `/:id`, so Express answers `/user` with the `/:id` handler; `ListOwned` models the `/user` handler on its own.
- `validateUrl` is not modelled. It depends on the WHATWG URL parser.
- `marked.parse` is a parameter. The textarea focus and the `setTimeout` are not modelled; the caret position is recorded as state.
- `setSelectionRange` is not modelled. It clamps the caret to the textarea's length.
- String lengths count characters rather than UTF-16 code units. They differ only outside the Basic Multilingual Plane.
- ProjectRoutes.ProjectTable.Create: `createdAt` and `updatedAt` come from two separate clock reads, so they can differ by the time between them; the model uses one `now` for both.
- ProjectRoutes.NewestFirst: creation times are integers. The source parses ISO strings with `new Date`, and an unparsable string (NaN) is not modelled.
- `toLowerCase` is ASCII-only.

## Findings

| source | as written | input that shows it | evidently intended | confidence | as-written member | corrected member |
|---|---|---|---|---|---|---|
| siapms-frontend/routes/auth.js:32-53 | the duplicate lookup runs before `await bcrypt.hash` and the push after it, with nothing in between that looks again | two POST `/register` requests, "ann" and "bob", both with email "a@b.co", the second arriving while the first awaits its hash: both pass the lookup and both are pushed | no two users share an email or a username | medium; not executed; needs the two requests to overlap | AuthRoutes.OverlappingRegistrations | AuthRoutes.UserRegistry.AppendIfFree |
