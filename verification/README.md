# WellnessSpace core in Dafny

WellnessSpace lets a user register, write wellness sessions (a title, a list of tags and the URL of a JSON payload), keep them as drafts and publish them. This project models the parts of the application that hold logic, as pure functions over immutable data:

- **Sessions** (`sessions.dfy`): the session controller as operations on an in-memory store of session records. The operations are the public listing, the owner listing, the owner-scoped lookup, the draft upsert and publish. Each returns either a new store with a response envelope, or the error it throws.
- **Lifecycle** (`lifecycle.dfy`): what several session operations do together:
  - the store invariant (unique ids, complete records), which every write preserves;
  - no write changes an id or owner, or touches another user's records;
  - save then lookup;
  - publish then listing;
  - saving a published record as a draft demotes it.
- **Users** (`users.dfy`), covering the user schema and the registration handler:
  - the email normalisation setters and the schema validators;
  - the pre-save hashing guard and `comparePassword`;
  - the claim sets of the two token kinds;
  - `generateAccessAndRefreshToken`, with its error masking;
  - `registerUser` both as written and as evidently intended.
- **Envelope** (`envelope.dfy`): the `ApiResponse` and `ApiError` constructors and the error middleware.
- **TagEditor** (`tag_editor.dfy`): the session editor page:
  - parsing the comma-separated tags field;
  - removing a tag chip;
  - the guards that decide whether a save or publish request is sent, and the body each one carries.
- **LoginForm** (`login_form.dfy`): the email pattern and the error maps of the login and register forms.
- **SessionTabs** (`session_tabs.dfy`): the split of the caller's sessions into the drafts tab and the published tab.
- **Wiring** (`wiring.dfy`): the client pages composed with the handlers they call. This is where the mismatches between what the client sends and what the server reads show up.
- **Text** and **Seqs** (`text.dfy`, `seqs.dfy`) hold the JavaScript primitives the code relies on:
  - `trim` and the `\s` class, `toLowerCase`, `split` and `join`;
  - `filter`;
  - a descending sort.

  **Common** (`common.dfy`) holds `Option`, `Result`, JSON values and request bodies.

A request body is a `map<string, Value>`, so a key the client sends under another name is simply absent on the server side. JavaScript truthiness is written out: an empty string is falsy and every array is truthy. An error thrown by the store itself, such as a failed validation or cast, carries no status code, so the middleware answers 500.

## Model

| member | source | states |
|---|---|---|
| Sessions.GetPublicSessions | backend/controllers/session.controller.js:6-14 | The reply is a 200 holding exactly the published records of the store: every listed record is published and in the store, and every published record is listed. Records are sorted by creation time, newest first. |
| Sessions.GetMySessions | backend/controllers/session.controller.js:16-24 | The reply is a 200 holding exactly the caller's records, sorted by update time, most recent first. |
| Sessions.FindOwned | backend/controllers/session.controller.js:29 | The filter `{ _id, user }` matches a position exactly when the caller owns a record with that id. |
| Sessions.GetSessionById | backend/controllers/session.controller.js:26-35 | The lookup succeeds if and only if the caller owns the record, and then returns that record. Otherwise it throws the 404 "Session not found". |
| Sessions.LookupHidesForeignRecords | backend/controllers/session.controller.js:29-31 | Looking up another user's record gives the same error as looking up an id that does not exist. |
| Sessions.TagsOf | backend/controllers/session.controller.js:38 | Tags default to the empty list when the body has none. |
| Sessions.SaveDraftSession | backend/controllers/session.controller.js:37-71 | The 400 is thrown exactly when the title or `jsonFileUrl` is falsy. With an owned `sessionId`, the matched record gets the new title, tags and URL, status draft and a new update time; its id, owner and creation time are kept, and every other record is unchanged. A `sessionId` the caller does not own gives the 404. Without a `sessionId`, exactly one new draft owned by the caller is appended. A save with a string title and URL succeeds when it has no `sessionId` or the id of one of the caller's records. |
| Sessions.PublishSession | backend/controllers/session.controller.js:73-93 | A missing `sessionId` gives exactly the 400. Otherwise the call succeeds if and only if the caller owns the record. It then changes only that record's status (to published) and its update time, and a non-owned id gives the 404. |
| Lifecycle.SaveDraftPreserves | backend/controllers/session.controller.js:40-65 | A successful save keeps ids unique and every record complete. It changes no id or owner and leaves other users' records untouched. |
| Lifecycle.PublishPreserves | backend/controllers/session.controller.js:80-88 | Publish keeps the same invariant and never adds a record. |
| Lifecycle.PublishedRecordsComplete | backend/controllers/session.controller.js:7-9 | Every publicly listed record has a title and a URL. This holds only through the store invariant, because publish checks neither. |
| Lifecycle.SaveThenLookup | backend/controllers/session.controller.js:29-30 | After a successful save, the caller's lookup of the saved id returns exactly the saved record. |
| Lifecycle.PublishThenListed | backend/controllers/session.controller.js:80-88 | A published record appears in the public listing, with its title, tags and URL as they were before. |
| Lifecycle.SaveDraftDemotes | backend/controllers/session.controller.js:46-52 | Saving a published record as a draft removes it from the public listing. |
| SessionTabs.SplitByStatus | frontend/src/pages/MySessions.tsx:32-33 | The drafts tab holds exactly the fetched drafts, and the published tab exactly the fetched published records. |
| SessionTabs.TabsPartition | frontend/src/pages/MySessions.tsx:32-33 | The tabs share no record, and their lengths add up to the number of fetched records, as a multiset equality. |
| SessionTabs.TabsKeepOrder | frontend/src/pages/MySessions.tsx:32-33 | Splitting commutes with concatenation, so each tab keeps the fetched order. |
| SessionTabs.MyTabsAreMine | frontend/src/pages/MySessions.tsx:28-33 | Both tabs of the owner listing hold only the caller's records, and every draft of the caller is in the drafts tab. |
| Envelope.NewApiResponse | backend/utils/apiResponse.js:3-10 | `success` holds exactly when the status is below 400. The status code and data are stored unchanged. The message defaults to "Success" and is otherwise stored unchanged. |
| Envelope.NewApiError | backend/utils/apiError.js:3-22 | Defaults are the message "Something went wrong" and the errors `[]`. `success` is always false, `data` is null and the status code is kept. |
| Envelope.ErrorMiddleware | backend/middlewares/error.middleware.js:1-12 | The status is the error's code when truthy, else 500. The message is the error's message when truthy, else "Internal Server Error". `success` is false and `data` is null. `errors` defaults to `[]`. A stack is sent only in development. |
| Envelope.ApiErrorReply | backend/middlewares/error.middleware.js:1-12 | A handler's `ApiError` reaches the client with its own status and message, and with no stack outside development. |
| Envelope.UncodedReply | backend/middlewares/error.middleware.js:2-5 | An error without a status code, such as a store failure or a runtime `ReferenceError`, is answered with 500. |
| Users.NormalizeEmail | backend/models/user.modal.js:6-12 | The stored email is exactly the input lower-cased and then trimmed. The result is trimmed and has no upper-case letter. |
| Users.NormalizedIsFixed | backend/models/user.modal.js:10-11 | The lowercase and trim setters leave a normalised email unchanged, so normalisation is idempotent. |
| Users.PreSave | backend/models/user.modal.js:24-28 | The password is replaced by its hash exactly when it was modified; otherwise the user is unchanged. |
| Users.ComparePassword | backend/models/user.modal.js:30-32 | The result is bcrypt's compare of the candidate against the stored hash. |
| Users.AccessTokenRequest | backend/models/user.modal.js:34-45 | The payload has exactly `_id` and `email`, and uses the access secret and expiry. |
| Users.RefreshTokenRequest | backend/models/user.modal.js:47-57 | The payload has exactly `_id`, and uses the refresh secret and expiry. |
| Users.TokenClaims | backend/models/user.modal.js:34-57 | The refresh claims are the access claims without `email`. No token carries the password or a refresh token. |
| Users.FindUser | backend/controllers/user.controller.js:9 | `findById` finds a position exactly when a user has that id. |
| Users.GenerateAccessAndRefreshToken | backend/controllers/user.controller.js:7-25 | The call succeeds exactly when the user exists and the save succeeds. Then only that user changes: its refresh token becomes the newly signed one, and both tokens are signed from the user's claims. Every failure, including an unknown user, becomes the same 500. |
| Users.CreateUser | backend/controllers/user.controller.js:27-37 | Falsy credentials give exactly the 400 "Email and password are required". A taken normalised email gives "User already exists". The call succeeds exactly when both checks and the schema pass. It then appends exactly one user, with the normalised email and the hashed password, and returns that user without the password. |
| Users.RegisterUserAsWritten | backend/controllers/user.controller.js:27-41 | The handler as written always fails. When the checks pass, the user has already been stored when the failure happens. |
| Users.RegisterAsWrittenFailsAfterWrite | backend/controllers/user.controller.js:34-39 | A registration that passes every check is answered 500, but the user stays stored, so repeating the request gives "User already exists". |
| Users.RegisterUser | backend/controllers/user.controller.js:27-41 | The corrected handler succeeds exactly when the checks pass and the token step's save succeeds. A failed check leaves the store unchanged and gives that check's error. A failed token save gives the 500 "Failed to generate access and refresh token", with the user already inserted. On success it answers 201 with the user without the password and both tokens, and the stored user holds the issued refresh token. |
| Users.CreatePreserves | backend/models/user.modal.js:6-12 | Creating a user keeps ids and emails unique, and emails normalised and non-empty. |
| Users.RegisterPreserves | backend/controllers/user.controller.js:34-37 | When the checks pass, the store the corrected registration leaves behind keeps the user-store invariant, whether or not the token save succeeds. |
| Users.NoDoubleHashing | backend/models/user.modal.js:24-28 | When the checks pass, the stored password is one hash of the plaintext after the second save, which issues the tokens, and the plaintext matches it. This holds whether or not that save succeeds. |
| Text.Trim | frontend/src/pages/SessionEditor.tsx:57 | `trim` returns the infix of its input that begins after the leading whitespace and is followed only by whitespace, and neither end of the result is whitespace. |
| Text.TrimEmptyIffAllSpace | frontend/src/pages/SessionEditor.tsx:71 | A string trims to empty exactly when it is all whitespace, which is what the `!title.trim()` guards test. |
| Text.TrimIdempotent | frontend/src/pages/SessionEditor.tsx:57 | Trimming twice is trimming once. |
| Text.JoinSplit | frontend/src/pages/SessionEditor.tsx:55-56 | Joining the pieces of `split(",")` with the separator restores the original text, so the split loses no character. |
| Text.SplitJoin | frontend/src/pages/SessionEditor.tsx:55-56 | Splitting the join of separator-free pieces gives the pieces back. |
| TagEditor.ParseTags | frontend/src/pages/SessionEditor.tsx:53-60 | Every parsed tag is non-empty, has no surrounding whitespace and contains no comma. |
| TagEditor.ParsePiece | frontend/src/pages/SessionEditor.tsx:55-58 | Comma-free text parses to its trim, or to no tag when it is blank. |
| TagEditor.ParseCons | frontend/src/pages/SessionEditor.tsx:55-58 | The text before the first comma contributes its trimmed tag, or nothing when blank, followed by the tags of the rest. Together with ParsePiece, this determines the parse of every input: the pieces are kept in order, trimmed, and the empty ones dropped. |
| TagEditor.ParseJoin | frontend/src/pages/SessionEditor.tsx:63-67 | Parsing the joined text of well-formed tags gives the tags back. |
| TagEditor.ParseJoinAfterSpaces | frontend/src/pages/SessionEditor.tsx:55-58 | The same round trip holds with leading whitespace. This is the inductive step over the `", "` separator. |
| TagEditor.ParseIdempotent | frontend/src/pages/SessionEditor.tsx:55-58 | Parsing the joined parse of a field gives the same tags again. |
| TagEditor.RemoveAt | frontend/src/pages/SessionEditor.tsx:64 | An in-range index deletes exactly that element, keeps the others in order and shortens the list by one. Any other index leaves the list unchanged. |
| TagEditor.LoadSession | frontend/src/pages/SessionEditor.tsx:36-38 | Loading a record sets the title, the chips to the record's tags and the field to their `", "` join. The URL field is left `undefined`, because the record has no `jsonUrl` field. |
| TagEditor.LoadKeepsSync | frontend/src/pages/SessionEditor.tsx:36-38 | A loaded record with well-formed tags gives a synchronised editor: the field parses back to the chips. |
| TagEditor.HandleUrlChange | frontend/src/pages/SessionEditor.tsx:262-264 | Typing in the URL input sets the URL to the typed text and leaves the title, field and chips unchanged. |
| TagEditor.FormFields | frontend/src/pages/SessionEditor.tsx:77-81 | The shared part of both bodies has the title and the chips, and the URL under the given key only when it is defined (JSON drops `undefined`). |
| TagEditor.HandleTagsChange | frontend/src/pages/SessionEditor.tsx:53-60 | After an edit, the chips equal the parse of the field, and the title and URL are unchanged. |
| TagEditor.RemoveTag | frontend/src/pages/SessionEditor.tsx:63-67 | The chips lose exactly the removed tag, and the field becomes their `", "` join. |
| TagEditor.RemoveTagKeepsSync | frontend/src/pages/SessionEditor.tsx:63-67 | Removing a chip from a synchronised editor keeps it synchronised: the rewritten field parses back to the remaining chips. |
| TagEditor.SaveDraftRequest | frontend/src/pages/SessionEditor.tsx:70-89 | Nothing is sent exactly when the title is blank. Otherwise the body holds the title and the chips, and the URL under `jsonUrl` exactly when the URL field is defined. It holds `sessionId`, set to the route id, exactly in edit mode. |
| TagEditor.PublishRequest | frontend/src/pages/SessionEditor.tsx:153-172 | A request is sent exactly when the title is not blank and the URL is defined and not blank; an `undefined` URL makes `.trim()` throw, so nothing is sent. The body holds the title, the chips and the URL under `jsonUrl`. It holds the route id under `_id`, exactly in edit mode. |
| LoginForm.IndexOf | frontend/src/pages/Login.tsx:31 | The index returned is the first occurrence, or -1 when the character is absent. |
| LoginForm.ValidateEmail | frontend/src/pages/Login.tsx:30-32 | The check accepts exactly the strings that the pattern `^[^\s@]+@[^\s@]+\.[^\s@]+$` matches. |
| LoginForm.ValidateEmailDecomposed | frontend/src/pages/Login.tsx:31 | `local "@" domain` is accepted if and only if both sides are non-empty runs without whitespace or '@', and the domain has a '.' that is neither its first nor its last character. |
| LoginForm.AcceptedEmailShape | frontend/src/pages/Login.tsx:31 | An accepted email has exactly one '@' and no whitespace. |
| LoginForm.EmailError | frontend/src/pages/Login.tsx:38-42 | "Email is required" exactly when the email is empty. Otherwise "Please enter a valid email" exactly when the pattern fails. |
| LoginForm.LoginErrors | frontend/src/pages/Login.tsx:34-46 | The map has an email entry exactly when the email check fails, with its message. It has a password entry exactly when the password is empty. |
| LoginForm.LoginRequest | frontend/src/pages/Login.tsx:48-50 | A login request is sent exactly when the error map is empty, with `{ email, password }`. |
| LoginForm.PasswordError | frontend/src/pages/Login.tsx:82-86 | There is an error exactly when the password is shorter than 6 characters. "Password is required" takes precedence for an empty password. |
| LoginForm.ConfirmError | frontend/src/pages/Login.tsx:88-90 | There is an error exactly when the confirmation differs, independently of the other checks. |
| LoginForm.RegisterErrors | frontend/src/pages/Login.tsx:72-90 | Each key is present exactly when its own check fails, and holds that check's message. |
| LoginForm.RegisterRequest | frontend/src/pages/Login.tsx:92-94 | A register request is sent exactly when the email is valid, the password has at least 6 characters and the confirmation matches. |
| Wiring.ClientDraftAlwaysRejected | frontend/src/pages/SessionEditor.tsx:76-81 | Every save-draft body the editor sends is answered with the 400, because it never has a `jsonFileUrl`. |
| Wiring.FixedDraftBody | frontend/src/pages/SessionEditor.tsx:77-82 | The corrected body carries the URL under `jsonFileUrl` when it is defined, with the same title, chips and `sessionId` as before. |
| Wiring.FixedSaveDraftRequest | frontend/src/pages/SessionEditor.tsx:70-89 | The corrected save has the same blank-title guard and sends the corrected body. |
| Wiring.FixedDraftCreates | backend/controllers/session.controller.js:57-65 | With the URL sent as `jsonFileUrl`, saving a new session with a URL appends exactly the draft the editor shows. |
| Wiring.FixedDraftUpdates | backend/controllers/session.controller.js:46-52 | With the corrected body and a URL in the field, saving in edit mode overwrites the caller's record with the editor's title, chips and URL, as a draft. |
| Wiring.LoadedDraftRejected | frontend/src/pages/SessionEditor.tsx:36-37 | With only the body key corrected, a save right after loading a record is still answered with the 400: the URL field is `undefined`, so the body has no URL. |
| Wiring.FixedLoadSession | frontend/src/pages/SessionEditor.tsx:36-37 | The corrected load reads the record's `jsonFileUrl` into the URL field, with the same title and chips. |
| Wiring.FixedLoadThenSave | backend/controllers/session.controller.js:46-52 | With the corrected load and body, opening a record of the caller and saving it unchanged keeps its title, tags and URL and makes it a draft. |
| Wiring.ClientPublishAlwaysRejected | frontend/src/pages/SessionEditor.tsx:162-168 | Every publish body the editor builds is answered with the 400 if it reaches the controller, because the id travels as `_id`. |
| Wiring.FixedPublishRequest | frontend/src/pages/SessionEditor.tsx:153-172 | The corrected client has the same guard, and sends the route id under `sessionId`. |
| Wiring.LoadedPublishSendsNothing | frontend/src/pages/SessionEditor.tsx:36-37 | Right after loading a record, publishing sends nothing, with or without the corrected key, because the `undefined` URL makes the guard at frontend/src/pages/SessionEditor.tsx:154 throw. |
| Wiring.FixedPublishPublishes | backend/controllers/session.controller.js:73-88 | With the corrected body and a URL in the field, a publish of the caller's session from the edit page that reaches the controller puts the session in the public listing. |
| Wiring.FixedLoadThenPublish | backend/controllers/session.controller.js:73-88 | With the corrected load and request, opening a record of the caller that has a title and URL and publishing it puts it in the public listing. |
| Wiring.ClientAcceptsShortPassword | frontend/src/pages/Login.tsx:84-85 | The client sends a 6-character password. The schema rejects it, and the reply is a 500. |
| Wiring.AlignedPasswordError | backend/models/user.modal.js:13-18 | The corrected form check fails exactly when the length is outside 8 to 255. |
| Wiring.AlignedRegisterErrors | frontend/src/pages/Login.tsx:72-90 | The corrected error map has the same email and confirmation entries and messages, but its password entry uses the schema's bounds. |
| Wiring.AlignedRegisterRequest | frontend/src/pages/Login.tsx:92-94 | The corrected form sends exactly when the email is valid, the password is within the schema's bounds and the confirmation matches. |
| Wiring.AcceptedEmailNormalizesNonEmpty | backend/models/user.modal.js:6-12 | An email the client accepts normalises to a non-empty address. |
| Wiring.AlignedRequestRegisters | backend/controllers/user.controller.js:27-37 | Every request the corrected form sends creates a user, unless the address is already taken. |

## Left out

- The route wiring, the authentication middleware, `asyncHandler` and server startup are not modelled. The caller's id is a parameter, `/sessions` being the only session route that needs no login.
- The clock (`now`) and the ids the store assigns (`freshId`) are parameters; new ids are assumed fresh where a lemma needs it.
- bcrypt and JWT are not implemented: `hash`, `compare` and `sign` are function parameters. Secrets and expiries are a configuration record.
- Mongoose's ObjectId casting of malformed ids and its `$in` handling of array values are left out. A body value of the wrong shape is one generic cast failure (no status code, so 500).
- The exact text of Mongoose validation errors and their `errors` object is not modelled; the model sends the envelope's default `[]`.
- Text.Lower: only ASCII letters are lowercased, because full Unicode case mapping is out of scope.
- String lengths are counted in characters, not UTF-16 code units.
- The order among records with equal sort keys is not stated, because Mongoose leaves it unspecified.
- Envelope.NewApiError: the stack captured by `Error.captureStackTrace` is only the marker `Captured`, not its text.
- The 500 for a user that vanishes between insert and `findById` (backend/controllers/user.controller.js:37) is left out; it cannot happen in a single-threaded store.
- `loginUser`, `logoutUser` and `refreshAccessToken` are imported by the user routes but never defined, so they are not modelled.
- Import-level defects are recorded, not modelled: the named import of a default-exported `asyncHandler`, and `ApiError.js`/`ApiResponse.js` against the lower-case file names.
- The autosave debounce timer (frontend/src/pages/SessionEditor.tsx:92-108) is not modelled, since it is timing behaviour. Only the guard and the body of the save it triggers are.
- A failed initial fetch (the error toast) is not modelled; `TagEditor.LoadSession` models a successful one.
- Wiring.ClientPublishAlwaysRejected: assumes the publish request reaches the controller. `handlePublish` posts with the bare `axios` import to the relative path `/my-sessions/publish` (frontend/src/pages/SessionEditor.tsx:1, 163-164). That path resolves against the page's origin, not the API host under `/api` (backend/server.js:24, backend/routes/session.route.js:17), and the dev-server proxy configuration is not part of this model. The model states only what the controller answers to the body the editor builds.
- Wiring.FixedPublishPublishes: makes the same routing assumption. The complete fix also needs the absolute API URL that the save calls use (frontend/src/pages/SessionEditor.tsx:75, 123), besides the `sessionId` key.
- Request bodies hold only strings and lists of strings (`Common.Value`). Numbers, booleans, `null` and objects are not representable. So, for example, a numeric title that the store would coerce to a string, or `tags: null`, which escapes the `= []` default (backend/controllers/session.controller.js:38), is not modelled. The editor and the login form only ever send strings and string lists.
- Publishing from the new-session page, which has no id, always fails with the 400. There is no create-and-publish path in the controller, and the model follows the controller.
- The session schema file is not part of this model. Record fields, tags as a list of strings and the two statuses are taken from how the controller uses them.
- Users.GenerateAccessAndRefreshToken: a save the store rejects is the flag `saveFails`, not a model of the store's failure modes.
- JSX rendering, toasts, navigation, local storage and the HTTP clients are not modelled.

## Findings

| source | as written | input that shows it | evidently intended | confidence | as-written member | corrected member |
|---|---|---|---|---|---|---|
| frontend/src/pages/SessionEditor.tsx:80 | the draft body sends the URL under `jsonUrl`, while the controller reads `jsonFileUrl` (backend/controllers/session.controller.js:38-42) | any save with a non-blank title, e.g. title "Calm", URL "https://x/a.json" | the URL is sent as `jsonFileUrl` and the draft is stored | high, not executed | Wiring.ClientDraftAlwaysRejected | Wiring.FixedDraftCreates |
| frontend/src/pages/SessionEditor.tsx:166 | the publish body sends the id under `_id`, while the controller reads `sessionId` (backend/controllers/session.controller.js:74-78); the request also goes to a relative URL (frontend/src/pages/SessionEditor.tsx:164) | publish from the edit page of an owned session after retyping the URL | the id is sent as `sessionId`, to the absolute API URL the save calls use, and the session is published; together with line 36 reading `jsonFileUrl` (next row), publishing works without retyping | high, not executed | Wiring.ClientPublishAlwaysRejected | Wiring.FixedPublishPublishes |
| frontend/src/pages/SessionEditor.tsx:36-37 | the edit page loads the record's URL from `jsonUrl`, which records do not have (they hold `jsonFileUrl`), so the URL field starts `undefined`; a save then sends no URL and is rejected even with the corrected key, and a publish throws in its guard before sending | open the edit page of an owned session with title "Calm" and URL "https://x/a.json" and save or publish without touching the URL input | line 36 reads `jsonFileUrl`, so the stored URL is shown and sent back | high, not executed | Wiring.LoadedDraftRejected | Wiring.FixedLoadThenSave |
| frontend/src/pages/Login.tsx:84-85 | the register form accepts passwords of 6 characters, while the schema requires 8 (backend/models/user.modal.js:16) | email "a@b.co", password and confirmation "secret" | the form enforces the schema's bounds of 8 to 255 | high, not executed | Wiring.ClientAcceptsShortPassword | Wiring.AlignedRequestRegisters |
| backend/controllers/user.controller.js:39 | the reply reads `accessToken` and `refreshToken`, which are never declared, so every registration that passes the checks fails after the user is inserted | a first registration of "a@b.co" with an 8-character password, then the same request again | tokens issued through `generateAccessAndRefreshToken`, and a 201 carrying the user and both tokens | high, not executed | Users.RegisterAsWrittenFailsAfterWrite | Users.RegisterUser |
