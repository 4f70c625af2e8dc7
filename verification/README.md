# files_manager request handling, modelled in Dafny

This project models the request handling of a small multi-user file-storage
service. Users register and log in. Login uses an HTTP Basic credential and
yields a session token, stored in Redis as `auth_<token>` with a 24-hour TTL.
With that token users upload files and folders into a per-user tree, list and
inspect them, and publish or unpublish them. Anyone may read a public file's
bytes; a private file is served only to its owner. An image upload queues a
job, and the worker derives thumbnails of widths 500, 250 and 100 from it.
Registration queues a welcome job.

The model is functional. `Store.State` holds every store as an immutable value:
the `users` and `files` collections as maps from id to row, the Redis sessions
as a map from key to session, the stored bytes as a map from path to bytes, and
the two job queues as sequences. Every controller handler is a pure function
from a state and a request to a `Step`, which is the HTTP reply plus the next
state. The thumbnail handler maps a job to a result and the next state; the
welcome handler returns only a result and leaves the state as it was.

What the model takes as parameters:

- `Store.Env` supplies the code the service calls but does not define: `sha1`, base64
  decoding, the thumbnail library (None when it throws), `mime.contentType`, and
  the `FOLDER_PATH` variable, whose default `/tmp/files_manager` is modelled.
- The fresh `uuidv4()` value is a parameter of each handler that uses one.
- Fresh document ids come from `State.nextId`. MongoDB ids grow with creation
  time, so sorting by `_id` descending means newest first.

Request fields are modelled as follows:

- A missing or falsy body string is "".
- A missing `parentId` is 0.
- A missing `X-Token` header becomes the key `auth_undefined`, as JavaScript
  interpolation makes it.
- When the `Authorization` header is missing or has no space, the source throws
  before replying. The model returns `NoReply` in that case.

`Store.Valid` is the invariant every reachable state keeps:

- ids lie below `nextId`;
- emails are unique;
- sessions name existing users;
- a record's parent is a folder of the same owner;
- exactly the non-folders have a `localPath`, and their bytes are stored;
- every queued job names what it needs.

Module `Invariants` proves that each state-changing handler keeps this invariant.

Where the source behaves differently from what its names and comments
suggest, the model follows the source:

- The `type` field may be any non-empty string. Only `folder` and `image` are
  treated specially.
- The `size` parameter may be any non-empty string, not just 100, 250 or 500.
- A thumbnail job looks its file up by id alone and never uses its `userId`
  beyond the presence check.
- A welcome job for an unknown user fails with "User not found" rather than
  being acknowledged.
- A credential is split on every ':'. A password containing ':' can therefore
  never log in, although section 2 of RFC 7617 splits at the first colon only.
  This is modelled as written, and `Invariants.ColonPasswordNeverLogsIn` states it.
  An email containing ':' never logs in for the same reason
  (`Invariants.ColonEmailNeverLogsIn`).
- The credential is decoded with `Buffer.toString('ascii')`, which clears each
  byte's high bit. An email or password with a character at or above 128 is
  altered before the lookup, so the registered pair itself can never be
  presented at login; `Auth.NonAsciiNeverDecoded` states that no decoded
  credential holds such a character.
- The scheme word of the `Authorization` header is not checked. Only its second
  space-separated word is decoded.
- A public file is read with `fs.readFile`, but the owner's private file goes
  through Express's `res.sendFile`, which has checks of its own. A relative
  `FOLDER_PATH` makes it throw, and the handler answers 404 for bytes that are
  stored; `Invariants.RelativeRootHidesPrivateUploads` states this. With an
  absolute `FOLDER_PATH`, a `size` that puts a `..` segment into the path (for
  example `/..`) gets 403, and one holding a NUL character gets 400. A `size`
  of exactly `..` gives the last segment `<uuid>_..`, which is no `..` segment,
  so it is looked up like any other and answered 404.

## Model

| member | source | states |
|---|---|---|
| Strings.Split | controllers/AuthController.js:13 | `split(':')` yields one more field than there are separators, no field holds a separator, and joining the fields gives the text back |
| Strings.SplitJoin | controllers/AuthController.js:13 | splitting joined separator-free fields gives those fields back |
| Strings.SplitPairWithExtraSep | controllers/AuthController.js:13-15 | a credential whose password holds a ':' splits into at least three fields |
| Store.SessionKeyInjective | controllers/AuthController.js:27 | distinct tokens have distinct `auth_` keys |
| Store.CurrentUser | controllers/FilesController.js:13-24 | a caller is identified exactly when the `auth_<token>` key is live and names an existing user row, and then as that user |
| Auth.Ascii | controllers/AuthController.js:12 | the text has one character per byte, each byte with its high bit cleared |
| Auth.DecodedCredential | controllers/AuthController.js:9-12 | a credential is decoded exactly when the header is present and holds a space, and it is 7-bit ASCII |
| Auth.NonAsciiNeverDecoded | controllers/AuthController.js:11-12 | no decoded credential holds a character at or above 128, so a pair with one can never be presented |
| Auth.DecodesSecondWord | controllers/AuthController.js:10-12 | the decoded text is the ASCII reading of the base64 word after the first space, whatever scheme word precedes it and whatever follows the next space |
| Auth.FindUser | controllers/AuthController.js:24 | the lookup returns a user whose email and stored hash both match, or reports that none below the bound does |
| Auth.GetConnect | controllers/AuthController.js:8-35 | no reply when the header is missing or has no space. A credential that does not split into exactly two fields gets 401 with no change. Unknown email and wrong password get the same 401. Success happens exactly when a user matches email and sha1(password); it adds one session `auth_<uuid>` for that user with TTL 86400 and changes nothing else |
| Auth.LoginThenResolve | controllers/AuthController.js:26-29 | the token a successful login returns resolves to the user the credential names |
| Auth.LoginKeepsOtherSessions | controllers/AuthController.js:27-28 | a login leaves every other token resolving to the same user as before |
| Auth.GetDisconnect | controllers/AuthController.js:38-50 | 204 exactly when the session exists. Only that key is removed, and the token then no longer resolves. Otherwise 401 and nothing changes |
| Auth.LogoutTwice | controllers/AuthController.js:39-49 | a second logout with the same token gets 401 and changes nothing |
| Auth.Expire | utils/redis.js:25-29 | when a session's TTL lapses, only its key disappears |
| Auth.RevokedTokenIsAnonymous | controllers/FilesController.js:13-24 | after logout or expiry, the token identifies no user |
| Users.PostNew | controllers/UsersController.js:11-48 | missing email is reported before missing password, then a known email gets "Already exist"; none of these changes anything. 201 happens exactly otherwise, storing `{email, sha1(password)}` under a fresh id and queueing exactly one `{userId}` job; emails stay unique |
| Users.GetMe | controllers/UsersController.js:51-74 | 200 `{id, email}` exactly when the token resolves and the user row exists, else 401; read-only |
| Files.PostUpload | controllers/FilesController.js:27-75 | 401 when the token resolves to no user. Checks run in order: missing name, missing type, missing data (only for non-folders), parent not the caller's, parent not a folder; each is a 400 with no change. A created record has the caller as owner, `parentId` defaulting to 0 and `isPublic` defaulting to false. Only non-folders get `localPath = <root>/<uuid>`, and exactly that blob is added. A thumbnail job is queued exactly for an image, and nothing else changes |
| Files.GetShow | controllers/FilesController.js:78-89 | 401 without a user. 200 exactly when id and owner match together, so another user's record gets the same 404 as a missing id; read-only |
| Files.UploadThenShow | controllers/FilesController.js:65-89 | a record just uploaded is shown as stored to its owner and as missing to every other user |
| Files.Matching | controllers/FilesController.js:100-102 | the ids the `$match` accepts, each exactly once, strictly newest first |
| Files.Window | controllers/FilesController.js:106 | a page holds at most 20 entries, namely those at positions 20·page onward of the order |
| Files.GetIndex | controllers/FilesController.js:92-121 | 401 without a user, and 404 for a negative page. Otherwise at most 20 items, all the caller's and all under `parentId` when it is given. Items are strictly newest first, are exactly positions 20·page onward of that order, and have `localPath` stripped; read-only |
| Files.ListedOnSomePage | controllers/FilesController.js:98-106 | every record the caller may list appears on some page |
| Files.OnItsPage | controllers/FilesController.js:102-106 | position k of the order is on page k / 20 |
| Files.SetPublic | controllers/FilesController.js:130-136 | only the record matching both id and owner changes, and only in `isPublic`; no match gives 404 |
| Files.PutPublish | controllers/FilesController.js:124-138 | 401 without a user. 200 exactly for the caller's own record, which becomes public. Otherwise nothing changes |
| Files.PutUnpublish | controllers/FilesController.js:141-155 | 401 without a user. 200 exactly for the caller's own record, which becomes private. Otherwise nothing changes |
| Files.ContentPath | controllers/FilesController.js:170-171 | the requested path starts with the stored `localPath` (the text "undefined" when there is none) and, when a size is given, continues with `_` and exactly that size |
| Files.ReadFile | controllers/FilesController.js:172-177 | 200 with the stored bytes exactly when something is stored at the path, else the JSON 404 |
| Files.SendFile | controllers/FilesController.js:186-192 | a relative path gets the JSON 404 even when bytes are stored there. A NUL character gets 400 and a `..` segment 403. 200 exactly when the path is absolute, free of both and has bytes stored |
| Files.DotDotSizeIsNoUpPath | controllers/FilesController.js:187-189 | a `size` of exactly `..` puts no `..` segment into the path, so `sendFile` does not refuse it with 403, while a `size` of `/..` does put one in |
| Files.SendableExtend | controllers/FilesController.js:186-189 | an acceptable storage root followed by `/`, a dot-free uuid and a size suffix stays acceptable to `sendFile` |
| Files.GetFile | controllers/FilesController.js:158-196 | never 401. A missing record, or a private one requested by anyone but its owner, gets 404. The folder 400 comes only after the access decision. A public file is served through `readFile`, with no path restriction. The owner's private file is served through `sendFile`, which adds the 400, 403 and 404 of its path checks. 200 serves the bytes at `localPath`, or at `localPath_size` when size is given; read-only |
| Files.PublicNeedsNoToken | controllers/FilesController.js:166-178 | a public file is answered the same with any token or none |
| Files.PrivateLooksMissing | controllers/FilesController.js:179-181 | a non-owner's request for a private file is answered exactly as one for a nonexistent id |
| Files.UnpublishRestoresPrivacy | controllers/FilesController.js:130-153 | publish then unpublish leaves the record private, and everyone but the owner gets 404. A record that started private is back exactly where it was, so its owner is answered as before |
| Files.NoChildMatchesAsWritten | controllers/FilesController.js:98 | the listing's parent filter, as written, matches no stored record |
| Files.RootFilterAsWritten | controllers/FilesController.js:98 | without `parentId` the filter as written is the owner test alone |
| Files.GetIndexAsWritten | controllers/FilesController.js:92-121 | the listing as written: 200 exactly when authenticated with a non-negative page, and the same 401 and 404 as the corrected listing otherwise. Without `parentId` it answers exactly as the corrected listing, so it keeps its 20-item bound, owner scoping and newest-first order. With `parentId` every page is empty; read-only |
| Files.AsWrittenMissesChildren | controllers/FilesController.js:98 | a child the corrected listing shows is missing from every page of the listing as written |
| Worker.Thumbnail | worker.js:17-19 | no thumbnail without a stored original; otherwise the library's resize of the stored bytes to that width |
| Worker.ProcessFileJob | worker.js:22-62 | "Missing fileId" comes before "Missing userId", then "File not found" (lookup by id only); none writes anything. Success happens exactly when all three thumbnails derive. It then adds or overwrites exactly `localPath_500`, `_250` and `_100` with the derived bytes. A derivation failure leaves the bytes unchanged |
| Worker.VariantsDistinct | worker.js:52-54 | the three thumbnail paths are three different keys |
| Worker.FileJobIdempotent | worker.js:44-56 | running a job again on the state it left changes nothing and reports the same |
| Worker.ProcessUserJob | worker.js:65-84 | missing userId fails first, then an unknown user; success happens exactly when the user exists |
| Invariants.ConnectPreservesValid | controllers/AuthController.js:26-28 | login keeps the invariant |
| Invariants.DisconnectPreservesValid | controllers/AuthController.js:43-44 | logout keeps the invariant |
| Invariants.ExpirePreservesValid | utils/redis.js:28 | expiry keeps the invariant |
| Invariants.PostNewPreservesValid | controllers/UsersController.js:29-44 | registration keeps emails unique and the invariant |
| Invariants.PostUploadPreservesValid | controllers/FilesController.js:39-72 | an upload keeps the tree well formed and changes no existing record |
| Invariants.SetPublicPreservesValid | controllers/FilesController.js:131-133 | publishing keeps the invariant, and no record's owner, type, parent or path changes |
| Invariants.FileJobPreservesValid | worker.js:52-54 | thumbnail writes keep the invariant |
| Invariants.QueuedWelcomeJobsSucceed | controllers/UsersController.js:44 | every welcome job the service queues succeeds |
| Invariants.QueuedThumbnailJobsFindTheirImage | controllers/FilesController.js:68-70 | a queued thumbnail job fails only when a thumbnail cannot be derived |
| Invariants.RegisterThenLogin | controllers/UsersController.js:33-44 | register, then log in with the same colon-free 7-bit ASCII pair: 200, the token resolves to the new user, and `/users/me` reports that user's id and email |
| Invariants.ColonEmailNeverLogsIn | controllers/AuthController.js:13-19 | an email containing ':' always gets 401 with no change |
| Invariants.ColonPasswordNeverLogsIn | controllers/AuthController.js:13-19 | a password containing ':' always gets 401 with no change |
| Invariants.ImageUploadToThumbnail | controllers/FilesController.js:66-70 | an image upload queues its job, and processing it succeeds. The owner's `size=100` request then returns the 100-wide thumbnail of the uploaded bytes. A private image needs an absolute storage root and a uuid without '.' or NUL, as `uuidv4()` gives |
| Invariants.RelativeRootHidesPrivateUploads | controllers/FilesController.js:186-192 | with a relative storage root, the owner of a private upload gets 404 for bytes that are stored, and after publishing the same request is served |

## Left out

- utils/db.js and utils/redis.js: the connection wrappers (`isAlive`, `nbUsers`, `nbFiles`) are not modelled. Their stores are the maps of `Store.State`. `set` followed by `expire` is one insert that records the TTL.
- Time: there is no clock. The TTL is recorded, and expiry is the explicit `Auth.Expire` transition.
- `sha1`, `uuidv4`, base64 decoding, `mime.contentType` and `image-thumbnail` are parameters (`Store.Env`, plus the uuid argument), not definitions. `Buffer.toString('ascii')` is modelled.
- Filesystem and database failures are not modelled: `mkdir`, `writeFile` and `readFile` errors, a rejected `insertOne`, and connection errors. Writes always succeed. A failed thumbnail write after an earlier one succeeded would leave partial output; this is not modelled.
- Files.GetFile: a missing blob on the private path is answered by Express's default 404 rather than the JSON "Not found". The model gives both paths the same 404. Likewise the 400 and 403 that `sendFile` passes to Express's error handler are HTML pages; the model keeps their status and gives them the bodies "Bad Request" and "Forbidden".
- Files.SendFile: `send`'s hidden-file rule (a last path segment starting with '.' answers 404) and its URI-decoding failure (400) are not modelled. Paths are looked up as exact strings, so the `path.resolve` that `send` applies on the owner's branch is not modelled either: a `size` such as `100/.` resolves to the stored `_100` thumbnail and is served (200), while the model answers 404.
- Bull's delivery, retries, concurrency and dequeuing are not modelled. The worker handlers take a job directly, and at-least-once delivery appears only as the idempotence lemma.
- Asynchronous ordering is not modelled: for example, the 201 reply is sent before `fileQueue.add`. Each handler is one atomic step.
- Malformed ids that make `ObjectID` throw are not modelled, including a `parentId=0` query. A non-numeric `page` (NaN) is not modelled either; `page` is an integer.
- Body fields that are not strings are not modelled, and neither is an `isPublic` that is not a boolean.
- The listing's `metadata` facet (`$count`, `page`) is not modelled, since its result is never sent.
- Auth.GetConnect: success is promised only for a matching user whose id is below `nextId`, which is every user of a valid state.
- Files.GetIndex: completeness (every eligible record is listed) is stated separately, in `Files.ListedOnSomePage`, for valid states.

## Findings

| source | as written | input that shows it | evidently intended | confidence | as-written member | corrected member |
|---|---|---|---|---|---|---|
| controllers/FilesController.js:98 | the listing matches `parentId: ObjectID(parentId)`, but uploads store the body's `parentId` text (lines 48 and 65), and a BSON string never equals an ObjectID | upload folder F; upload a file with `parentId` = F's id; `GET /files?parentId=<F's id>` | the child is listed | high; not executed | Files.AsWrittenMissesChildren | Files.GetIndex |
