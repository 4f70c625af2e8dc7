/**
 * The file metadata tree and its access rules (`FilesController`). Every
 * handler but `GetFile` first resolves the `X-Token` header to a user and
 * answers 401, changing nothing, when that fails. All lookups are scoped to
 * that user, so someone else's record looks exactly like a missing one.
 */
module Files {
  import opened Wrappers
  import opened Store

  /**
   * An upload body. Strings use "" for a missing (falsy) field; `parentId` is
   * 0 when missing; `isPublic` is None when the body leaves it out.
   */
  datatype UploadRequest = UploadRequest(
    name: string,
    fileType: string,
    parentId: Id,
    isPublic: Option<bool>,
    data: string)

  /** The body passes the field checks: a name, a type, and data unless it is a folder. */
  predicate FieldsPresent(req: UploadRequest) {
    req.name != "" && req.fileType != "" && (req.fileType == FOLDER || req.data != "")
  }

  /** `id` names a record of `owner`'s. */
  predicate OwnedBy(st: State, id: Id, owner: Id) {
    id in st.files && st.files[id].userId == owner
  }

  /** A parent an upload by `owner` may use: the root, or a folder of `owner`'s. */
  predicate ParentOk(st: State, owner: Id, parentId: Id) {
    parentId == 0 || (OwnedBy(st, parentId, owner) && st.files[parentId].fileType == FOLDER)
  }

  /**
   * What a successful upload by `uid` did to the state: one new record under
   * the id its reply reports, carrying the caller as owner and the request's
   * fields; bytes for a non-folder under `<root>/<uuid>`; a thumbnail job
   * exactly for an image; nothing else touched.
   */
  ghost predicate Created(env: Env, st: State, uid: Id, req: UploadRequest, uuid: string, out: Step) {
    && out.response.Reply?
    && out.response.body.FileInfo?
    && var id := out.response.body.view.id;
    && out.state.files.Keys == st.files.Keys + {id}
    && (forall k :: k in st.files && k != id ==> out.state.files[k] == st.files[k])
    && var rec := out.state.files[id];
    && out.response.body.view == View(id, rec)
    && rec.userId == uid
    && rec.name == req.name
    && rec.fileType == req.fileType
    && rec.parentId == req.parentId
    && rec.isPublic == req.isPublic.GetOr(false)
    && (if req.fileType == FOLDER then
          rec.localPath.None? && out.state.blobs == st.blobs
        else
          && rec.localPath == Some(StorageRoot(env) + "/" + uuid)
          && out.state.blobs == st.blobs[rec.localPath.value := env.base64(req.data)])
    && out.state.fileQueue == st.fileQueue + (if req.fileType == IMAGE then [FileJob(Some(uid), Some(id))] else [])
    && out.state.users == st.users
    && out.state.sessions == st.sessions
    && out.state.userQueue == st.userQueue
    && (Valid(st) ==> id !in st.files && out.state.nextId > id)
  }

  /**
   * `POST /files`. After authentication the checks run in a fixed order, each
   * answering 400 with the state untouched: name, type, data (not needed for
   * a folder), then a given parent must be the caller's own record and a folder.
   */
  function PostUpload(env: Env, st: State, token: Option<string>, req: UploadRequest, uuid: string): (out: Step)
    ensures CurrentUser(st, token).None? ==> out == Step(Unauthorized, st)
    ensures CurrentUser(st, token).Some? ==>
              && (req.name == "" ==> out == Step(BadRequest("Missing name"), st))
              && (req.name != "" && req.fileType == "" ==> out == Step(BadRequest("Missing type"), st))
              && (req.name != "" && req.fileType != "" && req.fileType != FOLDER && req.data == "" ==>
                    out == Step(BadRequest("Missing data"), st))
              && (FieldsPresent(req) && req.parentId != 0 && !OwnedBy(st, req.parentId, CurrentUser(st, token).value) ==>
                    out == Step(BadRequest("Parent not found"), st))
              && (FieldsPresent(req) && req.parentId != 0 && OwnedBy(st, req.parentId, CurrentUser(st, token).value)
                  && st.files[req.parentId].fileType != FOLDER ==>
                    out == Step(BadRequest("Parent is not a folder"), st))
    ensures out.response.Is(201) <==>
              CurrentUser(st, token).Some? && FieldsPresent(req) && ParentOk(st, CurrentUser(st, token).value, req.parentId)
    ensures !out.response.Is(201) ==> out.state == st
    ensures out.response.Is(201) ==> Created(env, st, CurrentUser(st, token).value, req, uuid, out)
  {
    match CurrentUser(st, token)
    case None => Step(Unauthorized, st)
    case Some(uid) =>
      if req.name == "" then Step(BadRequest("Missing name"), st)
      else if req.fileType == "" then Step(BadRequest("Missing type"), st)
      else if req.fileType != FOLDER && req.data == "" then Step(BadRequest("Missing data"), st)
      else if req.parentId != 0 && !OwnedBy(st, req.parentId, uid) then Step(BadRequest("Parent not found"), st)
      else if req.parentId != 0 && st.files[req.parentId].fileType != FOLDER then
        Step(BadRequest("Parent is not a folder"), st)
      else
        var id := st.nextId;
        var isPublic := req.isPublic.GetOr(false);
        if req.fileType == FOLDER then
          var rec := FileRecord(uid, req.name, req.fileType, isPublic, req.parentId, None);
          Step(Reply(201, FileInfo(View(id, rec))), st.(files := st.files[id := rec], nextId := id + 1))
        else
          var path := StorageRoot(env) + "/" + uuid;
          var rec := FileRecord(uid, req.name, req.fileType, isPublic, req.parentId, Some(path));
          var jobs := if req.fileType == IMAGE then [FileJob(Some(uid), Some(id))] else [];
          Step(Reply(201, FileInfo(View(id, rec))),
               st.(blobs := st.blobs[path := env.base64(req.data)],
                   files := st.files[id := rec],
                   fileQueue := st.fileQueue + jobs,
                   nextId := id + 1))
  }

  /**
   * `GET /files/:id`. The lookup matches id and owner together: another
   * user's record gets the same 404 as an id that does not exist. Read-only.
   */
  function GetShow(st: State, token: Option<string>, id: Id): (out: Step)
    ensures out.state == st
    ensures CurrentUser(st, token).None? ==> out.response == Unauthorized
    ensures out.response.Is(200) <==> CurrentUser(st, token).Some? && OwnedBy(st, id, CurrentUser(st, token).value)
    ensures out.response.Is(200) ==> out.response.body == Document(id, st.files[id])
    ensures CurrentUser(st, token).Some? && !OwnedBy(st, id, CurrentUser(st, token).value) ==>
              out.response == NotFound
  {
    match CurrentUser(st, token)
    case None => Step(Unauthorized, st)
    case Some(uid) =>
      if OwnedBy(st, id, uid) then Step(Reply(200, Document(id, st.files[id])), st) else Step(NotFound, st)
  }

  /**
   * A record just uploaded is shown to its owner as stored, and to every
   * other user as missing.
   */
  lemma UploadThenShow(env: Env, st: State, token: Option<string>, req: UploadRequest, uuid: string,
                       other: Option<string>)
    requires PostUpload(env, st, token, req, uuid).response.Is(201)
    requires CurrentUser(st, other) != CurrentUser(st, token)
    ensures var up := PostUpload(env, st, token, req, uuid);
            var id := up.response.body.view.id;
            && GetShow(up.state, token, id).response == Reply(200, Document(id, up.state.files[id]))
            && up.state.files[id].userId == CurrentUser(st, token).value
            && (CurrentUser(up.state, other).Some? ==> GetShow(up.state, other, id).response == NotFound)
  {
  }

  // ---------------------------------------------------------------------------
  // Listing: `$match`, `$sort: {_id: -1}`, `$skip: 20 * page`, `$limit: 20`.

  /** The listing filter: owned by `owner`, and a child of `parent` when one is given. */
  predicate Selected(f: FileRecord, owner: Id, parent: Option<Id>) {
    f.userId == owner && (parent.None? || f.parentId == parent.value)
  }

  /** A listing's `$match` stage, read as intended or as the source writes it. */
  datatype Filter = Intended(owner: Id, parent: Option<Id>) | AsWritten(owner: Id, parent: Option<Id>)

  predicate Accepts(filter: Filter, f: FileRecord) {
    match filter
    case Intended(owner, parent) => Selected(f, owner, parent)
    case AsWritten(owner, parent) => SelectedAsWritten(f, owner, parent)
  }

  /** Ids below `hi` of the records `filter` accepts, largest (newest) first. */
  function Matching(files: map<Id, FileRecord>, filter: Filter, hi: nat): (ids: seq<Id>)
    ensures forall i :: 0 <= i < |ids| ==> ids[i] < hi && ids[i] in files && Accepts(filter, files[ids[i]])
    ensures forall i, j :: 0 <= i < j < |ids| ==> ids[i] > ids[j]
    ensures forall id :: id < hi && id in files && Accepts(filter, files[id]) ==> id in ids
  {
    if hi == 0 then []
    else
      var rest := Matching(files, filter, hi - 1);
      if hi - 1 in files && Accepts(filter, files[hi - 1]) then [hi - 1] + rest else rest
  }

  /** Page `page` of `ids`: at most `PAGE_SIZE` entries starting at `PAGE_SIZE * page`. */
  function Window(ids: seq<Id>, page: nat): (w: seq<Id>)
    ensures |w| <= PAGE_SIZE
    ensures forall i :: 0 <= i < |w| ==> PAGE_SIZE * page + i < |ids| && w[i] == ids[PAGE_SIZE * page + i]
    ensures |w| == if |ids| <= PAGE_SIZE * page then 0
                   else if |ids| - PAGE_SIZE * page < PAGE_SIZE then |ids| - PAGE_SIZE * page
                   else PAGE_SIZE
  {
    var lo := if PAGE_SIZE * page < |ids| then PAGE_SIZE * page else |ids|;
    var hi := if lo + PAGE_SIZE < |ids| then lo + PAGE_SIZE else |ids|;
    ids[lo..hi]
  }

  /** The listed form of each record: `localPath` dropped, `_id` shown as `id`. */
  function Views(files: map<Id, FileRecord>, ids: seq<Id>): seq<FileView>
    requires forall i :: 0 <= i < |ids| ==> ids[i] in files
  {
    seq(|ids|, i requires 0 <= i < |ids| => View(ids[i], files[ids[i]]))
  }

  function ListPage(st: State, filter: Filter, page: nat): seq<FileView> {
    var ids := Window(Matching(st.files, filter, st.nextId), page);
    Views(st.files, ids)
  }

  /**
   * `GET /files?parentId=&page=`. A negative page makes `$skip` fail and the
   * empty aggregate result answers 404. Otherwise at most 20 of the caller's
   * records (children of `parentId` when it is given), newest first, starting
   * at position 20 * page of that order, without their `localPath`. Read-only.
   */
  function GetIndex(st: State, token: Option<string>, parentId: Option<Id>, page: int): (out: Step)
    ensures out.state == st
    ensures CurrentUser(st, token).None? ==> out.response == Unauthorized
    ensures CurrentUser(st, token).Some? && page < 0 ==> out.response == NotFound
    ensures out.response.Is(200) <==> CurrentUser(st, token).Some? && page >= 0
    ensures out.response.Is(200) ==>
              && out.response.body.Listing?
              && var items := out.response.body.items;
              && var owner := CurrentUser(st, token).value;
              && |items| <= PAGE_SIZE
              && (forall i :: 0 <= i < |items| ==>
                    && items[i].id in st.files
                    && Selected(st.files[items[i].id], owner, parentId)
                    && items[i] == View(items[i].id, st.files[items[i].id]))
              && (forall i, j :: 0 <= i < j < |items| ==> items[i].id > items[j].id)
              && (forall i :: 0 <= i < |items| ==>
                    var order := Matching(st.files, Intended(owner, parentId), st.nextId);
                    PAGE_SIZE * page + i < |order| && items[i].id == order[PAGE_SIZE * page + i])
  {
    match CurrentUser(st, token)
    case None => Step(Unauthorized, st)
    case Some(uid) =>
      if page < 0 then Step(NotFound, st)
      else Step(Reply(200, Listing(ListPage(st, Intended(uid, parentId), page))), st)
  }

  /**
   * Every record the caller may list shows up: in a valid state, a record of
   * the caller's under `parentId` (or anywhere, with no `parentId`) appears on
   * the page its position in the newest-first order puts it on.
   */
  lemma ListedOnSomePage(st: State, token: Option<string>, parentId: Option<Id>, id: Id) returns (page: nat)
    requires Valid(st)
    requires CurrentUser(st, token).Some? && id in st.files
    requires Selected(st.files[id], CurrentUser(st, token).value, parentId)
    ensures GetIndex(st, token, parentId, page).response.Is(200)
    ensures View(id, st.files[id]) in GetIndex(st, token, parentId, page).response.body.items
  {
    var owner := CurrentUser(st, token).value;
    var order := Matching(st.files, Intended(owner, parentId), st.nextId);
    assert id in order;
    var k :| 0 <= k < |order| && order[k] == id;
    page := k / PAGE_SIZE;
    var j := OnItsPage(order, k);
    assert ListPage(st, Intended(owner, parentId), page)[j] == View(id, st.files[id]);
  }

  /** Position `k` of an order is entry `k % 20` of page `k / 20`. */
  lemma OnItsPage(order: seq<Id>, k: nat) returns (j: nat)
    requires k < |order|
    ensures j < |Window(order, k / PAGE_SIZE)| && Window(order, k / PAGE_SIZE)[j] == order[k]
  {
    j := k % PAGE_SIZE;
    assert PAGE_SIZE * (k / PAGE_SIZE) + j == k;
  }

  // ---------------------------------------------------------------------------
  // Publishing.

  /**
   * `findOneAndUpdate({_id, userId}, {$set: {isPublic}})`. Only the record
   * matching both id and owner changes, and only in `isPublic`; no match is 404.
   */
  function SetPublic(st: State, token: Option<string>, id: Id, value: bool): (out: Step)
    ensures CurrentUser(st, token).None? ==> out == Step(Unauthorized, st)
    ensures CurrentUser(st, token).Some? && !OwnedBy(st, id, CurrentUser(st, token).value) ==>
              out == Step(NotFound, st)
    ensures out.response.Is(200) <==> CurrentUser(st, token).Some? && OwnedBy(st, id, CurrentUser(st, token).value)
    ensures out.response.Is(200) ==>
              && id in out.state.files
              && out.state.files[id].isPublic == value
              && out.response.body == Document(id, out.state.files[id])
              && out.state.files.Keys == st.files.Keys
              && FilesEvolve(st.files, out.state.files)
              && (forall k :: k in st.files && k != id ==> out.state.files[k] == st.files[k])
              && out.state == st.(files := out.state.files)
  {
    match CurrentUser(st, token)
    case None => Step(Unauthorized, st)
    case Some(uid) =>
      if OwnedBy(st, id, uid) then
        var rec := st.files[id].(isPublic := value);
        Step(Reply(200, Document(id, rec)), st.(files := st.files[id := rec]))
      else Step(NotFound, st)
  }

  /** `PUT /files/:id/publish`: the caller's record becomes public; nothing else changes. */
  function PutPublish(st: State, token: Option<string>, id: Id): (out: Step)
    ensures out.response.Is(200) <==> CurrentUser(st, token).Some? && OwnedBy(st, id, CurrentUser(st, token).value)
    ensures CurrentUser(st, token).None? ==> out == Step(Unauthorized, st)
    ensures out.response.Is(200) ==> id in out.state.files && out.state.files[id] == st.files[id].(isPublic := true)
    ensures !out.response.Is(200) ==> out.state == st && (out.response == Unauthorized || out.response == NotFound)
  {
    SetPublic(st, token, id, true)
  }

  /** `PUT /files/:id/unpublish`: the caller's record becomes private; nothing else changes. */
  function PutUnpublish(st: State, token: Option<string>, id: Id): (out: Step)
    ensures out.response.Is(200) <==> CurrentUser(st, token).Some? && OwnedBy(st, id, CurrentUser(st, token).value)
    ensures CurrentUser(st, token).None? ==> out == Step(Unauthorized, st)
    ensures out.response.Is(200) ==> id in out.state.files && out.state.files[id] == st.files[id].(isPublic := false)
    ensures !out.response.Is(200) ==> out.state == st && (out.response == Unauthorized || out.response == NotFound)
  {
    SetPublic(st, token, id, false)
  }

  // ---------------------------------------------------------------------------
  // Content.

  /**
   * The path `getFile` reads: `localPath`, or `localPath_size` when a size is
   * given. A record without `localPath` interpolates as the text "undefined".
   */
  function ContentPath(f: FileRecord, size: string): (path: string)
    ensures var base := f.localPath.GetOr("undefined");
            && base <= path
            && (size == "" ==> path == base)
            && (size != "" ==> |path| == |base| + 1 + |size| && path[|base|] == '_' && path[|base| + 1..] == size)
  {
    var base := if f.localPath.Some? then f.localPath.value else "undefined";
    if size == "" then base else Variant(base, size)
  }

  /** The requester may see `f`: it is public, or the token is its owner's. */
  predicate MayRead(st: State, token: Option<string>, f: FileRecord) {
    f.isPublic || CurrentUser(st, token) == Some(f.userId)
  }

  /** The public branch's `fs.readFile`: the bytes stored at `path`, or 404 when there are none. */
  function ReadFile(env: Env, st: State, f: FileRecord, path: string): (r: Response)
    ensures r.Is(200) <==> path in st.blobs
    ensures r.Is(200) ==> r.body == Content(env.contentType(f.name), st.blobs[path])
    ensures !r.Is(200) ==> r == NotFound
  {
    if path in st.blobs then Reply(200, Content(env.contentType(f.name), st.blobs[path])) else NotFound
  }

  predicate Separator(c: char) {
    c == '/' || c == '\\'
  }

  /** Express's `isAbsolute`: a leading '/', a drive letter followed by a separator, or two leading backslashes. */
  predicate Absolute(path: string) {
    || (|path| >= 1 && path[0] == '/')
    || (|path| >= 3 && path[1] == ':' && Separator(path[2]))
    || (|path| >= 2 && path[0] == '\\' && path[1] == '\\')
  }

  /** A `..` segment starts at position `i`, delimited by separators or by either end. */
  predicate UpAt(path: string, i: int) {
    && 0 <= i < |path| - 1 && path[i] == '.' && path[i + 1] == '.'
    && (i == 0 || Separator(path[i - 1]))
    && (i + 2 == |path| || Separator(path[i + 2]))
  }

  /** The path has a `..` segment. */
  predicate UpPath(path: string) {
    exists i :: 0 <= i < |path| && UpAt(path, i)
  }

  /** `res.sendFile` with no root accepts the path: absolute, no NUL character, no `..` segment. */
  predicate Sendable(path: string) {
    Absolute(path) && '\0' !in path && !UpPath(path)
  }

  /**
   * The owner branch's `res.sendFile`. A relative path throws a TypeError
   * that the handler's catch answers with the JSON 404. A NUL character is
   * a 400 and a `..` segment a 403, both passed to Express's error handler.
   * Otherwise the bytes stored at `path`, or 404 when there are none.
   */
  function SendFile(env: Env, st: State, f: FileRecord, path: string): (r: Response)
    ensures r.Is(200) <==> Sendable(path) && path in st.blobs
    ensures r.Is(200) ==> r == ReadFile(env, st, f, path)
    ensures r.Is(400) <==> Absolute(path) && '\0' in path
    ensures r.Is(403) <==> Absolute(path) && '\0' !in path && UpPath(path)
    ensures !Absolute(path) ==> r == NotFound
    ensures r.Is(200) || r.Is(400) || r.Is(403) || r == NotFound
  {
    if !Absolute(path) then NotFound
    else if '\0' in path then Reply(400, Error("Bad Request"))
    else if UpPath(path) then Reply(403, Error("Forbidden"))
    else ReadFile(env, st, f, path)
  }

  /**
   * A `size` of exactly `..` makes no `..` segment: the last segment is
   * `<uuid>_..`. With a `/`-led size the segment is there.
   */
  lemma DotDotSizeIsNoUpPath(base: string)
    requires |base| > 0 && base[|base| - 1] != '.' && !UpPath(base)
    ensures !UpPath(Variant(base, ".."))
    ensures UpPath(Variant(base, "/.."))
  {
    var p := Variant(base, "..");
    forall i | 0 <= i < |p|
      ensures !UpAt(p, i)
    {
      if i == |base| - 1 {
        assert p[i] == base[|base| - 1];
      } else if i < |base| - 1 {
        assert p[i] == base[i] && p[i + 1] == base[i + 1];
        assert i == 0 || p[i - 1] == base[i - 1];
        assert i + 2 < |base| ==> p[i + 2] == base[i + 2];
        assert !UpAt(base, i);
      } else if i == |base| {
        assert p[i] == '_';
      }
    }
    var q := Variant(base, "/..");
    assert UpAt(q, |base| + 2);
  }

  /**
   * Appending a separator-led tail with no '.' and no NUL to an acceptable
   * path keeps it acceptable: no `..` segment can straddle the seam.
   */
  lemma SendableExtend(root: string, tail: string)
    requires Sendable(root)
    requires |tail| > 0 && tail[0] == '/' && '.' !in tail && '\0' !in tail
    ensures Sendable(root + tail)
  {
    assert Absolute(root + tail) by {
      assert forall k :: 0 <= k < |root| ==> (root + tail)[k] == root[k];
    }
    assert '\0' !in root + tail;
    NoUpPathAcrossSeam(root, tail);
  }

  lemma NoUpPathAcrossSeam(root: string, tail: string)
    requires !UpPath(root) && '.' !in tail
    ensures !UpPath(root + tail)
  {
    var p := root + tail;
    forall i | 0 <= i < |p|
      ensures !UpAt(p, i)
    {
      if i + 1 < |root| {
        assert p[i] == root[i] && p[i + 1] == root[i + 1];
        assert i == 0 || p[i - 1] == root[i - 1];
        assert i + 2 < |root| ==> p[i + 2] == root[i + 2];
        assert !UpAt(root, i);
      } else if i + 1 < |p| {
        assert p[i + 1] == tail[i + 1 - |root|];
      }
    }
  }

  /**
   * `GET /files/:id/data?size=`. The record is looked up by id alone. A
   * public one is served to anyone, token or not, through `fs.readFile`; a
   * private one only to its owner, through `res.sendFile`, and everyone else
   * gets 404, never 401. The folder check (400) comes only after that
   * decision. Read-only.
   */
  function GetFile(env: Env, st: State, token: Option<string>, id: Id, size: string): (out: Step)
    ensures out.state == st
    ensures out.response.Is(200) || out.response.Is(400) || out.response.Is(403) || out.response == NotFound
    ensures id !in st.files || !MayRead(st, token, st.files[id]) ==> out.response == NotFound
    ensures id in st.files && MayRead(st, token, st.files[id]) && st.files[id].fileType == FOLDER ==>
              out.response == BadRequest("A folder doesn't have content")
    ensures out.response.Is(200) <==>
              && id in st.files && MayRead(st, token, st.files[id])
              && st.files[id].fileType != FOLDER
              && ContentPath(st.files[id], size) in st.blobs
              && (st.files[id].isPublic || Sendable(ContentPath(st.files[id], size)))
    ensures out.response.Is(200) ==>
              out.response.body == Content(env.contentType(st.files[id].name), st.blobs[ContentPath(st.files[id], size)])
    ensures out.response.Is(400) <==>
              && id in st.files && MayRead(st, token, st.files[id])
              && (|| st.files[id].fileType == FOLDER
                  || (!st.files[id].isPublic && Absolute(ContentPath(st.files[id], size))
                      && '\0' in ContentPath(st.files[id], size)))
    ensures out.response.Is(403) <==>
              && id in st.files && !st.files[id].isPublic && MayRead(st, token, st.files[id])
              && st.files[id].fileType != FOLDER
              && var path := ContentPath(st.files[id], size);
              Absolute(path) && '\0' !in path && UpPath(path)
  {
    if id !in st.files then Step(NotFound, st)
    else
      var f := st.files[id];
      if f.isPublic then
        if f.fileType == FOLDER then Step(BadRequest("A folder doesn't have content"), st)
        else Step(ReadFile(env, st, f, ContentPath(f, size)), st)
      else if CurrentUser(st, token) != Some(f.userId) then Step(NotFound, st)
      else if f.fileType == FOLDER then Step(BadRequest("A folder doesn't have content"), st)
      else Step(SendFile(env, st, f, ContentPath(f, size)), st)
  }

  /** Whether a public file is served does not depend on who asks, or whether anyone is logged in. */
  lemma PublicNeedsNoToken(env: Env, st: State, id: Id, size: string, token: Option<string>)
    requires id in st.files && st.files[id].isPublic
    ensures GetFile(env, st, token, id, size) == GetFile(env, st, None, id, size)
  {
  }

  /**
   * A private file's content request from anyone but its owner is answered
   * exactly as for an id that does not exist.
   */
  lemma PrivateLooksMissing(env: Env, st: State, token: Option<string>, id: Id, size: string, absent: Id)
    requires id in st.files && !st.files[id].isPublic
    requires CurrentUser(st, token) != Some(st.files[id].userId)
    requires absent !in st.files
    ensures GetFile(env, st, token, id, size) == GetFile(env, st, token, absent, size)
  {
  }

  /**
   * Publishing then unpublishing puts content access back to owner-only:
   * afterwards everyone but the owner gets 404, the record is private, and a
   * record that started private is back exactly where it was, so its owner
   * is answered as before.
   */
  lemma UnpublishRestoresPrivacy(env: Env, st: State, owner: Option<string>, id: Id, other: Option<string>, size: string)
    requires PutPublish(st, owner, id).response.Is(200)
    requires CurrentUser(st, other) != CurrentUser(st, owner)
    ensures var st1 := PutPublish(st, owner, id).state;
            var st2 := PutUnpublish(st1, owner, id).state;
            && PutUnpublish(st1, owner, id).response.Is(200)
            && st2.files[id] == st.files[id].(isPublic := false)
            && GetFile(env, st2, other, id, size).response == NotFound
            && (!st.files[id].isPublic ==> st2 == st && GetFile(env, st2, owner, id, size) == GetFile(env, st, owner, id, size))
  {
  }

  // ---------------------------------------------------------------------------
  // The listing as the source writes it.

  /** A value as MongoDB stores or compares it. */
  datatype BsonValue = BsonInt(n: int) | BsonString(text: Id) | BsonObjectId(oid: Id)

  /**
   * The `parentId` field `insertOne` stores: `parentId || 0` taken straight
   * from the JSON body, so the number 0 at the root and the id's text otherwise.
   */
  function StoredParent(parentId: Id): BsonValue {
    if parentId == 0 then BsonInt(0) else BsonString(parentId)
  }

  /** `getIndex`'s `$match` as written: the stored field against `ObjectID(parentId)`. */
  predicate SelectedAsWritten(f: FileRecord, owner: Id, parent: Option<Id>) {
    f.userId == owner && (parent.None? || StoredParent(f.parentId) == BsonObjectId(parent.value))
  }

  /**
   * No stored record ever satisfies the as-written parent filter: a string
   * (or the number 0) never equals an ObjectID.
   */
  lemma {:induction false} NoChildMatchesAsWritten(files: map<Id, FileRecord>, owner: Id, parent: Id, hi: nat)
    ensures Matching(files, AsWritten(owner, Some(parent)), hi) == []
  {
    if hi > 0 {
      NoChildMatchesAsWritten(files, owner, parent, hi - 1);
    }
  }

  /** Without a parent the as-written filter is the intended one: the owner test alone. */
  lemma {:induction false} RootFilterAsWritten(files: map<Id, FileRecord>, owner: Id, hi: nat)
    ensures Matching(files, AsWritten(owner, None), hi) == Matching(files, Intended(owner, None), hi)
  {
    if hi > 0 {
      RootFilterAsWritten(files, owner, hi - 1);
    }
  }

  /**
   * `GET /files` as written: identical to `GetIndex` except for the `$match`.
   * Without `parentId` it answers exactly as the corrected listing does, so it
   * keeps the same bounds; with one, every page it answers is empty.
   */
  function GetIndexAsWritten(st: State, token: Option<string>, parentId: Option<Id>, page: int): (out: Step)
    ensures out.state == st
    ensures out.response.Is(200) <==> CurrentUser(st, token).Some? && page >= 0
    ensures parentId.None? ==> out == GetIndex(st, token, parentId, page)
    ensures parentId.Some? && out.response.Is(200) ==> out.response == Reply(200, Listing([]))
    ensures !out.response.Is(200) ==> out.response == GetIndex(st, token, parentId, page).response
  {
    match CurrentUser(st, token)
    case None => Step(Unauthorized, st)
    case Some(uid) =>
      if page < 0 then Step(NotFound, st)
      else
        if parentId.None? then
          RootFilterAsWritten(st.files, uid, st.nextId);
          Step(Reply(200, Listing(ListPage(st, AsWritten(uid, parentId), page))), st)
        else
          NoChildMatchesAsWritten(st.files, uid, parentId.value, st.nextId);
          assert ListPage(st, AsWritten(uid, parentId), page) == [];
          Step(Reply(200, Listing(ListPage(st, AsWritten(uid, parentId), page))), st)
  }

  /**
   * The discrepancy: a child uploaded under a folder is on some page of the
   * corrected listing by that folder, while the listing as written answers
   * an empty page for every page number.
   */
  lemma AsWrittenMissesChildren(st: State, token: Option<string>, child: Id)
    requires Valid(st)
    requires CurrentUser(st, token).Some? && OwnedBy(st, child, CurrentUser(st, token).value)
    requires st.files[child].parentId != 0
    ensures var parent := Some(st.files[child].parentId);
            && (forall page: nat :: GetIndexAsWritten(st, token, parent, page).response == Reply(200, Listing([])))
            && exists page: nat :: View(child, st.files[child]) in GetIndex(st, token, parent, page).response.body.items
  {
    var parent := Some(st.files[child].parentId);
    var page := ListedOnSomePage(st, token, parent, child);
    var uid := CurrentUser(st, token).value;
    forall page: nat
      ensures GetIndexAsWritten(st, token, parent, page).response == Reply(200, Listing([]))
    {
      NoChildMatchesAsWritten(st.files, uid, parent.value, st.nextId);
      assert ListPage(st, AsWritten(uid, parent), page) == [];
    }
  }
}
