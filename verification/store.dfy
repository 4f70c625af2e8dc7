/**
 * The service's state and vocabulary. The MongoDB collections `users` and
 * `files`, the Redis key space, the directory of stored bytes and the two Bull
 * queues are immutable maps and sequences; every handler is a pure transition
 * from one `State` to the next.
 */
module Store {
  import opened Wrappers

  /** A document id. Ids grow with creation time and are never 0: 0 marks "no parent". */
  type Id = nat

  newtype byte = x: int | 0 <= x < 256
  type Bytes = seq<byte>

  /** A row of the `users` collection; `password` holds the SHA-1 hex digest, never the password. */
  datatype User = User(email: string, password: string)

  /** The value of a Redis key `auth_<token>`: the user's id, with the time-to-live it was stored with. */
  datatype Session = Session(userId: Id, ttl: nat)

  /**
   * A row of the `files` collection. `parentId` is 0 at the root. `localPath`
   * is where the bytes live; folders have none.
   */
  datatype FileRecord = FileRecord(
    userId: Id,
    name: string,
    fileType: string,
    isPublic: bool,
    parentId: Id,
    localPath: Option<string>)

  /** Payload of a `fileQueue` job; a field can be missing. */
  datatype FileJob = FileJob(userId: Option<Id>, fileId: Option<Id>)

  /** Payload of a `userQueue` job. */
  datatype UserJob = UserJob(userId: Option<Id>)

  datatype State = State(
    users: map<Id, User>,
    sessions: map<string, Session>,
    files: map<Id, FileRecord>,
    blobs: map<string, Bytes>,
    fileQueue: seq<FileJob>,
    userQueue: seq<UserJob>,
    nextId: Id)

  /**
   * What the service calls but does not define: `sha1`, base64 decoding,
   * the `image-thumbnail` library (None when it throws), `mime.contentType`,
   * and the `FOLDER_PATH` environment variable ("" when unset).
   */
  datatype Env = Env(
    sha1: string -> string,
    base64: string -> Bytes,
    thumbnail: (nat, Bytes) -> Option<Bytes>,
    contentType: string -> string,
    folderPath: string)

  const FOLDER: string := "folder"
  const IMAGE: string := "image"
  /** Session lifetime in seconds: 24 hours. */
  const SESSION_TTL: nat := 60 * 60 * 24
  const PAGE_SIZE: nat := 20
  const DEFAULT_FOLDER_PATH: string := "/tmp/files_manager"

  /** The metadata fields a listing or an upload reply shows; `localPath` is left out. */
  datatype FileView = FileView(id: Id, userId: Id, name: string, fileType: string, isPublic: bool, parentId: Id)

  datatype Body =
    | NoContent
    | Error(message: string)
    | Token(token: string)
    | UserInfo(id: Id, email: string)
    | FileInfo(view: FileView)
    | Document(id: Id, file: FileRecord)
    | Listing(items: seq<FileView>)
    | Content(contentType: string, data: Bytes)

  /** An HTTP reply, or none at all when the handler throws before answering. */
  datatype Response = Reply(status: nat, body: Body) | NoReply {
    predicate Is(code: nat) {
      Reply? && status == code
    }
  }

  /** A handler's reply together with the state it leaves behind. */
  datatype Step = Step(response: Response, state: State)

  const Unauthorized: Response := Reply(401, Error("Unauthorized"))
  const NotFound: Response := Reply(404, Error("Not found"))

  function BadRequest(message: string): Response {
    Reply(400, Error(message))
  }

  function View(id: Id, f: FileRecord): FileView {
    FileView(id, f.userId, f.name, f.fileType, f.isPublic, f.parentId)
  }

  /** The Redis key of a token; a missing `X-Token` header reads as the text "undefined". */
  function SessionKey(token: Option<string>): string {
    "auth_" + token.GetOr("undefined")
  }

  lemma SessionKeyInjective(a: string, b: string)
    requires SessionKey(Some(a)) == SessionKey(Some(b))
    ensures a == b
  {
    assert a == SessionKey(Some(a))[5..];
  }

  /** The id a token's session names, if the key is live. */
  function Resolve(st: State, token: Option<string>): Option<Id> {
    var key := SessionKey(token);
    if key in st.sessions then Some(st.sessions[key].userId) else None
  }

  /** The caller's identity: the session's user, and only while that user's row exists. */
  function CurrentUser(st: State, token: Option<string>): (r: Option<Id>)
    ensures r.Some? <==> SessionKey(token) in st.sessions && st.sessions[SessionKey(token)].userId in st.users
    ensures r.Some? ==> r.value in st.users && r.value == st.sessions[SessionKey(token)].userId
  {
    match Resolve(st, token)
    case Some(uid) => if uid in st.users then Some(uid) else None
    case None => None
  }

  /** The path of a derived size of the bytes at `path`: `<path>_<size>`. */
  function Variant(path: string, size: string): string {
    path + "_" + size
  }

  /** The directory non-folder uploads are written to. */
  function StorageRoot(env: Env): string {
    if env.folderPath == "" then DEFAULT_FOLDER_PATH else env.folderPath
  }

  /** The state before any request. */
  function Init(): State {
    State(map[], map[], map[], map[], [], [], 1)
  }

  // ---------------------------------------------------------------------------
  // The invariant every reachable state keeps.

  ghost predicate EmailsUnique(users: map<Id, User>) {
    forall a, b :: a in users && b in users && users[a].email == users[b].email ==> a == b
  }

  /** A record's tree links, ownership and storage key are as upload creates them. */
  ghost predicate WellFormed(st: State, f: FileRecord) {
    && f.userId in st.users
    && (f.fileType == FOLDER <==> f.localPath.None?)
    && (f.localPath.Some? ==> f.localPath.value in st.blobs)
    && (f.parentId != 0 ==>
          && f.parentId in st.files
          && st.files[f.parentId].userId == f.userId
          && st.files[f.parentId].fileType == FOLDER)
  }

  /** A queued thumbnail job names an image and its owner. */
  ghost predicate PendingThumbnail(st: State, job: FileJob) {
    && job.fileId.Some? && job.userId.Some?
    && job.fileId.value in st.files
    && st.files[job.fileId.value].userId == job.userId.value
    && st.files[job.fileId.value].fileType == IMAGE
  }

  ghost predicate Valid(st: State) {
    && st.nextId >= 1
    && (forall id :: id in st.users ==> 1 <= id < st.nextId)
    && (forall id :: id in st.files ==> 1 <= id < st.nextId)
    && EmailsUnique(st.users)
    && (forall k :: k in st.sessions ==> st.sessions[k].userId in st.users)
    && (forall id :: id in st.files ==> WellFormed(st, st.files[id]))
    && (forall i :: 0 <= i < |st.fileQueue| ==> PendingThumbnail(st, st.fileQueue[i]))
    && (forall i :: 0 <= i < |st.userQueue| ==>
          st.userQueue[i].userId.Some? && st.userQueue[i].userId.value in st.users)
  }

  /**
   * How the files collection may evolve: no record disappears, and owner,
   * name, type, parent and storage key never change; only `isPublic` may.
   */
  ghost predicate FilesEvolve(before: map<Id, FileRecord>, after: map<Id, FileRecord>) {
    forall id :: id in before ==>
      && id in after
      && after[id] == before[id].(isPublic := after[id].isPublic)
  }
}
