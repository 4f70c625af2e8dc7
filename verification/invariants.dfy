/**
 * Properties that span handlers: every transition keeps `Store.Valid`
 * (unique emails, well-formed tree, every file job naming its image), and
 * the end-to-end flows of the service behave as its users rely on.
 */
module Invariants {
  import opened Wrappers
  import opened Strings
  import opened Store
  import Auth
  import Users
  import Files
  import Worker

  lemma InitValid()
    ensures Valid(Init())
  {
  }

  lemma ConnectPreservesValid(env: Env, st: State, authorization: Option<string>, uuid: string)
    requires Valid(st)
    ensures Valid(Auth.GetConnect(env, st, authorization, uuid).state)
  {
  }

  lemma DisconnectPreservesValid(st: State, token: Option<string>)
    requires Valid(st)
    ensures Valid(Auth.GetDisconnect(st, token).state)
  {
  }

  lemma ExpirePreservesValid(st: State, key: string)
    requires Valid(st)
    ensures Valid(Auth.Expire(st, key))
  {
  }

  /** Registration keeps emails unique and every queued welcome job pointing at a user. */
  lemma PostNewPreservesValid(env: Env, st: State, email: string, password: string)
    requires Valid(st)
    ensures Valid(Users.PostNew(env, st, email, password).state)
  {
  }

  /**
   * Adding one well-formed record, and possibly jobs naming it, to a valid
   * state keeps it valid when nothing else loses anything.
   */
  lemma AddRecordKeepsValid(st: State, st': State, id: Id, jobs: seq<FileJob>)
    requires Valid(st)
    requires id !in st.files && 1 <= id < st'.nextId && st.nextId <= st'.nextId
    requires st'.files.Keys == st.files.Keys + {id}
    requires forall k :: k in st.files ==> st'.files[k] == st.files[k]
    requires st'.users == st.users && st'.sessions == st.sessions && st'.userQueue == st.userQueue
    requires st.blobs.Keys <= st'.blobs.Keys
    requires st'.fileQueue == st.fileQueue + jobs
    requires WellFormed(st', st'.files[id])
    requires forall i :: 0 <= i < |jobs| ==> PendingThumbnail(st', jobs[i])
    ensures Valid(st')
  {
  }

  /**
   * An upload keeps the tree well formed: the new record's parent is a folder
   * of the same owner, a non-folder's bytes are stored, an image's thumbnail
   * job names it; and no existing record changes.
   */
  lemma PostUploadPreservesValid(env: Env, st: State, token: Option<string>, req: Files.UploadRequest, uuid: string)
    requires Valid(st)
    ensures Valid(Files.PostUpload(env, st, token, req, uuid).state)
    ensures var after := Files.PostUpload(env, st, token, req, uuid).state.files;
            forall k :: k in st.files ==> k in after && after[k] == st.files[k]
  {
    var out := Files.PostUpload(env, st, token, req, uuid);
    if out.response.Is(201) {
      var uid := CurrentUser(st, token).value;
      assert Files.Created(env, st, uid, req, uuid, out);
      var id := out.response.body.view.id;
      var jobs := if req.fileType == IMAGE then [FileJob(Some(uid), Some(id))] else [];
      AddRecordKeepsValid(st, out.state, id, jobs);
    }
  }

  /** Publishing touches only `isPublic`, which nothing in the invariant depends on. */
  lemma SetPublicPreservesValid(st: State, token: Option<string>, id: Id, value: bool)
    requires Valid(st)
    ensures Valid(Files.SetPublic(st, token, id, value).state)
    ensures FilesEvolve(st.files, Files.SetPublic(st, token, id, value).state.files)
  {
    var out := Files.SetPublic(st, token, id, value);
    if out.response.Is(200) {
      var st' := out.state;
      forall k | k in st'.files
        ensures WellFormed(st', st'.files[k])
      {
        assert WellFormed(st, st.files[k]);
      }
      forall i | 0 <= i < |st'.fileQueue|
        ensures PendingThumbnail(st', st'.fileQueue[i])
      {
        assert PendingThumbnail(st, st.fileQueue[i]);
      }
    }
  }

  /** Writing thumbnails only adds byte-store keys. */
  lemma FileJobPreservesValid(env: Env, st: State, job: FileJob)
    requires Valid(st)
    ensures Valid(Worker.ProcessFileJob(env, st, job).state)
  {
  }

  /** Every welcome job the service queues succeeds. */
  lemma QueuedWelcomeJobsSucceed(st: State, i: nat)
    requires Valid(st) && i < |st.userQueue|
    ensures Worker.ProcessUserJob(st, st.userQueue[i]) == Worker.Done
  {
  }

  /**
   * A queued thumbnail job never fails validation or lookup: it can fail
   * only because a thumbnail could not be derived.
   */
  lemma QueuedThumbnailJobsFindTheirImage(env: Env, st: State, i: nat)
    requires Valid(st) && i < |st.fileQueue|
    ensures var out := Worker.ProcessFileJob(env, st, st.fileQueue[i]);
            out.result == Worker.Done || out.result == Worker.Failed("Thumbnail generation failed")
  {
  }

  /**
   * Register, then log in with the same email and password: the login
   * succeeds and its token identifies the new user, which `/users/me` then
   * reports. Neither field may hold a ':', since the credential is split on
   * every colon, and both are 7-bit ASCII, since the header's credential
   * decodes to nothing else.
   */
  lemma RegisterThenLogin(env: Env, st: State, email: string, password: string,
                          authorization: Option<string>, uuid: string)
    requires Valid(st)
    requires email != "" && password != "" && !Users.EmailTaken(st.users, email)
    requires ':' !in email && ':' !in password
    requires Auth.DecodedCredential(env, authorization) == Some(email + [':'] + password)
    ensures var reg := Users.PostNew(env, st, email, password);
            var login := Auth.GetConnect(env, reg.state, authorization, uuid);
            && reg.response.Is(201)
            && login.response == Reply(200, Token(uuid))
            && CurrentUser(login.state, Some(uuid)) == Some(reg.response.body.id)
            && Users.GetMe(login.state, Some(uuid)).response == Reply(200, UserInfo(reg.response.body.id, email))
  {
    var reg := Users.PostNew(env, st, email, password);
    var id := reg.response.body.id;
    PostNewPreservesValid(env, st, email, password);
    SplitPair(email, ':', password);
    var cred := email + [':'] + password;
    assert Auth.LogsInAs(env, reg.state, cred, id);
    assert id < reg.state.nextId;
    var login := Auth.GetConnect(env, reg.state, authorization, uuid);
    var uid :| Auth.LogsInAs(env, reg.state, cred, uid)
               && login.state == reg.state.(sessions := reg.state.sessions[SessionKey(Some(uuid)) := Session(uid, SESSION_TTL)]);
    assert reg.state.users[uid].email == reg.state.users[id].email;
  }

  /**
   * A password containing ':' never logs in, whoever registered it: the
   * credential splits into three or more fields and is refused unchanged.
   */
  lemma ColonPasswordNeverLogsIn(env: Env, st: State, email: string, password: string,
                                 authorization: Option<string>, uuid: string)
    requires ':' in password
    requires Auth.DecodedCredential(env, authorization) == Some(email + [':'] + password)
    ensures Auth.GetConnect(env, st, authorization, uuid) == Step(Unauthorized, st)
  {
    SplitPairWithExtraSep(email, ':', password);
  }

  /**
   * An email containing ':' never logs in either: the credential splits
   * into three or more fields and is refused unchanged.
   */
  lemma ColonEmailNeverLogsIn(env: Env, st: State, email: string, password: string,
                              authorization: Option<string>, uuid: string)
    requires ':' in email
    requires Auth.DecodedCredential(env, authorization) == Some(email + [':'] + password)
    ensures Auth.GetConnect(env, st, authorization, uuid) == Step(Unauthorized, st)
  {
    SplitPairWithEarlySep(email, ':', password);
  }

  /**
   * The image pipeline end to end: an image upload queues a job naming the
   * new record; processing it succeeds when the library can resize the
   * uploaded bytes; afterwards the owner's request with `size=100` returns
   * the 100-wide thumbnail of exactly those bytes. A private image goes
   * through `res.sendFile`, so its storage root must be one `sendFile`
   * accepts and the uuid free of '.' and NUL, as every `uuidv4()` text is.
   */
  lemma ImageUploadToThumbnail(env: Env, st: State, token: Option<string>, req: Files.UploadRequest, uuid: string)
    requires Valid(st)
    requires req.fileType == IMAGE
    requires Files.PostUpload(env, st, token, req, uuid).response.Is(201)
    requires env.thumbnail(500, env.base64(req.data)).Some?
    requires env.thumbnail(250, env.base64(req.data)).Some?
    requires env.thumbnail(100, env.base64(req.data)).Some?
    requires req.isPublic == Some(true) || (Files.Sendable(StorageRoot(env)) && '.' !in uuid && '\0' !in uuid)
    ensures var up := Files.PostUpload(env, st, token, req, uuid);
            var id := up.response.body.view.id;
            && |up.state.fileQueue| > 0
            && var job := up.state.fileQueue[|up.state.fileQueue| - 1];
            && job == FileJob(CurrentUser(st, token), Some(id))
            && var done := Worker.ProcessFileJob(env, up.state, job);
            && done.result == Worker.Done
            && Files.GetFile(env, done.state, token, id, "100").response
               == Reply(200, Content(env.contentType(req.name), env.thumbnail(100, env.base64(req.data)).value))
  {
    if req.isPublic != Some(true) {
      var root := StorageRoot(env);
      var tail := "/" + uuid + "_" + "100";
      assert Variant(root + "/" + uuid, "100") == root + tail;
      Files.SendableExtend(root, tail);
    }
  }

  /**
   * With a relative storage root, an owner cannot read their own private
   * upload: `res.sendFile` throws on the relative path and the handler's
   * catch answers 404, although the bytes are stored. Once published, the
   * same request is served through `fs.readFile`.
   */
  lemma RelativeRootHidesPrivateUploads(env: Env, st: State, token: Option<string>, req: Files.UploadRequest, uuid: string)
    requires Files.PostUpload(env, st, token, req, uuid).response.Is(201)
    requires req.fileType != FOLDER && req.isPublic != Some(true)
    requires !Files.Absolute(StorageRoot(env) + "/" + uuid)
    ensures var up := Files.PostUpload(env, st, token, req, uuid);
            var id := up.response.body.view.id;
            && up.state.files[id].localPath.value in up.state.blobs
            && Files.GetFile(env, up.state, token, id, "").response == NotFound
            && Files.GetFile(env, Files.PutPublish(up.state, token, id).state, token, id, "").response
               == Reply(200, Content(env.contentType(req.name), env.base64(req.data)))
  {
  }
}
