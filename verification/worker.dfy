/**
 * The background worker (`worker.js`). A thumbnail job derives widths 500,
 * 250 and 100 of an uploaded image and stores them next to it; a welcome job
 * only checks that its user exists. Jobs may be delivered more than once, so
 * running one again must leave the same state.
 */
module Worker {
  import opened Wrappers
  import opened Store

  /** `done()` or `done(new Error(reason))`. */
  datatype JobResult = Done | Failed(reason: string)

  datatype JobStep = JobStep(result: JobResult, state: State)

  /**
   * `imageThumbnail(localPath, {width})`: the original bytes resized to
   * `width`, or None when the library throws, which it does when there is no
   * path or nothing is stored there.
   */
  function Thumbnail(env: Env, blobs: map<string, Bytes>, localPath: Option<string>, width: nat): (r: Option<Bytes>)
    ensures localPath.None? || localPath.value !in blobs ==> r.None?
    ensures localPath.Some? && localPath.value in blobs ==> r == env.thumbnail(width, blobs[localPath.value])
  {
    if localPath.Some? && localPath.value in blobs then env.thumbnail(width, blobs[localPath.value]) else None
  }

  /** The three widths all derive. */
  predicate ThumbnailsDerive(env: Env, st: State, f: FileRecord) {
    && Thumbnail(env, st.blobs, f.localPath, 500).Some?
    && Thumbnail(env, st.blobs, f.localPath, 250).Some?
    && Thumbnail(env, st.blobs, f.localPath, 100).Some?
  }

  /**
   * A `fileQueue` job. Missing `fileId` is reported before missing `userId`,
   * then a record that does not exist; the lookup is by id alone. All three
   * thumbnails are derived before the first write, so a derivation failure
   * writes nothing. Success adds or overwrites exactly the keys
   * `<localPath>_500`, `_250` and `_100` of the byte store.
   */
  function ProcessFileJob(env: Env, st: State, job: FileJob): (out: JobStep)
    ensures job.fileId.None? ==> out == JobStep(Failed("Missing fileId"), st)
    ensures job.fileId.Some? && job.userId.None? ==> out == JobStep(Failed("Missing userId"), st)
    ensures job.fileId.Some? && job.userId.Some? && job.fileId.value !in st.files ==>
              out == JobStep(Failed("File not found"), st)
    ensures out.result.Failed? ==> out.state == st
    ensures out.result == Done <==>
              && job.fileId.Some? && job.userId.Some? && job.fileId.value in st.files
              && ThumbnailsDerive(env, st, st.files[job.fileId.value])
    ensures out.result == Done ==>
              var f := st.files[job.fileId.value];
              var lp := f.localPath.value;
              && out.state == st.(blobs := out.state.blobs)
              && out.state.blobs.Keys == st.blobs.Keys + {Variant(lp, "500"), Variant(lp, "250"), Variant(lp, "100")}
              && out.state.blobs[Variant(lp, "500")] == Thumbnail(env, st.blobs, f.localPath, 500).value
              && out.state.blobs[Variant(lp, "250")] == Thumbnail(env, st.blobs, f.localPath, 250).value
              && out.state.blobs[Variant(lp, "100")] == Thumbnail(env, st.blobs, f.localPath, 100).value
              && (forall k :: k in st.blobs && k != Variant(lp, "500") && k != Variant(lp, "250") && k != Variant(lp, "100")
                    ==> out.state.blobs[k] == st.blobs[k])
  {
    if job.fileId.None? then JobStep(Failed("Missing fileId"), st)
    else if job.userId.None? then JobStep(Failed("Missing userId"), st)
    else if job.fileId.value !in st.files then JobStep(Failed("File not found"), st)
    else
      var f := st.files[job.fileId.value];
      var t500 := Thumbnail(env, st.blobs, f.localPath, 500);
      var t250 := Thumbnail(env, st.blobs, f.localPath, 250);
      var t100 := Thumbnail(env, st.blobs, f.localPath, 100);
      if t500.None? || t250.None? || t100.None? then JobStep(Failed("Thumbnail generation failed"), st)
      else
        var lp := f.localPath.value;
        VariantsDistinct(lp);
        var blobs := st.blobs[Variant(lp, "500") := t500.value]
                             [Variant(lp, "250") := t250.value]
                             [Variant(lp, "100") := t100.value];
        JobStep(Done, st.(blobs := blobs))
  }

  /** The three thumbnail paths of one original are three different keys. */
  lemma VariantsDistinct(path: string)
    ensures Variant(path, "500") != Variant(path, "250")
    ensures Variant(path, "500") != Variant(path, "100")
    ensures Variant(path, "250") != Variant(path, "100")
  {
    assert Variant(path, "500")[|path| + 1] == '5';
    assert Variant(path, "250")[|path| + 1] == '2';
    assert Variant(path, "100")[|path| + 1] == '1';
  }

  /**
   * At-least-once delivery is harmless: processing a job a second time, on
   * the state the first run left, changes nothing more and reports the same.
   */
  lemma FileJobIdempotent(env: Env, st: State, job: FileJob)
    ensures var once := ProcessFileJob(env, st, job);
            ProcessFileJob(env, once.state, job) == once
  {
  }

  /**
   * A `userQueue` job: missing `userId` fails first, then an unknown user.
   * It succeeds exactly when the user exists, and changes no state.
   */
  function ProcessUserJob(st: State, job: UserJob): (r: JobResult)
    ensures job.userId.None? ==> r == Failed("Missing userId")
    ensures job.userId.Some? && job.userId.value !in st.users ==> r == Failed("User not found")
    ensures r == Done <==> job.userId.Some? && job.userId.value in st.users
  {
    if job.userId.None? then Failed("Missing userId")
    else if job.userId.value in st.users then Done
    else Failed("User not found")
  }
}
