/**
 * Registration and "who am I" (`UsersController`). Registration checks its
 * fields in a fixed order, keeps emails unique, stores only the password's
 * SHA-1 and queues one welcome job for the worker.
 */
module Users {
  import opened Wrappers
  import opened Store

  /** `findOne({email})` found a row. */
  predicate EmailTaken(users: map<Id, User>, email: string) {
    exists id :: id in users && users[id].email == email
  }

  /**
   * `POST /users`. Body fields are strings, "" standing for a missing (falsy)
   * field. Missing email is reported before missing password, and a known
   * email is refused; none of the three refusals changes anything. Otherwise
   * one row `{email, sha1(password)}` is added under a fresh id, 201 reports
   * that id, and exactly one `{userId}` job joins the user queue.
   */
  function PostNew(env: Env, st: State, email: string, password: string): (out: Step)
    ensures email == "" ==> out == Step(BadRequest("Missing email"), st)
    ensures email != "" && password == "" ==> out == Step(BadRequest("Missing password"), st)
    ensures email != "" && password != "" && EmailTaken(st.users, email) ==>
              out == Step(BadRequest("Already exist"), st)
    ensures out.response.Is(201) <==> email != "" && password != "" && !EmailTaken(st.users, email)
    ensures !out.response.Is(201) ==> out.state == st
    ensures out.response.Is(201) ==>
              && out.response.body.UserInfo?
              && out.response.body.email == email
              && var id := out.response.body.id;
              && out.state.users == st.users[id := User(email, env.sha1(password))]
              && out.state.userQueue == st.userQueue + [UserJob(Some(id))]
              && out.state == st.(users := out.state.users, userQueue := out.state.userQueue,
                                  nextId := out.state.nextId)
              && (Valid(st) ==> id !in st.users && EmailsUnique(out.state.users))
  {
    if email == "" then Step(BadRequest("Missing email"), st)
    else if password == "" then Step(BadRequest("Missing password"), st)
    else if EmailTaken(st.users, email) then Step(BadRequest("Already exist"), st)
    else
      var id := st.nextId;
      var st' := st.(users := st.users[id := User(email, env.sha1(password))],
                     userQueue := st.userQueue + [UserJob(Some(id))],
                     nextId := id + 1);
      Step(Reply(201, UserInfo(id, email)), st')
  }

  /**
   * `GET /users/me`: 200 with the caller's id and email exactly when the token
   * names a live session whose user row exists; 401 otherwise. Read-only.
   */
  function GetMe(st: State, token: Option<string>): (out: Step)
    ensures out.state == st
    ensures out.response.Is(200) <==> Resolve(st, token).Some? && Resolve(st, token).value in st.users
    ensures out.response.Is(200) ==>
              var uid := Resolve(st, token).value;
              out.response.body == UserInfo(uid, st.users[uid].email)
    ensures !out.response.Is(200) ==> out.response == Unauthorized
  {
    match CurrentUser(st, token)
    case None => Step(Unauthorized, st)
    case Some(uid) => Step(Reply(200, UserInfo(uid, st.users[uid].email)), st)
  }
}
