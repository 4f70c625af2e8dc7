/**
 * Logging in and out (`AuthController`). A login turns an HTTP Basic
 * credential into a fresh Redis session key `auth_<token>` that lives for 24
 * hours; a logout deletes that key.
 */
module Auth {
  import opened Wrappers
  import opened Strings
  import opened Store

  /** `Buffer.toString('ascii')`: each byte with its high bit cleared. */
  function Ascii(b: Bytes): (s: string)
    ensures |s| == |b|
    ensures forall i :: 0 <= i < |s| ==> s[i] as int < 128
    ensures forall i :: 0 <= i < |s| ==> s[i] as int == b[i] as int % 128
  {
    seq(|b|, i requires 0 <= i < |b| => (b[i] as int % 128) as char)
  }

  /**
   * The credential text of an `Authorization` header: its second
   * space-separated word, base64-decoded. None where the source throws
   * instead of answering: no header, or a header without a space.
   */
  function DecodedCredential(env: Env, header: Option<string>): (r: Option<string>)
    ensures r.Some? <==> header.Some? && ' ' in header.value
    ensures r.Some? ==> forall i :: 0 <= i < |r.value| ==> r.value[i] as int < 128
  {
    if header.None? then None
    else
      var words := Split(header.value, ' ');
      CountPositive(header.value, ' ');
      if |words| < 2 then None else Some(Ascii(env.base64(words[1])))
  }

  /**
   * No decoded credential holds a character at or above 128: text with such
   * a character can never be the credential a header carries.
   */
  lemma NonAsciiNeverDecoded(env: Env, header: Option<string>, s: string, i: nat)
    requires i < |s| && s[i] as int >= 128
    ensures DecodedCredential(env, header) != Some(s)
  {
  }

  /**
   * The decoded word is the one after the first space, up to the next space
   * or the end: for `Basic <base64>` it is the base64 part, whatever follows.
   */
  lemma DecodesSecondWord(env: Env, scheme: string, word: string, rest: string)
    requires ' ' !in scheme && ' ' !in word
    requires rest == [] || rest[0] == ' '
    ensures DecodedCredential(env, Some(scheme + [' '] + word + rest)) == Some(Ascii(env.base64(word)))
  {
    assert scheme + [' '] + word + rest == scheme + [' '] + (word + rest);
    SplitAtFirst(scheme, ' ', word + rest);
    if rest == [] {
      assert word + rest == word;
      SplitPlain(word, ' ');
    } else {
      assert word + rest == word + [' '] + rest[1..];
      SplitAtFirst(word, ' ', rest[1..]);
    }
  }

  predicate Matches(u: User, email: string, hash: string) {
    u.email == email && u.password == hash
  }

  /**
   * `cred` logs in as `uid`: it splits on ':' into exactly an email and a
   * password, and `uid`'s row holds that email and the SHA-1 of that password.
   */
  ghost predicate LogsInAs(env: Env, st: State, cred: string, uid: Id) {
    var data := Split(cred, ':');
    |data| == 2 && uid in st.users && Matches(st.users[uid], data[0], env.sha1(data[1]))
  }

  /** `findOne({email, password})`, walking ids `lo`..`hi`-1 in insertion order. */
  function FindUser(users: map<Id, User>, email: string, hash: string, lo: nat, hi: nat): (r: Option<Id>)
    decreases hi - lo
    ensures r.Some? ==> r.value in users && lo <= r.value < hi && Matches(users[r.value], email, hash)
    ensures r.None? ==> forall id :: lo <= id < hi && id in users ==> !Matches(users[id], email, hash)
  {
    if lo >= hi then None
    else if lo in users && Matches(users[lo], email, hash) then Some(lo)
    else FindUser(users, email, hash, lo + 1, hi)
  }

  /**
   * `GET /connect`. A credential that does not split into exactly two fields
   * is refused before any lookup, so a password containing ':' never logs in
   * (section 2 of RFC 7617 would split at the first colon only). An unknown
   * email and a wrong password are refused alike. Success adds one session
   * `auth_<uuid>` naming the user, with a 24-hour TTL, and changes nothing else.
   */
  function GetConnect(env: Env, st: State, authorization: Option<string>, uuid: string): (out: Step)
    ensures out.response.NoReply? <==> DecodedCredential(env, authorization).None?
    ensures out.response.Reply? ==> out.response == Unauthorized || out.response == Reply(200, Token(uuid))
    ensures !out.response.Is(200) ==> out.state == st
    ensures out.response.Is(200) ==>
              exists uid: Id :: LogsInAs(env, st, DecodedCredential(env, authorization).value, uid)
                            && out.state == st.(sessions := st.sessions[SessionKey(Some(uuid)) := Session(uid, SESSION_TTL)])
    ensures (&& DecodedCredential(env, authorization).Some?
             && exists uid: Id :: uid < st.nextId && LogsInAs(env, st, DecodedCredential(env, authorization).value, uid))
            ==> out.response.Is(200)
  {
    match DecodedCredential(env, authorization)
    case None => Step(NoReply, st)
    case Some(cred) =>
      var data := Split(cred, ':');
      if |data| != 2 then Step(Unauthorized, st)
      else
        match FindUser(st.users, data[0], env.sha1(data[1]), 0, st.nextId)
        case None => Step(Unauthorized, st)
        case Some(uid) =>
          var key := SessionKey(Some(uuid));
          Step(Reply(200, Token(uuid)), st.(sessions := st.sessions[key := Session(uid, SESSION_TTL)]))
  }

  /** The token a successful login hands out resolves to the user the credential names. */
  lemma LoginThenResolve(env: Env, st: State, authorization: Option<string>, uuid: string)
    requires GetConnect(env, st, authorization, uuid).response.Is(200)
    ensures var after := GetConnect(env, st, authorization, uuid).state;
            && Resolve(after, Some(uuid)).Some?
            && LogsInAs(env, st, DecodedCredential(env, authorization).value, Resolve(after, Some(uuid)).value)
            && CurrentUser(after, Some(uuid)) == Resolve(after, Some(uuid))
  {
  }

  /** A login leaves every other token's identity as it was: it writes only its own key. */
  lemma LoginKeepsOtherSessions(env: Env, st: State, authorization: Option<string>, uuid: string, other: string)
    requires other != uuid
    ensures var after := GetConnect(env, st, authorization, uuid).state;
            && Resolve(after, Some(other)) == Resolve(st, Some(other))
            && CurrentUser(after, Some(other)) == CurrentUser(st, Some(other))
  {
    if SessionKey(Some(other)) == SessionKey(Some(uuid)) {
      SessionKeyInjective(other, uuid);
    }
  }

  /**
   * `GET /disconnect`. A live session is deleted (204) and its token stops
   * resolving; every other key stays as it was. No live session: 401, nothing changes.
   */
  function GetDisconnect(st: State, token: Option<string>): (out: Step)
    ensures out.response.Is(204) <==> Resolve(st, token).Some?
    ensures !out.response.Is(204) ==> out == Step(Unauthorized, st)
    ensures Resolve(out.state, token).None?
    ensures out.state == st.(sessions := out.state.sessions)
    ensures out.state.sessions.Keys == st.sessions.Keys - {SessionKey(token)}
    ensures forall k :: k in out.state.sessions ==> out.state.sessions[k] == st.sessions[k]
  {
    var key := SessionKey(token);
    if key in st.sessions then
      Step(Reply(204, NoContent), st.(sessions := st.sessions - {key}))
    else
      Step(Unauthorized, st)
  }

  /** A token whose session was deleted or has expired identifies nobody. */
  lemma RevokedTokenIsAnonymous(st: State, token: Option<string>)
    ensures CurrentUser(GetDisconnect(st, token).state, token).None?
    ensures CurrentUser(Expire(st, SessionKey(token)), token).None?
  {
  }

  /** Logging out twice with one token: the second call is refused and changes nothing. */
  lemma LogoutTwice(st: State, token: Option<string>)
    ensures var first := GetDisconnect(st, token);
            GetDisconnect(first.state, token) == Step(Unauthorized, first.state)
  {
  }

  /**
   * Redis dropping a key whose TTL ran out. The expired token then behaves
   * like one never issued.
   */
  function Expire(st: State, key: string): (r: State)
    ensures key !in r.sessions
    ensures r == st.(sessions := r.sessions)
    ensures forall k :: k in st.sessions && k != key ==> k in r.sessions && r.sessions[k] == st.sessions[k]
    ensures forall k :: k in r.sessions ==> k in st.sessions
  {
    st.(sessions := st.sessions - {key})
  }
}
