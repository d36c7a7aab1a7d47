/**
 * The sign-up route (`POST /api/auth/signup`): validate the request, create
 * the account with the identity provider, and store the user's profile
 * document under the new `uid`.
 *
 * The identity provider is an input: `account` is what creating the
 * account answered, and `failure` is the error code, if any, with which
 * setting the display name or writing the profile document failed.
 */
module Signup {
  import opened Optional
  import opened Json
  import opened JsString
  import opened IsoDate

  /** What `createUserWithEmailAndPassword` answers. */
  datatype Account = Created(uid: string, email: Value) | Failed(code: Value)

  /** The guard chain ahead of the provider call: `None` when the request passes it. */
  function Validate(body: map<string, Value>): (r: Option<Response>)
    ensures r.Some? ==> r.value.status == 400
  {
    var email, password, username := Get(body, "email"), Get(body, "password"), Get(body, "username");
    if !Truthy(email) || !Truthy(password) || !Truthy(username) then
      Some(Error(400, "Email, password, and username are required"))
    else if ShorterThan(username, 3) then
      Some(Error(400, "Username must be at least 3 characters long"))
    else if ShorterThan(password, 6) then
      Some(Error(400, "Password must be at least 6 characters long"))
    else
      None
  }

  /** The `switch (error.code)` after a failure: unknown codes fall through to 500. */
  function SignupError(code: Value): (r: Response)
    ensures r.status in {400, 409, 500}
    ensures r.status == 409 <==> code == Str("auth/email-already-in-use")
    ensures r.status == 400 <==> code in {Str("auth/invalid-email"), Str("auth/weak-password")}
    ensures code !in KnownCodes ==> r == Error(500, "Failed to create account")
  {
    if code == Str("auth/email-already-in-use") then Error(409, "An account with this email already exists")
    else if code == Str("auth/invalid-email") then Error(400, "Invalid email address")
    else if code == Str("auth/weak-password") then Error(400, "Password is too weak")
    else if code == Str("auth/operation-not-allowed") then Error(500, "Email/password accounts are not enabled")
    else Error(500, "Failed to create account")
  }

  const KnownCodes: set<Value> :=
    {Str("auth/email-already-in-use"), Str("auth/invalid-email"), Str("auth/weak-password"), Str("auth/operation-not-allowed")}

  /** The profile document written for a new account. */
  function ProfileDoc(uid: string, email: Value, username: Value, stamp: Value): Record
  {
    map[
      "uid" := Str(uid),
      "email" := email,
      "username" := username,
      "createdAt" := stamp,
      "lastSeen" := stamp,
      "profile" := Obj(map[
        "bio" := Str(""),
        "avatar" := Str(""),
        "preferences" := Obj(map["notifications" := Bool(true), "privacy" := Str("public")])])]
  }

  /** `POST /api/auth/signup` over the `users` collection. */
  function Signup(body: map<string, Value>, account: Account, failure: Option<Value>, users: map<string, Record>, now: Instant): (h: Handled)
  {
    var check := Validate(body);
    if check.Some? then Handled(check.value, users)
    else match account
      case Failed(code) => Handled(SignupError(code), users)
      case Created(uid, providerEmail) =>
        if failure.Some? then Handled(SignupError(failure.value), users)
        else
          var username := Get(body, "username");
          Handled(Success(map["user" := Obj(map["uid" := Str(uid), "email" := providerEmail, "username" := username])]),
                  users[uid := ProfileDoc(uid, Get(body, "email"), username, Str(IsoString(now)))])
  }

  /**
   * A body whose three fields are strings passes validation exactly when all three are non-empty, the
   * username has at least 3 and the password at least 6 UTF-16 code units
   * (JavaScript's `length`); the missing-field check comes first and the
   * username check before the password check.
   */
  lemma ValidateStrings(body: map<string, Value>, email: string, password: string, username: string)
    requires Get(body, "email") == Str(email) && Get(body, "password") == Str(password) && Get(body, "username") == Str(username)
    ensures var r := Validate(body);
      && (r.None? <==> email != "" && Utf16Length(username) >= 3 && Utf16Length(password) >= 6)
      && (email == "" || password == "" || username == "" ==> r == Some(Error(400, "Email, password, and username are required")))
      && (email != "" && password != "" && username != "" && Utf16Length(username) < 3 ==>
            r == Some(Error(400, "Username must be at least 3 characters long")))
      && (email != "" && Utf16Length(username) >= 3 && password != "" && Utf16Length(password) < 6 ==>
            r == Some(Error(400, "Password must be at least 6 characters long")))
  {
    assert ShorterThan(Str(username), 3) <==> Utf16Length(username) < 3;
    assert ShorterThan(Str(password), 6) <==> Utf16Length(password) < 6;
  }

  lemma BodyFields(email: Value, password: Value, username: Value)
    ensures var body := map["email" := email, "password" := password, "username" := username];
      Get(body, "email") == email && Get(body, "password") == password && Get(body, "username") == username
  {
  }

  /**
   * Length is counted in UTF-16 code units: three characters beyond U+FFFF
   * make a long enough password, while three characters of plain text do not.
   */
  lemma AstralPassword(email: string, password: string, username: string)
    requires email != "" && |username| >= 3 && |password| == 3
    requires forall i :: 0 <= i < |password| ==> password[i] > '\U{FFFF}'
    ensures Validate(map["email" := Str(email), "password" := Str(password), "username" := Str(username)]).None?
  {
    var body := map["email" := Str(email), "password" := Str(password), "username" := Str(username)];
    BodyFields(Str(email), Str(password), Str(username));
    Utf16LengthAstral(password);
    ValidateStrings(body, email, password, username);
  }

  /**
   * A request that fails validation reaches neither the provider nor the
   * store, whatever the provider would have answered.
   */
  lemma RejectedRequestWritesNothing(body: map<string, Value>, account: Account, failure: Option<Value>, users: map<string, Record>, now: Instant)
    requires Validate(body).Some?
    ensures Signup(body, account, failure, users, now) == Handled(Validate(body).value, users)
  {
  }

  /**
   * A complete sign-up stores exactly one document, the profile under the
   * provider's `uid`, and answers with exactly `uid`, `email` and `username`.
   */
  lemma SuccessfulSignup(body: map<string, Value>, uid: string, email: Value, users: map<string, Record>, now: Instant)
    requires Validate(body).None?
    ensures var h := Signup(body, Created(uid, email), None, users, now);
      && h.response.status == 200
      && h.response.body.fields.Keys == {"success", "user"}
      && h.response.body.fields["user"].Obj? && h.response.body.fields["user"].fields.Keys == {"uid", "email", "username"}
      && h.store.Keys == users.Keys + {uid}
      && (forall id :: id in users && id != uid ==> h.store[id] == users[id])
      && h.store[uid] == ProfileDoc(uid, Get(body, "email"), Get(body, "username"), Str(IsoString(now)))
  {
    var user := Obj(map["uid" := Str(uid), "email" := email, "username" := Get(body, "username")]);
    var doc := ProfileDoc(uid, Get(body, "email"), Get(body, "username"), Str(IsoString(now)));
    assert Signup(body, Created(uid, email), None, users, now) == Handled(Success(map["user" := user]), users[uid := doc]);
  }

  /**
   * The profile document holds exactly `uid`, `email`, `username`, the two
   * timestamps and a `profile` with an empty bio and avatar and the default
   * preferences.
   */
  lemma ProfileDocShape(uid: string, email: Value, username: Value, stamp: Value)
    ensures var doc := ProfileDoc(uid, email, username, stamp);
      && doc.Keys == {"uid", "email", "username", "createdAt", "lastSeen", "profile"}
      && Get(doc, "uid") == Str(uid) && Get(doc, "email") == email && Get(doc, "username") == username
      && Get(doc, "createdAt") == stamp && Get(doc, "lastSeen") == stamp
      && Get(doc, "profile") == Obj(map["bio" := Str(""), "avatar" := Str(""),
           "preferences" := Obj(map["notifications" := Bool(true), "privacy" := Str("public")])])
  {
  }

  /** A failure anywhere after validation leaves the store as it was and answers with the mapped error. */
  lemma FailedSignup(body: map<string, Value>, account: Account, failure: Option<Value>, users: map<string, Record>, now: Instant)
    requires Validate(body).None?
    requires account.Failed? || failure.Some?
    ensures var h := Signup(body, account, failure, users, now);
      && h.store == users
      && h.response == SignupError(if account.Failed? then account.code else failure.value)
  {
  }
}
