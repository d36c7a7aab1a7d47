/**
 * The sign-in route (`POST /api/auth/signin`): check that both credentials
 * are present, sign in with the identity provider, and record `lastSeen` in
 * the user's document.
 *
 * The identity provider is an input: `account` is what signing in answered.
 */
module Signin {
  import opened Optional
  import opened Json
  import opened IsoDate

  /** What `signInWithEmailAndPassword` answers. */
  datatype Account = SignedIn(uid: string, email: Value, displayName: Value) | Failed(code: Value)

  /** The code with which the store refuses to update a document that does not exist. */
  const NotFound: Value := Str("not-found")

  /** The `switch (error.code)` after a failure: unknown codes fall through to 500. */
  function SigninError(code: Value): (r: Response)
    ensures r.status in {400, 401, 403, 404, 429, 500}
    ensures r.status == 404 <==> code == Str("auth/user-not-found")
    ensures r.status == 401 <==> code == Str("auth/wrong-password")
    ensures r.status == 400 <==> code == Str("auth/invalid-email")
    ensures r.status == 429 <==> code == Str("auth/too-many-requests")
    ensures r.status == 403 <==> code == Str("auth/user-disabled")
    ensures r.status == 500 <==> r == Error(500, "Failed to sign in")
  {
    if code == Str("auth/user-not-found") then Error(404, "No account found with this email")
    else if code == Str("auth/wrong-password") then Error(401, "Incorrect password")
    else if code == Str("auth/invalid-email") then Error(400, "Invalid email address")
    else if code == Str("auth/too-many-requests") then Error(429, "Too many failed attempts. Please try again later")
    else if code == Str("auth/user-disabled") then Error(403, "This account has been disabled")
    else Error(500, "Failed to sign in")
  }

  /** `POST /api/auth/signin` over the `users` collection. */
  function Signin(body: map<string, Value>, account: Account, users: map<string, Record>, now: Instant): (h: Handled)
  {
    if !Truthy(Get(body, "email")) || !Truthy(Get(body, "password")) then
      Handled(Error(400, "Email and password are required"), users)
    else match account
      case Failed(code) => Handled(SigninError(code), users)
      case SignedIn(uid, email, displayName) =>
        if uid !in users then Handled(SigninError(NotFound), users)
        else
          Handled(Success(map["user" := Obj(map["uid" := Str(uid), "email" := email, "displayName" := displayName])]),
                  users[uid := users[uid]["lastSeen" := Str(IsoString(now))]])
  }

  /** A request without both credentials is refused before the provider is asked. */
  lemma MissingCredentials(body: map<string, Value>, account: Account, users: map<string, Record>, now: Instant)
    requires !Truthy(Get(body, "email")) || !Truthy(Get(body, "password"))
    ensures Signin(body, account, users, now) == Handled(Error(400, "Email and password are required"), users)
  {
  }

  /**
   * A successful sign-in writes only `lastSeen`, only in the signed-in
   * user's document, and answers with exactly `uid`, `email` and
   * `displayName`.
   */
  lemma SuccessfulSignin(body: map<string, Value>, uid: string, email: Value, displayName: Value, users: map<string, Record>, now: Instant)
    requires Truthy(Get(body, "email")) && Truthy(Get(body, "password"))
    requires uid in users
    ensures var h := Signin(body, SignedIn(uid, email, displayName), users, now);
      && h.response.status == 200
      && h.response.body.fields["user"] == Obj(map["uid" := Str(uid), "email" := email, "displayName" := displayName])
      && h.store.Keys == users.Keys
      && (forall id :: id in users && id != uid ==> h.store[id] == users[id])
      && h.store[uid].Keys == users[uid].Keys + {"lastSeen"}
      && h.store[uid]["lastSeen"] == Str(IsoString(now))
      && (forall k :: k in users[uid] && k != "lastSeen" ==> h.store[uid][k] == users[uid][k])
  {
    var user := Obj(map["uid" := Str(uid), "email" := email, "displayName" := displayName]);
    var doc := users[uid]["lastSeen" := Str(IsoString(now))];
    assert Signin(body, SignedIn(uid, email, displayName), users, now) == Handled(Success(map["user" := user]), users[uid := doc]);
  }

  /** Every failure after the credential check leaves the store unchanged and answers with the mapped error. */
  lemma FailedSignin(body: map<string, Value>, account: Account, users: map<string, Record>, now: Instant)
    requires Truthy(Get(body, "email")) && Truthy(Get(body, "password"))
    requires account.Failed? || account.uid !in users
    ensures var h := Signin(body, account, users, now);
      && h.store == users
      && h.response == SigninError(if account.Failed? then account.code else NotFound)
      && (account.SignedIn? ==> h.response == Error(500, "Failed to sign in"))
  {
  }
}
