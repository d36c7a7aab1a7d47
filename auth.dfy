/**
 * The bearer-header gate shared by the calls, chat and profile routes
 * (`verifyAuth`). It only inspects the header's shape; the token itself is
 * never checked against the identity provider.
 */
module Auth {
  import opened Optional
  import opened Json
  import opened JsString

  const Prefix: string := "Bearer "

  /**
   * `verifyAuth(request)`: `header` is the `authorization` header, `None`
   * when the request has none. The token is the second piece of
   * `header.split('Bearer ')`: the text after the prefix up to the next
   * occurrence of the prefix, if any.
   */
  function VerifyAuth(header: Option<string>): (token: Option<string>)
    ensures token.Some? <==> header.Some? && header.value != "" && StartsWith(header.value, Prefix)
    ensures token.Some? ==>
      var rest := header.value[|Prefix|..];
      |token.value| <= |rest| && token.value == rest[..|token.value|]
      && (forall i :: 0 <= i < |token.value| ==> !OccursAt(rest, Prefix, i))
      && (|token.value| < |rest| ==> OccursAt(rest, Prefix, |token.value|))
  {
    if header.None? || header.value == "" || !StartsWith(header.value, Prefix) then
      None
    else
      Some(UntilSeparator(header.value[|Prefix|..], Prefix))
  }

  /** The check every guarded handler makes first: `if (!token)` rejects. */
  predicate Authenticated(header: Option<string>)
  {
    var token := VerifyAuth(header);
    token.Some? && token.value != ""
  }

  /** `{ error: 'Authentication required' }` with status 401 */
  const Unauthenticated: Response := Error(401, "Authentication required")

  /**
   * A request passes the gate exactly when its header starts with
   * `Bearer ` and something other than a second `Bearer ` follows.
   */
  lemma AuthenticatedIff(header: Option<string>)
    ensures Authenticated(header) <==>
      header.Some? && StartsWith(header.value, Prefix)
      && var rest := header.value[|Prefix|..]; rest != "" && !StartsWith(rest, Prefix)
  {
    if header.Some? && StartsWith(header.value, Prefix) {
      var rest := header.value[|Prefix|..];
      var token := UntilSeparator(rest, Prefix);
      assert StartsWith(rest, Prefix) <==> OccursAt(rest, Prefix, 0);
      if token == [] && rest != [] {
        assert OccursAt(rest, Prefix, 0);
      }
    }
  }

  /** A header `Bearer <t>` whose token holds no second prefix yields exactly `<t>`. */
  lemma BearerToken(t: string)
    requires t != "" && forall i :: 0 <= i <= |t| ==> !OccursAt(t, Prefix, i)
    ensures VerifyAuth(Some(Prefix + t)) == Some(t)
    ensures Authenticated(Some(Prefix + t))
  {
    var h := Prefix + t;
    assert StartsWith(h, Prefix);
    assert h[|Prefix|..] == t;
    var r := UntilSeparator(t, Prefix);
    assert r == t;
  }
}
