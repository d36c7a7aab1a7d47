/**
 * The profile route (`/api/users/profile`): read a user's document without
 * its e-mail address, and update the whitelisted profile fields.
 *
 * The `users` collection is the map `UserStore.users`.
 */
module Profile {
  import opened Optional
  import opened Json
  import opened IsoDate
  import opened Auth

  /** `allowedFields`: the only keys an update may carry. */
  const AllowedFields: set<string> := {"username", "profile.bio", "profile.avatar", "profile.preferences"}

  /** The whitelisted keys that are paths into the `profile` map. */
  const ProfilePaths: set<string> := {"profile.bio", "profile.avatar", "profile.preferences"}

  /** `Object.entries(updates)` as a map: only an object has entries the whitelist can admit. */
  function Entries(updates: Value): map<string, Value>
  {
    if updates.Obj? then updates.fields else map[]
  }

  /** The user document as `GET` returns it: `delete userData.email`. */
  function Public(user: Record): (r: Record)
    ensures "email" !in r
    ensures forall k :: k in user && k != "email" ==> k in r && r[k] == user[k]
    ensures r.Keys <= user.Keys
  {
    user - {"email"}
  }

  /**
   * What `updateDoc` does with the update: top-level keys are merged, and
   * each dotted `profile.*` key sets that field of the `profile` map (a
   * `profile` that is not a map is replaced by one).
   */
  function ApplyUpdate(user: Record, write: Record): Record
  {
    var sub := ProfilePart(write);
    if sub == map[] then user + (write - ProfilePaths)
    else
      var profile := if Get(user, "profile").Obj? then Get(user, "profile").fields else map[];
      user + (write - ProfilePaths) + map["profile" := Obj(profile + sub)]
  }

  /** The nested `profile` fields a write sets, by their names inside `profile`. */
  function ProfilePart(write: Record): map<string, Value>
  {
    Nested(write, "bio") + Nested(write, "avatar") + Nested(write, "preferences")
  }

  /** The value the write gives to `profile.<name>`, as a one-entry map, or nothing. */
  function Nested(write: Record, name: string): map<string, Value>
  {
    if "profile." + name in write then map[name := write["profile." + name]] else map[]
  }

  class UserStore {
    var users: map<string, Record>

    constructor ()
      ensures users == map[]
    {
      users := map[];
    }

    /** `GET /api/users/profile?userId=…` */
    method Get(authHeader: Option<string>, userId: Option<string>) returns (r: Response)
      ensures !Authenticated(authHeader) ==> r == Unauthenticated
      ensures Authenticated(authHeader) && (userId.None? || userId.value == "") ==> r == Error(400, "User ID is required")
      ensures Authenticated(authHeader) && userId.Some? && userId.value != "" && userId.value !in users ==>
        r == Error(404, "User not found")
      ensures Authenticated(authHeader) && userId.Some? && userId.value != "" && userId.value in users ==>
        r == Success(map["user" := Obj(Public(users[userId.value]))])
    {
      if !Authenticated(authHeader) {
        return Unauthenticated;
      }
      if userId.None? || userId.value == "" {
        return Error(400, "User ID is required");
      }
      if userId.value !in users {
        return Error(404, "User not found");
      }
      return Success(map["user" := Obj(Public(users[userId.value]))]);
    }

    /** `PUT /api/users/profile` */
    method Put(authHeader: Option<string>, body: map<string, Value>, now: Instant) returns (r: Response)
      modifies this
      ensures !Authenticated(authHeader) ==> r == Unauthenticated && users == old(users)
      ensures Authenticated(authHeader) && !Truthy(Json.Get(body, "userId")) ==>
        r == Error(400, "User ID is required") && users == old(users)
      ensures Authenticated(authHeader) && Truthy(Json.Get(body, "userId")) ==>
        var userId, updates := Json.Get(body, "userId"), Json.Get(body, "updates");
        var valid := AllowedPart(Entries(updates));
        var write := valid + map["updatedAt" := Str(IsoString(now))];
        if updates.Undefined? || updates.Null? then
          r == Error(500, "Failed to update profile") && users == old(users)
        else if valid == map[] then
          r == Error(400, "No valid fields to update") && users == old(users)
        else if !userId.Str? || userId.s !in old(users) || !StorableRecord(write) then
          r == Error(500, "Failed to update profile") && users == old(users)
        else
          r == Success(map["message" := Str("Profile updated successfully")])
          && users == old(users)[userId.s := ApplyUpdate(old(users)[userId.s], write)]
    {
      if !Authenticated(authHeader) {
        return Unauthenticated;
      }
      var userId, updates := Json.Get(body, "userId"), Json.Get(body, "updates");
      if !Truthy(userId) {
        return Error(400, "User ID is required");
      }
      if updates.Undefined? || updates.Null? {
        return Error(500, "Failed to update profile");
      }
      var valid := ValidUpdates(Entries(updates));
      if valid == map[] {
        return Error(400, "No valid fields to update");
      }
      var write := valid + map["updatedAt" := Str(IsoString(now))];
      if !userId.Str? || userId.s !in users || !StorableRecord(write) {
        return Error(500, "Failed to update profile");
      }
      users := users[userId.s := ApplyUpdate(users[userId.s], write)];
      return Success(map["message" := Str("Profile updated successfully")]);
    }
  }

  /** The whitelisted part of an update. */
  function AllowedPart(updates: map<string, Value>): (valid: map<string, Value>)
    ensures valid.Keys == updates.Keys * AllowedFields
    ensures forall k :: k in valid ==> valid[k] == updates[k]
  {
    map k | k in updates && k in AllowedFields :: updates[k]
  }

  /** Filtering twice is filtering once, and an update that already passed the filter is kept whole. */
  lemma AllowedPartIdempotent(updates: map<string, Value>)
    ensures AllowedPart(AllowedPart(updates)) == AllowedPart(updates)
    ensures updates.Keys <= AllowedFields ==> AllowedPart(updates) == updates
  {
  }

  /** The loop over `Object.entries(updates)` that copies the whitelisted keys. */
  method ValidUpdates(updates: map<string, Value>) returns (valid: map<string, Value>)
    ensures valid == AllowedPart(updates)
  {
    valid := map[];
    var rest := updates.Keys;
    while rest != {}
      invariant rest <= updates.Keys
      invariant valid == map k | k in updates && k !in rest && k in AllowedFields :: updates[k]
      decreases |rest|
    {
      var key :| key in rest;
      if key in AllowedFields {
        valid := valid[key := updates[key]];
      }
      rest := rest - {key};
    }
  }

  /**
   * An accepted write cannot touch identity fields: every field other than
   * `username`, `profile` and `updatedAt` keeps its value, `uid`, `email`
   * and `createdAt` included, and `username` and `updatedAt` take the
   * written values.
   */
  lemma UpdateKeepsIdentity(user: Record, updates: map<string, Value>, now: Instant)
    ensures var write := AllowedPart(updates) + map["updatedAt" := Str(IsoString(now))];
      var after := ApplyUpdate(user, write);
      && (forall k :: k in user && k !in {"username", "profile", "updatedAt"} ==> k in after && after[k] == user[k])
      && after.Keys <= user.Keys + {"username", "profile", "updatedAt"}
      && Json.Get(after, "updatedAt") == Str(IsoString(now))
      && ("username" in updates ==> Json.Get(after, "username") == updates["username"])
      && ("username" !in updates ==> Json.Get(after, "username") == Json.Get(user, "username"))
  {
    var write := AllowedPart(updates) + map["updatedAt" := Str(IsoString(now))];
    assert write.Keys <= AllowedFields + {"updatedAt"};
    WriteShape(user, write, Str(IsoString(now)));
  }

  /** The top-level effect of a write whose keys are whitelisted or `updatedAt`. */
  lemma WriteShape(user: Record, write: Record, stamp: Value)
    requires write.Keys <= AllowedFields + {"updatedAt"}
    requires "updatedAt" in write && write["updatedAt"] == stamp
    ensures var after := ApplyUpdate(user, write);
      && (forall k :: k in user && k !in {"username", "profile", "updatedAt"} ==> k in after && after[k] == user[k])
      && after.Keys <= user.Keys + {"username", "profile", "updatedAt"}
      && Json.Get(after, "updatedAt") == stamp
      && Json.Get(after, "username") == (if "username" in write then write["username"] else Json.Get(user, "username"))
  {
    var top := write - ProfilePaths;
    assert top.Keys <= {"username", "updatedAt"};
  }

  /**
   * Inside `profile`, a write sets exactly the whitelisted nested fields it
   * names and keeps every other field of an existing profile map.
   */
  lemma ProfileFields(user: Record, write: Record)
    requires write.Keys <= AllowedFields + {"updatedAt"}
    requires Json.Get(user, "profile").Obj?
    ensures var before := Json.Get(user, "profile").fields;
      var after := Json.Get(ApplyUpdate(user, write), "profile");
      && after.Obj?
      && (forall n :: n in before && n !in {"bio", "avatar", "preferences"} ==> n in after.fields && after.fields[n] == before[n])
      && after.fields.Keys <= before.Keys + {"bio", "avatar", "preferences"}
      && ("profile.bio" in write ==> Json.Get(after.fields, "bio") == write["profile.bio"])
      && ("profile.bio" !in write ==> Json.Get(after.fields, "bio") == Json.Get(before, "bio"))
      && ("profile.avatar" in write ==> Json.Get(after.fields, "avatar") == write["profile.avatar"])
      && ("profile.avatar" !in write ==> Json.Get(after.fields, "avatar") == Json.Get(before, "avatar"))
      && ("profile.preferences" in write ==> Json.Get(after.fields, "preferences") == write["profile.preferences"])
      && ("profile.preferences" !in write ==> Json.Get(after.fields, "preferences") == Json.Get(before, "preferences"))
  {
    var before := Json.Get(user, "profile").fields;
    var sub := ProfilePart(write);
    assert sub.Keys <= {"bio", "avatar", "preferences"};
    assert "profile" !in write - ProfilePaths;
    assert "profile." + "bio" == "profile.bio";
    assert "profile." + "avatar" == "profile.avatar";
    assert "profile." + "preferences" == "profile.preferences";
    NestedPath(write, "bio");
    NestedPath(write, "avatar");
    NestedPath(write, "preferences");
    if sub != map[] {
      assert Json.Get(ApplyUpdate(user, write), "profile") == Obj(before + sub);
    }
  }

  lemma NestedPath(write: Record, name: string)
    requires name in {"bio", "avatar", "preferences"}
    ensures "profile." + name in write ==> name in ProfilePart(write) && ProfilePart(write)[name] == write["profile." + name]
    ensures "profile." + name !in write ==> name !in ProfilePart(write)
  {
  }
}
