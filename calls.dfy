/**
 * The call-lifecycle route (`/api/calls`): call records move from
 * `waiting` (started) to `active` (someone joined) to `ended`, and carry
 * free-form notes and a rating.
 *
 * The document store's `calls` collection is the map `CallStore.calls`
 * from document id to record. `GET` only reads it; `POST` adds one record;
 * `PUT` merges the fields of one update into one record. The query engine
 * is outside the handlers: a query's answer is passed in as `snapshot`,
 * the ids of the matching documents in the store's order, and the lemmas
 * show that order exists and is unique.
 */
module Calls {
  import opened Optional
  import opened Json
  import opened JsString
  import opened IsoDate
  import opened Auth

  /** A query parameter counts when it is present and not empty. */
  predicate Present(p: Option<string>)
  {
    p.Some? && p.value != ""
  }

  /**
   * What the two `where` clauses select: `participants` contains the user
   * and `status` is `active` or `waiting`.
   */
  predicate IsOpenFor(call: Record, userId: Value)
  {
    && "participants" in call && call["participants"].Arr? && Contains(call["participants"].items, userId)
    && "status" in call && (call["status"] == Str("active") || call["status"] == Str("waiting"))
  }

  /** The ids of the calls still open for `userId`. */
  function OpenCallIds(calls: map<string, Record>, userId: Value): (ids: set<string>)
    ensures forall id :: id in ids <==> id in calls && IsOpenFor(calls[id], userId)
  {
    set id | id in calls && IsOpenFor(calls[id], userId)
  }

  /**
   * `ids` lists the members of `s` once each, in ascending id order (the
   * store's default order for a query without `orderBy`).
   */
  ghost predicate InIdOrder(ids: seq<string>, s: set<string>)
  {
    && (forall i :: 0 <= i < |ids| ==> ids[i] in s)
    && (forall id :: id in s ==> id in ids)
    && (forall i, j :: 0 <= i < j < |ids| ==> StrLt(ids[i], ids[j]))
  }

  /** There is only one way to list a set in ascending id order. */
  lemma {:induction false} InIdOrderUnique(a: seq<string>, b: seq<string>, s: set<string>)
    requires InIdOrder(a, s) && InIdOrder(b, s)
    ensures a == b
    decreases |a|
  {
    if a != [] && b != [] {
      assert a[0] == b[0] by {
        if a[0] != b[0] {
          var i :| 0 <= i < |b| && b[i] == a[0];
          var j :| 0 <= j < |a| && a[j] == b[0];
          assert i > 0 && j > 0;
          assert StrLt(b[0], a[0]) && StrLt(a[0], b[0]);
          StrLtTransitive(a[0], b[0], a[0]);
          StrLtIrreflexive(a[0]);
        }
      }
      var s' := s - {a[0]};
      forall id | id in s' ensures id in a[1..] {
        var k :| 0 <= k < |a| && a[k] == id;
        assert k != 0;
      }
      forall id | id in s' ensures id in b[1..] {
        var k :| 0 <= k < |b| && b[k] == id;
        assert k != 0;
      }
      forall i | 1 <= i < |a| ensures a[i] != a[0] {
        assert StrLt(a[0], a[i]);
        StrLtIrreflexive(a[0]);
      }
      forall i | 1 <= i < |b| ensures b[i] != b[0] {
        assert StrLt(b[0], b[i]);
        StrLtIrreflexive(b[0]);
      }
      InIdOrderUnique(a[1..], b[1..], s');
      assert a == [a[0]] + a[1..] && b == [b[0]] + b[1..];
    } else {
      EmptyListing(a, s);
      EmptyListing(b, s);
    }
  }

  /** Every finite set of ids can be listed in ascending order. */
  lemma {:induction false} IdOrderExists(s: set<string>)
    ensures exists ids :: InIdOrder(ids, s)
    decreases |s|
  {
    if s == {} {
      assert InIdOrder([], s);
    } else {
      LeastExists(s);
      var m :| IsLeast(m, s);
      IdOrderExists(s - {m});
      var rest :| InIdOrder(rest, s - {m});
      var ids := [m] + rest;
      forall i, j | 0 <= i < j < |ids| ensures StrLt(ids[i], ids[j]) {
        if i == 0 {
          assert ids[j] == rest[j - 1] && ids[j] in s - {m};
        } else {
          assert ids[i] == rest[i - 1] && ids[j] == rest[j - 1];
        }
      }
      forall id | id in s ensures id in ids {
        if id != m {
          assert id in rest;
        }
      }
      assert InIdOrder(ids, s);
    }
  }

  lemma EmptyListing(ids: seq<string>, s: set<string>)
    requires InIdOrder(ids, s)
    ensures ids == [] <==> s == {}
  {
    if ids != [] {
      assert ids[0] in s;
    }
  }

  /** Both `userId` and `username` are truthy. */
  predicate StartComplete(body: map<string, Value>)
  {
    Truthy(Get(body, "userId")) && Truthy(Get(body, "username"))
  }

  /** Both `callId` and `action` are truthy. */
  predicate UpdateComplete(body: map<string, Value>)
  {
    Truthy(Get(body, "callId")) && Truthy(Get(body, "action"))
  }

  /** `callType = 'support'`: the destructuring default replaces only `undefined`. */
  function CallTypeOrDefault(v: Value): Value
  {
    if v == Undefined then Str("support") else v
  }

  /** The record a successful start at `now` stores. */
  function NewCall(userId: Value, username: Value, callType: Value, now: Instant): Record
  {
    CallRecord(userId, username, callType, IsoString(now))
  }

  /** The record of a call started with the ISO time `stamp`. */
  function CallRecord(userId: Value, username: Value, callType: Value, stamp: string): Record
  {
    map[
      "participants" := Arr([userId]),
      "usernames" := Arr([username]),
      "status" := Str("waiting"),
      "callType" := CallTypeOrDefault(callType),
      "startTime" := Str(stamp),
      "endTime" := Null,
      "duration" := Num(0),
      "createdBy" := userId,
      "notes" := Str(""),
      "rating" := Null
    ]
  }

  /** The outcome of the `PUT` action switch. */
  datatype Update =
    | Write(fields: Record)   // the `updates` object handed to `updateDoc`
    | InvalidAction           // the `default` branch: 400
    | Throws                  // a TypeError inside the switch: 500

  /**
   * `new Date(v)` on a stored field, as a time value; `None` is an invalid
   * date. Strings are read in the form `toISOString` writes.
   */
  function DateValue(v: Value): Option<int>
  {
    match v
    case Str(s) => ParseIso(s)
    case Num(n) => if -MaxTime <= n <= MaxTime then Some(n) else None
    case Null => Some(0)
    case Bool(b) => Some(if b then 1 else 0)
    case _ => None
  }

  /** `case 'join'`: a newcomer is appended to both lists and the call becomes active. */
  function JoinUpdate(callData: Record, userId: Value, data: Value): Update
  {
    var participants := Get(callData, "participants");
    if !participants.Arr? then Throws
    else if Includes(participants.items, userId) then Write(map[])
    else
      var usernames := Get(callData, "usernames");
      var username := Member(data, "username");
      if !usernames.Arr? || username.None? then Throws
      else Write(map[
        "participants" := Arr(participants.items + [userId]),
        "usernames" := Arr(usernames.items + [username.value]),
        "status" := Str("active")])
  }

  /** `case 'end'`: the duration is the whole seconds since `startTime`, rounded down. */
  function EndUpdate(callData: Record, now: Instant): Update
  {
    Write(map[
      "status" := Str("ended"),
      "endTime" := Str(IsoString(now)),
      "duration" := Elapsed(DateValue(Get(callData, "startTime")), now)])
  }

  /** `Math.floor((endTime - startTime) / 1000)`; `NaN` for an invalid start. */
  function Elapsed(start: Option<int>, now: Instant): Value
  {
    match start
    case Some(t) => Num((now - t) / 1000)
    case None => NaN
  }

  /** `case 'update_notes'`: a falsy note is stored as the empty string. */
  function NotesUpdate(data: Value): Update
  {
    match Member(data, "notes")
    case None => Throws
    case Some(notes) => Write(map["notes" := Or(notes, Str(""))])
  }

  /** `case 'rate'`: the rating is stored as given. */
  function RateUpdate(data: Value): Update
  {
    match Member(data, "rating")
    case None => Throws
    case Some(rating) => Write(map["rating" := rating])
  }

  /** The `switch (action)` of `PUT`. */
  function ActionUpdate(action: Value, callData: Record, userId: Value, data: Value, now: Instant): Update
  {
    if action == Str("join") then JoinUpdate(callData, userId, data)
    else if action == Str("end") then EndUpdate(callData, now)
    else if action == Str("update_notes") then NotesUpdate(data)
    else if action == Str("rate") then RateUpdate(data)
    else InvalidAction
  }

  class CallStore {
    var calls: map<string, Record>

    constructor ()
      ensures calls == map[]
    {
      calls := map[];
    }

    /** The `forEach` over the query result: each call with its id, in the order returned. */
    method ListCalls(snapshot: seq<string>) returns (items: seq<Value>)
      requires forall i :: 0 <= i < |snapshot| ==> snapshot[i] in calls
      ensures items == Listing(snapshot, calls)
    {
      items := [];
      for i := 0 to |snapshot|
        invariant items == Listing(snapshot[..i], calls)
      {
        ListingSnoc(snapshot[..i], snapshot[i], calls);
        assert snapshot[..i + 1] == snapshot[..i] + [snapshot[i]];
        items := items + [WithId(snapshot[i], calls[snapshot[i]])];
      }
      assert snapshot[..|snapshot|] == snapshot;
    }

    /** `GET /api/calls?callId=…` or `?userId=…` */
    method Get(authHeader: Option<string>, callId: Option<string>, userId: Option<string>, snapshot: seq<string>)
      returns (r: Response)
      requires Present(userId) ==> InIdOrder(snapshot, OpenCallIds(calls, Str(userId.value)))
      ensures !Authenticated(authHeader) ==> r == Unauthenticated
      ensures Authenticated(authHeader) && Present(callId) && callId.value !in calls ==>
        r == Error(404, "Call not found")
      ensures Authenticated(authHeader) && Present(callId) && callId.value in calls ==>
        r == Success(map["call" := WithId(callId.value, calls[callId.value])])
      ensures Authenticated(authHeader) && !Present(callId) && Present(userId) ==>
        r == Success(map["calls" := Arr(Listing(snapshot, calls))])
      ensures Authenticated(authHeader) && !Present(callId) && !Present(userId) ==>
        r == Error(400, "Call ID or user ID is required")
    {
      if !Authenticated(authHeader) {
        return Unauthenticated;
      }
      if Present(callId) {
        if callId.value !in calls {
          return Error(404, "Call not found");
        }
        return Success(map["call" := WithId(callId.value, calls[callId.value])]);
      } else if Present(userId) {
        var items := ListCalls(snapshot);
        return Success(map["calls" := Arr(items)]);
      } else {
        return Error(400, "Call ID or user ID is required");
      }
    }

    /** `POST /api/calls`: start a call; `newId` is the id the store assigns. */
    method Post(authHeader: Option<string>, body: map<string, Value>, now: Instant, newId: string)
      returns (r: Response)
      requires newId !in calls
      modifies this
      ensures !Authenticated(authHeader) ==> r == Unauthenticated && calls == old(calls)
      ensures Authenticated(authHeader) && !StartComplete(body) ==>
        r == Error(400, "User ID and username are required") && calls == old(calls)
      ensures Authenticated(authHeader) && StartComplete(body) && OpenCallIds(old(calls), Json.Get(body, "userId")) != {} ==>
        r == Error(409, "You already have an active call") && calls == old(calls)
      ensures Authenticated(authHeader) && StartComplete(body) && OpenCallIds(old(calls), Json.Get(body, "userId")) == {} ==>
        var call := NewCall(Json.Get(body, "userId"), Json.Get(body, "username"), Json.Get(body, "callType"), now);
        if StorableRecord(call) then
          r == Success(map["call" := WithId(newId, call)]) && calls == old(calls)[newId := call]
        else
          r == Error(500, "Failed to start call") && calls == old(calls)
    {
      if !Authenticated(authHeader) {
        return Unauthenticated;
      }
      var userId, username, callType := Json.Get(body, "userId"), Json.Get(body, "username"), Json.Get(body, "callType");
      if !StartComplete(body) {
        return Error(400, "User ID and username are required");
      }
      if OpenCallIds(calls, userId) != {} {
        return Error(409, "You already have an active call");
      }
      var call := NewCall(userId, username, callType, now);
      if !StorableRecord(call) {
        return Error(500, "Failed to start call");
      }
      calls := calls[newId := call];
      return Success(map["call" := WithId(newId, call)]);
    }

    /** `PUT /api/calls`: apply one action to one call. */
    method Put(authHeader: Option<string>, body: map<string, Value>, now: Instant) returns (r: Response)
      modifies this
      ensures !Authenticated(authHeader) ==> r == Unauthenticated && calls == old(calls)
      ensures Authenticated(authHeader) && !UpdateComplete(body) ==>
        r == Error(400, "Call ID and action are required") && calls == old(calls)
      ensures Authenticated(authHeader) && UpdateComplete(body) && !Json.Get(body, "callId").Str? ==>
        r == Error(500, "Failed to update call") && calls == old(calls)
      ensures Authenticated(authHeader) && UpdateComplete(body) && Json.Get(body, "callId").Str? ==>
        var id := Json.Get(body, "callId").s;
        if id !in old(calls) then
          r == Error(404, "Call not found") && calls == old(calls)
        else match ActionUpdate(Json.Get(body, "action"), old(calls)[id], Json.Get(body, "userId"), Json.Get(body, "data"), now)
          case InvalidAction => r == Error(400, "Invalid action") && calls == old(calls)
          case Throws => r == Error(500, "Failed to update call") && calls == old(calls)
          case Write(fields) =>
            if StorableRecord(fields) then
              r == Success(map["message" := Str("Call updated successfully")])
              && calls == old(calls)[id := old(calls)[id] + fields]
            else
              r == Error(500, "Failed to update call") && calls == old(calls)
    {
      if !Authenticated(authHeader) {
        return Unauthenticated;
      }
      var callId, action := Json.Get(body, "callId"), Json.Get(body, "action");
      if !UpdateComplete(body) {
        return Error(400, "Call ID and action are required");
      }
      if !callId.Str? {
        return Error(500, "Failed to update call");
      }
      if callId.s !in calls {
        return Error(404, "Call not found");
      }
      var update := ActionUpdate(action, calls[callId.s], Json.Get(body, "userId"), Json.Get(body, "data"), now);
      match update {
        case InvalidAction =>
          return Error(400, "Invalid action");
        case Throws =>
          return Error(500, "Failed to update call");
        case Write(fields) =>
          if !StorableRecord(fields) {
            return Error(500, "Failed to update call");
          }
          calls := calls[callId.s := calls[callId.s] + fields];
          return Success(map["message" := Str("Call updated successfully")]);
      }
    }
  }

  /** The record after `updateDoc` merged `u` into it; `None` when nothing is written. */
  function Applied(callData: Record, u: Update): Option<Record>
  {
    if u.Write? then Some(callData + u.fields) else None
  }

  /**
   * A newcomer joining appends themselves to `participants` and their name
   * to `usernames` (so the two lists stay the same length), makes the call
   * active whatever its status was, and changes no other field.
   */
  lemma JoinByNewcomer(callData: Record, userId: Value, data: Value)
    requires Get(callData, "participants").Arr? && Get(callData, "usernames").Arr?
    requires !Includes(Get(callData, "participants").items, userId)
    requires data.Obj?
    ensures var c := Applied(callData, JoinUpdate(callData, userId, data));
      var parts := Get(callData, "participants").items;
      var names := Get(callData, "usernames").items;
      && c.Some?
      && Get(c.value, "participants") == Arr(parts + [userId])
      && Get(c.value, "usernames") == Arr(names + [Get(data.fields, "username")])
      && Get(c.value, "status") == Str("active")
      && (|parts| == |names| ==> |Get(c.value, "participants").items| == |Get(c.value, "usernames").items|)
      && c.value.Keys == callData.Keys + {"participants", "usernames", "status"}
      && (forall k :: k in callData && k !in {"participants", "usernames", "status"} ==> c.value[k] == callData[k])
  {
  }

  /** Joining a call one already takes part in writes nothing new. */
  lemma JoinByParticipant(callData: Record, userId: Value, data: Value)
    requires Get(callData, "participants").Arr?
    requires Includes(Get(callData, "participants").items, userId)
    ensures Applied(callData, JoinUpdate(callData, userId, data)) == Some(callData)
  {
    assert callData + map[] == callData;
  }

  /**
   * An object or array `userId` is never found by `includes`, so it is
   * appended even when an equal value is already listed; an array one then
   * nests an array inside `participants`, which the store refuses.
   */
  lemma JoinByUnmatchedId(callData: Record, userId: Value, data: Value)
    requires userId.Obj? || userId.Arr?
    requires Get(callData, "participants").Arr? && Get(callData, "usernames").Arr?
    requires data.Obj?
    ensures var u := JoinUpdate(callData, userId, data);
      && u.Write?
      && Get(u.fields, "participants") == Arr(Get(callData, "participants").items + [userId])
      && (userId.Arr? ==> !StorableRecord(u.fields))
  {
    var u := JoinUpdate(callData, userId, data);
    var parts := Get(callData, "participants").items;
    if userId.Arr? {
      assert (parts + [userId])[|parts|] == userId;
      assert !Storable(u.fields["participants"]);
    }
  }

  /** Joining without a readable `data.username`, or on a record without participant lists, fails. */
  lemma JoinThrows(callData: Record, userId: Value, data: Value)
    requires !Get(callData, "participants").Arr?
      || (!Includes(Get(callData, "participants").items, userId)
          && (!Get(callData, "usernames").Arr? || data.Undefined? || data.Null?))
    ensures JoinUpdate(callData, userId, data) == Throws
  {
  }

  /** Ending a call sets status, end time and duration and leaves every other field alone. */
  lemma EndFields(callData: Record, now: Instant)
    ensures var c := Applied(callData, EndUpdate(callData, now));
      && c.Some?
      && Get(c.value, "status") == Str("ended")
      && Get(c.value, "endTime") == Str(IsoString(now))
      && Get(c.value, "duration") == Elapsed(DateValue(Get(callData, "startTime")), now)
      && c.value.Keys == callData.Keys + {"status", "endTime", "duration"}
      && (forall k :: k in callData && k !in {"status", "endTime", "duration"} ==> c.value[k] == callData[k])
  {
  }

  /** `new Date(s)` on a stored string is the ISO reading of `s`. */
  lemma DateValueOfString(s: string)
    ensures DateValue(Str(s)) == ParseIso(s)
  {
  }

  /** A `startTime` written by `toISOString` reads back as the same instant. */
  lemma StartTimeReadsBack(start: Instant)
    ensures DateValue(Str(IsoString(start))) == Some(start)
  {
    IsoRoundTrip(start);
    DateValueOfString(IsoString(start));
  }

  /**
   * Ending a call whose `startTime` was written by the start handler at
   * `start` records the whole seconds elapsed, rounded down; never negative
   * when the clock has not gone backwards.
   */
  lemma EndDuration(callData: Record, start: Instant, now: Instant)
    requires Get(callData, "startTime") == Str(IsoString(start))
    ensures Elapsed(DateValue(Get(callData, "startTime")), now) == Num((now - start) / 1000)
    ensures start <= now ==> Elapsed(DateValue(Get(callData, "startTime")), now).n >= 0
  {
    StartTimeReadsBack(start);
    ElapsedSince(Get(callData, "startTime"), start, now);
  }

  lemma ElapsedSince(v: Value, start: Instant, now: Instant)
    requires DateValue(v) == Some(start)
    ensures Elapsed(DateValue(v), now) == Num((now - start) / 1000)
    ensures start <= now ==> Elapsed(DateValue(v), now).n >= 0
  {
  }

  /** A `startTime` that is not a date makes the duration `NaN`. */
  lemma EndWithoutStart(callData: Record, now: Instant)
    requires Get(callData, "startTime") == Undefined
    ensures Elapsed(DateValue(Get(callData, "startTime")), now) == NaN
  {
  }

  /**
   * Editing notes or rating writes exactly that one field; notes fall back to
   * the empty string when the new value is falsy.
   */
  lemma EditOneField(callData: Record, data: Value)
    requires data.Obj?
    ensures Applied(callData, NotesUpdate(data)) == Some(callData["notes" := Or(Get(data.fields, "notes"), Str(""))])
    ensures Applied(callData, RateUpdate(data)) == Some(callData["rating" := Get(data.fields, "rating")])
  {
    var notes := Or(Get(data.fields, "notes"), Str(""));
    assert callData + map["notes" := notes] == callData["notes" := notes];
    var rating := Get(data.fields, "rating");
    assert callData + map["rating" := rating] == callData["rating" := rating];
  }

  /** Only the four named actions are accepted. */
  lemma UnknownAction(action: Value, callData: Record, userId: Value, data: Value, now: Instant)
    requires action !in {Str("join"), Str("end"), Str("update_notes"), Str("rate")}
    ensures ActionUpdate(action, callData, userId, data, now) == InvalidAction
  {
  }

  /**
   * After a successful start, the new call is the only call open for its
   * creator: starting is where the one-open-call rule is kept.
   */
  lemma StartLeavesOneOpenCall(calls: map<string, Record>, newId: string, userId: Value, username: Value, callType: Value, now: Instant)
    requires newId !in calls
    requires OpenCallIds(calls, userId) == {}
    ensures OpenCallIds(calls[newId := NewCall(userId, username, callType, now)], userId) == {newId}
  {
    var call := NewCall(userId, username, callType, now);
    NewCallFields(userId, username, callType, now);
    assert Contains(Get(call, "participants").items, userId);
    InsertOpenCall(calls, newId, call, userId);
  }

  /** Adding a call open for `userId` beside no other open call leaves exactly that one open. */
  lemma InsertOpenCall(calls: map<string, Record>, newId: string, call: Record, userId: Value)
    requires newId !in calls && OpenCallIds(calls, userId) == {}
    requires IsOpenFor(call, userId)
    ensures OpenCallIds(calls[newId := call], userId) == {newId}
  {
    var after := OpenCallIds(calls[newId := call], userId);
    assert newId in after;
    forall id | id in after
      ensures id == newId
    {
      assert id == newId || id in OpenCallIds(calls, userId);
    }
  }

  /**
   * What a fresh call looks like: its creator alone in both lists, waiting,
   * of the requested type or `support`, started at `now`, not ended, with
   * no duration, notes or rating yet.
   */
  lemma NewCallFields(userId: Value, username: Value, callType: Value, now: Instant)
    ensures var c := NewCall(userId, username, callType, now);
      && Get(c, "startTime") == Str(IsoString(now))
      && CallShape(c, userId, username, callType)
  {
    CallRecordFields(userId, username, callType, IsoString(now));
  }

  /** The fields of a fresh call other than its start time. */
  predicate CallShape(c: Record, userId: Value, username: Value, callType: Value)
  {
    && c.Keys == {"participants", "usernames", "status", "callType", "startTime", "endTime", "duration", "createdBy", "notes", "rating"}
    && Get(c, "participants") == Arr([userId])
    && Get(c, "usernames") == Arr([username])
    && Get(c, "status") == Str("waiting")
    && Get(c, "callType") == (if callType == Undefined then Str("support") else callType)
    && Get(c, "endTime") == Null
    && Get(c, "duration") == Num(0)
    && Get(c, "createdBy") == userId
    && Get(c, "notes") == Str("")
    && Get(c, "rating") == Null
  }

  lemma CallRecordFields(userId: Value, username: Value, callType: Value, stamp: string)
    ensures Get(CallRecord(userId, username, callType, stamp), "startTime") == Str(stamp)
    ensures CallShape(CallRecord(userId, username, callType, stamp), userId, username, callType)
  {
  }

  /**
   * A second user joining a fresh call: both are listed, in order, and the
   * call is active with its start time untouched.
   */
  lemma StartThenJoin(creator: Value, name: Value, callType: Value, t0: Instant, joiner: Value, joinerName: Value)
    requires creator != joiner
    ensures var started := NewCall(creator, name, callType, t0);
      var joined := Applied(started, JoinUpdate(started, joiner, Obj(map["username" := joinerName])));
      && joined.Some?
      && Get(joined.value, "status") == Str("active")
      && Get(joined.value, "participants") == Arr([creator, joiner])
      && Get(joined.value, "usernames") == Arr([name, joinerName])
      && Get(joined.value, "startTime") == Str(IsoString(t0))
  {
    NewCallFields(creator, name, callType, t0);
    JoinFresh(NewCall(creator, name, callType, t0), creator, name, callType, joiner, joinerName);
  }

  lemma JoinFresh(started: Record, creator: Value, name: Value, callType: Value, joiner: Value, joinerName: Value)
    requires creator != joiner
    requires CallShape(started, creator, name, callType)
    ensures var joined := Applied(started, JoinUpdate(started, joiner, Obj(map["username" := joinerName])));
      && joined.Some?
      && Get(joined.value, "status") == Str("active")
      && Get(joined.value, "participants") == Arr([creator, joiner])
      && Get(joined.value, "usernames") == Arr([name, joinerName])
      && Get(joined.value, "startTime") == Get(started, "startTime")
  {
    var data := Obj(map["username" := joinerName]);
    JoinByNewcomer(started, joiner, data);
    assert [creator] + [joiner] == [creator, joiner];
    assert [name] + [joinerName] == [name, joinerName];
  }

  /**
   * A whole lifecycle: started at `t0`, joined, ended at `t1`; the ended
   * call still lists both users and lasts `(t1 - t0) / 1000` seconds.
   */
  lemma Lifecycle(joined: Record, creator: Value, name: Value, callType: Value, t0: Instant, joiner: Value, joinerName: Value, t1: Instant)
    requires creator != joiner
    requires var started := NewCall(creator, name, callType, t0);
      Applied(started, JoinUpdate(started, joiner, Obj(map["username" := joinerName]))) == Some(joined)
    ensures var ended := Applied(joined, EndUpdate(joined, t1));
      && ended.Some?
      && Get(ended.value, "status") == Str("ended")
      && Get(ended.value, "participants") == Arr([creator, joiner])
      && Get(ended.value, "usernames") == Arr([name, joinerName])
      && Get(ended.value, "duration") == Num((t1 - t0) / 1000)
  {
    StartThenJoin(creator, name, callType, t0, joiner, joinerName);
    EndFields(joined, t1);
    EndDuration(joined, t0, t1);
  }

  /**
   * Joining does not look at the joiner's other calls: a user with an open
   * call `a` who joins another call `b` then has both open.
   */
  lemma JoinIgnoresOtherCalls(calls: map<string, Record>, a: string, b: string, userId: Value, data: Value)
    requires a in calls && b in calls && a != b
    requires IsOpenFor(calls[a], userId)
    requires Get(calls[b], "participants").Arr? && Get(calls[b], "usernames").Arr?
    requires !Includes(Get(calls[b], "participants").items, userId)
    requires data.Obj?
    ensures var joined := Applied(calls[b], JoinUpdate(calls[b], userId, data));
      && joined.Some?
      && {a, b} <= OpenCallIds(calls[b := joined.value], userId)
  {
    JoinByNewcomer(calls[b], userId, data);
    var joined := Applied(calls[b], JoinUpdate(calls[b], userId, data)).value;
    var parts := Get(calls[b], "participants").items;
    assert joined["participants"].items == parts + [userId];
    assert (parts + [userId])[|parts|] == userId;
    assert IsOpenFor(joined, userId);
  }

  /** Joining an ended call makes it active again: nothing keeps the status moving forward. */
  lemma JoinReopensEndedCall(callData: Record, userId: Value, data: Value)
    requires Get(callData, "status") == Str("ended")
    requires Get(callData, "participants").Arr? && Get(callData, "usernames").Arr?
    requires !Includes(Get(callData, "participants").items, userId)
    requires data.Obj?
    ensures var c := Applied(callData, JoinUpdate(callData, userId, data));
      c.Some? && Get(c.value, "status") == Str("active")
  {
    JoinByNewcomer(callData, userId, data);
  }
}
