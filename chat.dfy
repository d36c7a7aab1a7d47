/**
 * The community-chat route (`/api/chat/messages`): list the most recent
 * messages in chronological order, post a message, like and unlike one.
 *
 * The `messages` collection is the map `MessageStore.messages`. As for
 * calls, the answer of the ordered query is passed in as `snapshot`; the
 * lemmas show the answer the store must give exists and is unique.
 */
module ChatMessages {
  import opened Optional
  import opened Json
  import opened JsString
  import opened IsoDate
  import opened Auth

  const DefaultLimit: int := 50

  /** `parseInt(searchParams.get('limit')) || 50`: a missing, unreadable or zero limit is 50. */
  function EffectiveLimit(param: Option<string>): int
  {
    match (if param.None? then None else ParseInt(param.value))
    case None => DefaultLimit
    case Some(v) => if v == 0 then DefaultLimit else v
  }

  /** A positive limit written in decimal is read as written. */
  lemma {:induction false} LimitDecimal(n: nat)
    requires n > 0
    ensures EffectiveLimit(Some(DecimalString(n))) == n
  {
    ParseIntDecimal(n);
    LimitOfNumber(DecimalString(n), n);
  }

  /** A negative limit is read as written too: nothing clamps it. */
  lemma {:induction false} LimitNegative(n: nat)
    requires n > 0
    ensures var v: int := n; EffectiveLimit(Some("-" + DecimalString(n))) == -v
  {
    var v: int := n;
    ParseIntNegative(n);
    LimitOfNumber("-" + DecimalString(n), -v);
  }

  lemma LimitOfNumber(s: string, v: int)
    requires ParseInt(s) == Some(v) && v != 0
    ensures EffectiveLimit(Some(s)) == v
  {
  }

  /** No limit, a limit without digits and a zero limit all mean 50. */
  lemma LimitFallback(s: string)
    requires forall i :: 0 <= i < |s| ==> DigitValue(s[i]) >= 10
    ensures EffectiveLimit(None) == DefaultLimit
    ensures EffectiveLimit(Some(s)) == DefaultLimit
    ensures EffectiveLimit(Some(DecimalString(0))) == DefaultLimit
  {
    ParseIntNoDigits(s);
    ParseIntDecimal(0);
  }

  // ---------------------------------------------------------------------
  // The order of `orderBy('timestamp', 'desc')`

  /** The `timestamp` text of a stored message; messages written by `POST` always have one. */
  function Stamp(messages: map<string, Record>, id: string): string
  {
    if id in messages && Get(messages[id], "timestamp").Str? then Get(messages[id], "timestamp").s else ""
  }

  /**
   * `a` comes before `b` in descending timestamp order: a later timestamp,
   * or the same timestamp and the greater document id.
   */
  predicate Newer(messages: map<string, Record>, a: string, b: string)
  {
    StrLt(Stamp(messages, b), Stamp(messages, a))
    || (Stamp(messages, a) == Stamp(messages, b) && StrLt(b, a))
  }

  lemma NewerIrreflexive(messages: map<string, Record>, a: string)
    ensures !Newer(messages, a, a)
  {
    StrLtIrreflexive(a);
    StrLtIrreflexive(Stamp(messages, a));
  }

  lemma NewerTransitive(messages: map<string, Record>, a: string, b: string, c: string)
    requires Newer(messages, a, b) && Newer(messages, b, c)
    ensures Newer(messages, a, c)
  {
    var sa, sb, sc := Stamp(messages, a), Stamp(messages, b), Stamp(messages, c);
    if StrLt(sb, sa) && StrLt(sc, sb) {
      StrLtTransitive(sc, sb, sa);
    } else if sa == sb && sb == sc {
      StrLtTransitive(c, b, a);
    }
  }

  lemma NewerTotal(messages: map<string, Record>, a: string, b: string)
    requires a != b
    ensures Newer(messages, a, b) || Newer(messages, b, a)
  {
    var sa, sb := Stamp(messages, a), Stamp(messages, b);
    if sa != sb {
      StrLtTotal(sa, sb);
    } else {
      StrLtTotal(a, b);
    }
  }

  predicate IsNewest(messages: map<string, Record>, id: string, s: set<string>)
  {
    id in s && forall x :: x in s && x != id ==> Newer(messages, id, x)
  }

  lemma {:induction false} NewestExists(messages: map<string, Record>, s: set<string>)
    requires s != {}
    ensures exists id :: IsNewest(messages, id, s)
    decreases |s|
  {
    var x :| x in s;
    if s == {x} {
      assert IsNewest(messages, x, s);
    } else {
      NewestExists(messages, s - {x});
      var m :| IsNewest(messages, m, s - {x});
      if Newer(messages, m, x) {
        assert IsNewest(messages, m, s);
      } else {
        NewerTotal(messages, m, x);
        forall y | y in s && y != x ensures Newer(messages, x, y) {
          if y != m { NewerTransitive(messages, x, m, y); }
        }
        assert IsNewest(messages, x, s);
      }
    }
  }

  function Min(a: int, b: int): int
  {
    if a <= b then a else b
  }

  /**
   * The answer of `orderBy('timestamp', 'desc'), limit(limit)` over the ids
   * in `s`: the `limit` newest of them, newest first.
   */
  ghost predicate NewestFirst(ids: seq<string>, messages: map<string, Record>, s: set<string>, limit: nat)
  {
    && |ids| == Min(limit, |s|)
    && (forall i :: 0 <= i < |ids| ==> ids[i] in s)
    && (forall i, j :: 0 <= i < j < |ids| ==> Newer(messages, ids[i], ids[j]))
    && (forall i, id :: 0 <= i < |ids| && id in s && id !in ids ==> Newer(messages, ids[i], id))
  }

  /** The store always has an answer to give. */
  lemma {:induction false} NewestFirstExists(messages: map<string, Record>, s: set<string>, limit: nat)
    ensures exists ids :: NewestFirst(ids, messages, s, limit)
    decreases limit
  {
    if limit == 0 || s == {} {
      assert NewestFirst([], messages, s, limit);
    } else {
      NewestExists(messages, s);
      var m :| IsNewest(messages, m, s);
      NewestFirstExists(messages, s - {m}, limit - 1);
      var rest :| NewestFirst(rest, messages, s - {m}, limit - 1);
      var ids := [m] + rest;
      forall i, j | 0 <= i < j < |ids| ensures Newer(messages, ids[i], ids[j]) {
        if i > 0 {
          assert ids[i] == rest[i - 1] && ids[j] == rest[j - 1];
        } else {
          assert ids[j] == rest[j - 1] && ids[j] in s - {m};
        }
      }
      forall i, id | 0 <= i < |ids| && id in s && id !in ids ensures Newer(messages, ids[i], id) {
        if i > 0 {
          assert ids[i] == rest[i - 1];
          assert id in s - {m} && id !in rest;
        }
      }
      assert |s - {m}| == |s| - 1;
      assert NewestFirst(ids, messages, s, limit);
    }
  }

  /** The store's answer is unique: two answers to the same query are equal. */
  lemma {:induction false} NewestFirstUnique(a: seq<string>, b: seq<string>, messages: map<string, Record>, s: set<string>, limit: nat)
    requires NewestFirst(a, messages, s, limit) && NewestFirst(b, messages, s, limit)
    ensures a == b
    decreases limit
  {
    if a != [] {
      assert b != [];
      assert a[0] == b[0] by {
        if a[0] != b[0] {
          assert Newer(messages, a[0], b[0]) by {
            if b[0] in a {
              var k :| 0 <= k < |a| && a[k] == b[0];
              assert k > 0;
            }
          }
          assert Newer(messages, b[0], a[0]) by {
            if a[0] in b {
              var k :| 0 <= k < |b| && b[k] == a[0];
              assert k > 0;
            }
          }
          NewerTransitive(messages, a[0], b[0], a[0]);
          NewerIrreflexive(messages, a[0]);
        }
      }
      var m := a[0];
      var s' := s - {m};
      forall i | 1 <= i < |a| ensures a[i] != m {
        NewerIrreflexive(messages, m);
      }
      forall i | 1 <= i < |b| ensures b[i] != m {
        NewerIrreflexive(messages, m);
      }
      assert |s'| == |s| - 1;
      forall i, id | 0 <= i < |a[1..]| && id in s' && id !in a[1..] ensures Newer(messages, a[1..][i], id) {
        assert a[1..][i] == a[i + 1];
        assert id !in a;
      }
      forall i, id | 0 <= i < |b[1..]| && id in s' && id !in b[1..] ensures Newer(messages, b[1..][i], id) {
        assert b[1..][i] == b[i + 1];
        assert id !in b;
      }
      assert NewestFirst(a[1..], messages, s', limit - 1);
      assert NewestFirst(b[1..], messages, s', limit - 1);
      NewestFirstUnique(a[1..], b[1..], messages, s', limit - 1);
      assert a == [a[0]] + a[1..] && b == [b[0]] + b[1..];
    } else {
      assert |b| == |a|;
    }
  }

  /** `messages.reverse()` as a value: the same items, last first. */
  function Reversed<T>(s: seq<T>): (r: seq<T>)
    ensures |r| == |s|
    ensures forall i :: 0 <= i < |s| ==> r[i] == s[|s| - 1 - i]
  {
    if s == [] then [] else [s[|s| - 1]] + Reversed(s[..|s| - 1])
  }

  /**
   * Reversing the newest-first answer gives chronological order: oldest
   * first, timestamps never decreasing.
   */
  lemma Chronological(ids: seq<string>, messages: map<string, Record>, s: set<string>, limit: nat)
    requires NewestFirst(ids, messages, s, limit)
    ensures var r := Reversed(ids);
      forall i, j :: 0 <= i < j < |r| ==>
        Newer(messages, r[j], r[i]) && (Stamp(messages, r[i]) == Stamp(messages, r[j]) || StrLt(Stamp(messages, r[i]), Stamp(messages, r[j])))
  {
  }

  // ---------------------------------------------------------------------
  // Store updates

  /** `increment(d)`: added to a number; a missing or non-numeric field becomes `d`. */
  function Increment(v: Value, d: int): Value
  {
    match v
    case Num(n) => Num(n + d)
    case NaN => NaN
    case _ => Num(d)
  }

  /**
   * `arrayUnion(x)`: appended unless already present; a non-array field
   * becomes `[x]`. Every earlier element stays, in its place.
   */
  function ArrayUnion(v: Value, x: Value): (r: Value)
    ensures r.Arr? && Contains(r.items, x)
    ensures forall y :: Contains(r.items, y) <==> y == x || (v.Arr? && Contains(v.items, y))
    ensures v.Arr? ==> |v.items| <= |r.items| && r.items[..|v.items|] == v.items
    ensures v.Arr? && Contains(v.items, x) ==> r == v
  {
    if v.Arr? then (if Contains(v.items, x) then v else Arr(v.items + [x])) else Arr([x])
  }

  /** Every copy of `x` left out. */
  function Without(items: seq<Value>, x: Value): (r: seq<Value>)
    ensures !Contains(r, x)
    ensures |r| <= |items|
  {
    if items == [] then []
    else if items[|items| - 1] == x then Without(items[..|items| - 1], x)
    else Without(items[..|items| - 1], x) + [items[|items| - 1]]
  }

  /** Removing `x` keeps every other value that was there and adds none. */
  lemma {:induction false} WithoutKeeps(items: seq<Value>, x: Value, y: Value)
    requires y != x
    ensures Contains(Without(items, x), y) <==> Contains(items, y)
    decreases |items|
  {
    if items != [] {
      var init, last := items[..|items| - 1], items[|items| - 1];
      assert items == init + [last];
      WithoutKeeps(init, x, y);
    }
  }

  /** `arrayRemove(x)`: every copy removed; a non-array field becomes `[]`. */
  function ArrayRemove(v: Value, x: Value): (r: Value)
    ensures r.Arr? && !Contains(r.items, x)
  {
    if v.Arr? then Arr(Without(v.items, x)) else Arr([])
  }

  /** An array element the store accepts in `arrayUnion` and `arrayRemove`. */
  predicate Element(v: Value)
  {
    Storable(v) && !v.Arr?
  }

  /** The fields `like` writes. */
  function Like(message: Record, userId: Value): Record
  {
    map["likes" := Increment(Get(message, "likes"), 1), "likedBy" := ArrayUnion(Get(message, "likedBy"), userId)]
  }

  /** The fields `unlike` writes. */
  function Unlike(message: Record, userId: Value): Record
  {
    map["likes" := Increment(Get(message, "likes"), -1), "likedBy" := ArrayRemove(Get(message, "likedBy"), userId)]
  }

  /** The record a successful post stores: `trimmed` is the posted text after `trim`, `stamp` the ISO time. */
  function NewMessage(trimmed: string, sender: Value, replyTo: Value, stamp: string): Record
  {
    map[
      "text" := Str(trimmed),
      "sender" := sender,
      "timestamp" := Str(stamp),
      "likes" := Num(0),
      "likedBy" := Arr([]),
      "replies" := Arr([]),
      "replyTo" := Or(replyTo, Null)
    ]
  }

  /** A new message carries its posting time as text. */
  lemma NewMessageStamped(text: string, sender: Value, replyTo: Value, stamp: string)
    ensures Get(NewMessage(text, sender, replyTo, stamp), "timestamp") == Str(stamp)
  {
  }

  predicate AllStamped(messages: map<string, Record>)
  {
    forall id :: id in messages ==> Get(messages[id], "timestamp").Str?
  }

  /** Adding a stamped message keeps every message stamped. */
  lemma StampedInsert(messages: map<string, Record>, id: string, message: Record)
    requires AllStamped(messages) && Get(message, "timestamp").Str?
    ensures AllStamped(messages[id := message])
  {
  }

  /**
   * A new message starts with no likes, likers or replies, and its text is
   * already trimmed: empty exactly when the posted text was all whitespace.
   */
  lemma NewMessageFields(text: string, sender: Value, replyTo: Value, stamp: string)
    ensures var m := NewMessage(Trim(text), sender, replyTo, stamp);
      && Get(m, "text").Str? && Trim(Get(m, "text").s) == Get(m, "text").s
      && (Get(m, "text").s == "" <==> AllWhitespace(text))
      && NewMessageShape(m, sender, replyTo)
  {
    TrimIdempotent(text);
    TrimEmptyIff(text);
    NewMessageText(Trim(text), sender, replyTo, stamp);
  }

  /** The fields of a new message other than its text and time. */
  predicate NewMessageShape(m: Record, sender: Value, replyTo: Value)
  {
    && m.Keys == {"text", "sender", "timestamp", "likes", "likedBy", "replies", "replyTo"}
    && Get(m, "sender") == sender
    && Get(m, "likes") == Num(0) && Get(m, "likedBy") == Arr([]) && Get(m, "replies") == Arr([])
    && Get(m, "replyTo") == (if Truthy(replyTo) then replyTo else Null)
  }

  lemma NewMessageText(t: string, sender: Value, replyTo: Value, stamp: string)
    ensures Get(NewMessage(t, sender, replyTo, stamp), "text") == Str(t)
    ensures NewMessageShape(NewMessage(t, sender, replyTo, stamp), sender, replyTo)
  {
  }

  /** Messages, `messageId`, `action` and `userId` all truthy. */
  predicate UpdateComplete(body: map<string, Value>)
  {
    Truthy(Get(body, "messageId")) && Truthy(Get(body, "action")) && Truthy(Get(body, "userId"))
  }

  class MessageStore {
    var messages: map<string, Record>

    /** Every message has a textual `timestamp`, the field the listing orders by. */
    predicate Valid()
      reads this
    {
      AllStamped(messages)
    }

    constructor ()
      ensures messages == map[] && Valid()
    {
      messages := map[];
    }

    /** The `forEach` over the query result, then `messages.reverse()` in place. */
    method ListMessages(snapshot: seq<string>) returns (list: array<Value>)
      requires forall i :: 0 <= i < |snapshot| ==> snapshot[i] in messages
      ensures fresh(list)
      ensures list[..] == Reversed(Listing(snapshot, messages))
    {
      var pushed: seq<Value> := [];
      for i := 0 to |snapshot|
        invariant pushed == Listing(snapshot[..i], messages)
      {
        ListingSnoc(snapshot[..i], snapshot[i], messages);
        assert snapshot[..i + 1] == snapshot[..i] + [snapshot[i]];
        pushed := pushed + [WithId(snapshot[i], messages[snapshot[i]])];
      }
      assert snapshot[..|snapshot|] == snapshot;
      list := new Value[|pushed|](i requires 0 <= i < |pushed| => pushed[i]);
      assert list[..] == pushed;
      Reverse(list);
    }

    /** `GET /api/chat/messages?limit=…` */
    method Get(authHeader: Option<string>, limitParam: Option<string>, snapshot: seq<string>) returns (r: Response)
      requires Valid()
      requires EffectiveLimit(limitParam) > 0 ==>
        NewestFirst(snapshot, messages, messages.Keys, EffectiveLimit(limitParam))
      ensures !Authenticated(authHeader) ==> r == Unauthenticated
      ensures Authenticated(authHeader) && EffectiveLimit(limitParam) < 0 ==> r == Error(500, "Failed to get messages")
      ensures Authenticated(authHeader) && EffectiveLimit(limitParam) > 0 ==>
        r == Success(map["messages" := Arr(Reversed(Listing(snapshot, messages)))])
    {
      if !Authenticated(authHeader) {
        return Unauthenticated;
      }
      var limit := EffectiveLimit(limitParam);
      if limit < 0 {
        return Error(500, "Failed to get messages");
      }
      var list := ListMessages(snapshot);
      return Success(map["messages" := Arr(list[..])]);
    }

    /** `POST /api/chat/messages`; `newId` is the id the store assigns. */
    method Post(authHeader: Option<string>, body: map<string, Value>, now: Instant, newId: string) returns (r: Response)
      requires Valid() && newId !in messages
      modifies this
      ensures Valid()
      ensures !Authenticated(authHeader) ==> r == Unauthenticated && messages == old(messages)
      ensures Authenticated(authHeader) && !(Truthy(Json.Get(body, "text")) && Truthy(Json.Get(body, "sender"))) ==>
        r == Error(400, "Text and sender are required") && messages == old(messages)
      ensures Authenticated(authHeader) && Truthy(Json.Get(body, "text")) && Truthy(Json.Get(body, "sender")) ==>
        var text := Json.Get(body, "text");
        if !text.Str? then
          r == Error(500, "Failed to create message") && messages == old(messages)
        else if Trim(text.s) == "" then
          r == Error(400, "Message cannot be empty") && messages == old(messages)
        else
          var message := NewMessage(Trim(text.s), Json.Get(body, "sender"), Json.Get(body, "replyTo"), IsoString(now));
          if StorableRecord(message) then
            r == Success(map["message" := WithId(newId, message)]) && messages == old(messages)[newId := message]
          else
            r == Error(500, "Failed to create message") && messages == old(messages)
    {
      if !Authenticated(authHeader) {
        return Unauthenticated;
      }
      var text, sender, replyTo := Json.Get(body, "text"), Json.Get(body, "sender"), Json.Get(body, "replyTo");
      if !Truthy(text) || !Truthy(sender) {
        return Error(400, "Text and sender are required");
      }
      if !text.Str? {
        return Error(500, "Failed to create message");
      }
      if Trim(text.s) == "" {
        return Error(400, "Message cannot be empty");
      }
      var trimmed, stamp := Trim(text.s), IsoString(now);
      var message := NewMessage(trimmed, sender, replyTo, stamp);
      if !StorableRecord(message) {
        return Error(500, "Failed to create message");
      }
      NewMessageStamped(trimmed, sender, replyTo, stamp);
      StampedInsert(messages, newId, message);
      messages := messages[newId := message];
      return Success(map["message" := WithId(newId, message)]);
    }

    /** `PUT /api/chat/messages`: like or unlike one message. */
    method Put(authHeader: Option<string>, body: map<string, Value>) returns (r: Response)
      requires Valid()
      modifies this
      ensures Valid()
      ensures !Authenticated(authHeader) ==> r == Unauthenticated && messages == old(messages)
      ensures Authenticated(authHeader) && !UpdateComplete(body) ==>
        r == Error(400, "Message ID, action, and user ID are required") && messages == old(messages)
      ensures Authenticated(authHeader) && UpdateComplete(body) ==>
        var id, action, userId := Json.Get(body, "messageId"), Json.Get(body, "action"), Json.Get(body, "userId");
        if !id.Str? then
          r == Error(500, "Failed to update message") && messages == old(messages)
        else if action != Str("like") && action != Str("unlike") then
          r == Error(400, "Invalid action") && messages == old(messages)
        else if !Element(userId) || id.s !in old(messages) then
          r == Error(500, "Failed to update message") && messages == old(messages)
        else
          var fields := if action == Str("like") then Like(old(messages)[id.s], userId) else Unlike(old(messages)[id.s], userId);
          r == Success(map["message" := Str("Message updated successfully")])
          && messages == old(messages)[id.s := old(messages)[id.s] + fields]
    {
      if !Authenticated(authHeader) {
        return Unauthenticated;
      }
      var id, action, userId := Json.Get(body, "messageId"), Json.Get(body, "action"), Json.Get(body, "userId");
      if !UpdateComplete(body) {
        return Error(400, "Message ID, action, and user ID are required");
      }
      if !id.Str? {
        return Error(500, "Failed to update message");
      }
      if action != Str("like") && action != Str("unlike") {
        return Error(400, "Invalid action");
      }
      if !Element(userId) || id.s !in messages {
        return Error(500, "Failed to update message");
      }
      var fields := if action == Str("like") then Like(messages[id.s], userId) else Unlike(messages[id.s], userId);
      messages := messages[id.s := messages[id.s] + fields];
      return Success(map["message" := Str("Message updated successfully")]);
    }
  }

  /** Reverses `a` in place. */
  method Reverse<T>(a: array<T>)
    modifies a
    ensures a[..] == Reversed(old(a[..]))
  {
    var i, j := 0, a.Length - 1;
    while i < j
      invariant 0 <= i && j == a.Length - 1 - i && i <= a.Length - i
      invariant forall k :: 0 <= k < i ==> a[k] == old(a[a.Length - 1 - k]) && a[a.Length - 1 - k] == old(a[k])
      invariant forall k :: i <= k < a.Length - i ==> a[k] == old(a[k])
    {
      a[i], a[j] := a[j], a[i];
      i, j := i + 1, j - 1;
    }
  }

  // ---------------------------------------------------------------------
  // Likes

  /** No value appears twice. */
  predicate NoDuplicates(items: seq<Value>)
  {
    forall i, j :: 0 <= i < j < |items| ==> items[i] != items[j]
  }

  /**
   * A like adds the user to `likedBy` once and raises the counter by one;
   * an unlike takes the user out and lowers the counter by one. Both keep
   * `likedBy` free of duplicates.
   */
  lemma LikeUnlikeFields(message: Record, userId: Value, n: int, likers: seq<Value>)
    requires Get(message, "likes") == Num(n) && Get(message, "likedBy") == Arr(likers)
    requires NoDuplicates(likers)
    ensures var liked := message + Like(message, userId);
      && liked["likes"] == Num(n + 1)
      && liked["likedBy"].Arr? && Contains(liked["likedBy"].items, userId)
      && (forall y :: Contains(liked["likedBy"].items, y) <==> y == userId || Contains(likers, y))
      && |likers| <= |liked["likedBy"].items| && liked["likedBy"].items[..|likers|] == likers
      && (Contains(likers, userId) ==> liked["likedBy"] == Arr(likers))
      && NoDuplicates(liked["likedBy"].items)
      && (forall k :: k in message && k !in {"likes", "likedBy"} ==> liked[k] == message[k])
    ensures var unliked := message + Unlike(message, userId);
      && unliked["likes"] == Num(n - 1)
      && unliked["likedBy"].Arr? && !Contains(unliked["likedBy"].items, userId)
      && (forall y :: y != userId ==> (Contains(unliked["likedBy"].items, y) <==> Contains(likers, y)))
      && NoDuplicates(unliked["likedBy"].items)
      && (forall k :: k in message && k !in {"likes", "likedBy"} ==> unliked[k] == message[k])
  {
    WithoutNoDuplicates(likers, userId);
    forall y | y != userId
      ensures Contains(Without(likers, userId), y) <==> Contains(likers, y)
    {
      WithoutKeeps(likers, userId, y);
    }
    if !Contains(likers, userId) {
      forall i, j | 0 <= i < j < |likers| + 1 ensures (likers + [userId])[i] != (likers + [userId])[j] {
        if j == |likers| {
          assert likers[i] in likers;
        }
      }
    }
  }

  lemma {:induction false} WithoutNoDuplicates(items: seq<Value>, x: Value)
    requires NoDuplicates(items)
    ensures NoDuplicates(Without(items, x))
    decreases |items|
  {
    if items != [] {
      var init := items[..|items| - 1];
      var last := items[|items| - 1];
      WithoutNoDuplicates(init, x);
      if last != x {
        assert !Contains(init, last);
        WithoutKeeps(init, x, last);
        var w := Without(init, x);
        forall i, j | 0 <= i < j < |w| + 1 ensures (w + [last])[i] != (w + [last])[j] {
          if j == |w| {
            assert w[i] in w;
          }
        }
      }
    }
  }

  /** Liking, then unliking, restores a message the user had not liked. */
  lemma LikeThenUnlike(message: Record, userId: Value, n: int, likers: seq<Value>)
    requires Get(message, "likes") == Num(n) && Get(message, "likedBy") == Arr(likers)
    requires !Contains(likers, userId)
    ensures var liked := message + Like(message, userId);
      liked + Unlike(liked, userId) == message
  {
    var liked := message + Like(message, userId);
    assert liked["likedBy"] == Arr(likers + [userId]);
    WithoutAbsent(likers, userId);
    assert Without(likers + [userId], userId) == Without(likers, userId);
    assert (likers + [userId])[..|likers|] == likers;
    var back := liked + Unlike(liked, userId);
    assert back.Keys == message.Keys;
  }

  lemma {:induction false} WithoutAbsent(items: seq<Value>, x: Value)
    requires !Contains(items, x)
    ensures Without(items, x) == items
    decreases |items|
  {
    if items != [] {
      var init := items[..|items| - 1];
      assert !Contains(init, x);
      WithoutAbsent(init, x);
      assert init + [items[|items| - 1]] == items;
    }
  }

  /**
   * The counter is not tied to `likedBy`: liking twice lists the user once
   * but counts two likes.
   */
  lemma DoubleLike(message: Record, userId: Value, n: int, likers: seq<Value>)
    requires Get(message, "likes") == Num(n) && Get(message, "likedBy") == Arr(likers)
    requires !Contains(likers, userId)
    ensures var once := message + Like(message, userId);
      var twice := once + Like(once, userId);
      && twice["likes"] == Num(n + 2)
      && twice["likedBy"] == Arr(likers + [userId])
  {
  }
}
