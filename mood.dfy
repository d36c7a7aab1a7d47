/**
 * The mood check-in route (`POST /api/mood`): require a user and a numeric
 * rating, fill the optional descriptors with defaults, stamp the record
 * with the time of day and the UTC date, and add it to `mood_checkins`.
 *
 * `localHour` is the server's local hour of the submission instant (what
 * `getHours` reads); `newId` is the id the store gives the new document.
 */
module Mood {
  import opened Optional
  import opened Json
  import opened JsString
  import opened IsoDate

  /** `getTimeOfDay`: the part of the day an hour falls in. */
  function TimeOfDay(hour: int): (r: string)
    ensures r in {"morning", "afternoon", "evening", "night"}
    ensures r == "morning" <==> 5 <= hour < 12
    ensures r == "afternoon" <==> 12 <= hour < 17
    ensures r == "evening" <==> 17 <= hour < 21
  {
    if hour >= 5 && hour < 12 then "morning"
    else if hour >= 12 && hour < 17 then "afternoon"
    else if hour >= 17 && hour < 21 then "evening"
    else "night"
  }

  /** On the hours a clock shows, night is exactly 21..23 and 0..4. */
  lemma NightHours(hour: int)
    requires 0 <= hour <= 23
    ensures TimeOfDay(hour) == "night" <==> 21 <= hour || hour < 5
  {
  }

  /** The optional descriptors that default to the empty string. */
  const Descriptors: set<string> :=
    {"mood_reason", "energy_level", "sleep_quality", "stress_level", "stress_reason",
     "motivation_level", "social_interaction", "activity_interest", "clarity_of_thought"}

  /** The first ten characters of the ISO string: the UTC date. */
  function DateOf(now: Instant): string
  {
    IsoLength(now);
    IsoString(now)[..10]
  }

  /** The fields every check-in carries besides the descriptors. */
  const FixedKeys: set<string> := {"userId", "mood_rating", "emotion_keywords", "timestamp", "time_of_day", "date"}

  /** `docData`: the stored check-in, given its time of day and date. */
  function CheckIn(body: map<string, Value>, timeOfDay: string, date: string): Record
  {
    Described(body) + Fixed(body, timeOfDay, date)
  }

  /** Each descriptor as sent when truthy, `''` otherwise. */
  function Described(body: map<string, Value>): (m: Record)
    ensures m.Keys == Descriptors
  {
    map k | k in Descriptors :: Or(Get(body, k), Str(""))
  }

  function Fixed(body: map<string, Value>, timeOfDay: string, date: string): (m: Record)
    ensures m.Keys == FixedKeys
  {
    map[
      "userId" := Get(body, "userId"),
      "mood_rating" := Get(body, "mood_rating"),
      "emotion_keywords" := Or(Get(body, "emotion_keywords"), Arr([])),
      "timestamp" := ServerTimestamp,
      "time_of_day" := Str(timeOfDay),
      "date" := Str(date)]
  }

  /** `POST /api/mood` over the `mood_checkins` collection. */
  function MoodPost(body: map<string, Value>, now: Instant, localHour: int, checkins: map<string, Record>, newId: string): (h: Handled)
  {
    Submit(body, CheckIn(body, TimeOfDay(localHour), DateOf(now)), checkins, newId)
  }

  /** The guard, then `addDoc` of the check-in `doc`. */
  function Submit(body: map<string, Value>, doc: Record, checkins: map<string, Record>, newId: string): Handled
  {
    if !Truthy(Get(body, "userId")) || !IsNumber(Get(body, "mood_rating")) then
      Handled(Error(400, "userId and mood_rating are required"), checkins)
    else if !StorableRecord(doc) then Handled(Error(500, "Failed to submit mood check-in"), checkins)
    else Handled(Success(map[]), checkins[newId := doc])
  }

  /** A check-in without a user or without a numeric rating is refused and nothing is stored. */
  lemma MissingFields(body: map<string, Value>, now: Instant, localHour: int, checkins: map<string, Record>, newId: string)
    requires !Truthy(Get(body, "userId")) || !IsNumber(Get(body, "mood_rating"))
    ensures MoodPost(body, now, localHour, checkins, newId) == Handled(Error(400, "userId and mood_rating are required"), checkins)
  {
  }

  /**
   * The stored check-in keeps `userId` and `mood_rating` as sent, keeps
   * `emotion_keywords` when truthy and stores `[]` otherwise, and records
   * the given time of day and date.
   */
  lemma FixedFields(body: map<string, Value>, timeOfDay: string, date: string)
    ensures var doc := CheckIn(body, timeOfDay, date);
      && doc.Keys == Descriptors + FixedKeys
      && Get(doc, "userId") == Get(body, "userId")
      && Get(doc, "mood_rating") == Get(body, "mood_rating")
      && Get(doc, "emotion_keywords") == (if Truthy(Get(body, "emotion_keywords")) then Get(body, "emotion_keywords") else Arr([]))
      && Get(doc, "time_of_day") == Str(timeOfDay)
      && Get(doc, "date") == Str(date)
      && Get(doc, "timestamp") == ServerTimestamp
  {
    var fixed := Fixed(body, timeOfDay, date);
    var doc := Described(body) + fixed;
    assert CheckIn(body, timeOfDay, date) == doc;
    FixedShape(body, timeOfDay, date);
    forall k | k in FixedKeys
      ensures Get(doc, k) == Get(fixed, k)
    {
    }
  }

  lemma FixedShape(body: map<string, Value>, timeOfDay: string, date: string)
    ensures var fixed := Fixed(body, timeOfDay, date);
      && Get(fixed, "userId") == Get(body, "userId")
      && Get(fixed, "mood_rating") == Get(body, "mood_rating")
      && Get(fixed, "emotion_keywords") == Or(Get(body, "emotion_keywords"), Arr([]))
      && Get(fixed, "time_of_day") == Str(timeOfDay)
      && Get(fixed, "date") == Str(date)
      && Get(fixed, "timestamp") == ServerTimestamp
  {
  }

  /** Each optional descriptor is stored as sent when truthy and as `''` otherwise. */
  lemma DescriptorDefaults(body: map<string, Value>, timeOfDay: string, date: string, k: string)
    requires k in Descriptors
    ensures Get(CheckIn(body, timeOfDay, date), k) == (if Truthy(Get(body, k)) then Get(body, k) else Str(""))
  {
    assert Descriptors !! FixedKeys;
  }

  /**
   * For instants in the years 0000..9999 the stored `date` is a `full-date`
   * of section 5.6 of RFC 3339 naming the UTC date of the submission.
   */
  lemma DateIsFullDate(now: Instant)
    requires -62_167_219_200_000 <= now < 253_402_300_800_000
    ensures IsFullDate(DateOf(now))
    ensures var s := DateOf(now);
      s[4] == '-' && s[7] == '-'
      && Date(DigitsValue(s[..4], 10), DigitsValue(s[5..7], 10), DigitsValue(s[8..10], 10)) == UtcDate(now)
  {
    IsoDatePrefix(now);
  }

  /** An accepted check-in adds exactly one document and changes no other. */
  lemma AcceptedCheckIn(body: map<string, Value>, now: Instant, localHour: int, checkins: map<string, Record>, newId: string)
    requires Truthy(Get(body, "userId")) && IsNumber(Get(body, "mood_rating"))
    requires StorableRecord(CheckIn(body, TimeOfDay(localHour), DateOf(now)))
    requires newId !in checkins
    ensures var h := MoodPost(body, now, localHour, checkins, newId);
      && h.response == Success(map[])
      && h.store.Keys == checkins.Keys + {newId}
      && h.store[newId] == CheckIn(body, TimeOfDay(localHour), DateOf(now))
      && (forall id :: id in checkins ==> h.store[id] == checkins[id])
  {
    SubmitAccepted(body, CheckIn(body, TimeOfDay(localHour), DateOf(now)), checkins, newId);
  }

  lemma SubmitAccepted(body: map<string, Value>, doc: Record, checkins: map<string, Record>, newId: string)
    requires Truthy(Get(body, "userId")) && IsNumber(Get(body, "mood_rating"))
    requires StorableRecord(doc)
    requires newId !in checkins
    ensures var h := Submit(body, doc, checkins, newId);
      && h.response == Success(map[])
      && h.store.Keys == checkins.Keys + {newId}
      && h.store[newId] == doc
      && (forall id :: id in checkins ==> h.store[id] == checkins[id])
  {
  }
}
