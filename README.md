# Soul-care route handlers and chat panel, modelled in Dafny

Soul-care is a mental-health support web application. Its server side is a
set of Next.js route handlers over a document store. The calls handler
starts, joins, ends and annotates support calls. The chat handler lists,
posts and likes community messages. The profile handler reads and edits a
user profile. The sign-up and sign-in handlers wrap the identity provider,
and the mood handler records check-ins. The home page also keeps a local
chat list that the user can append to and like.

The model follows the program file by file:

| file | module | models |
|---|---|---|
| `optional.dfy` | `Optional` | the `Option` type |
| `json.dfy` | `Json` | JavaScript values, truthiness, `||`, property access, `{ id, ...data }`, the store's write rules, responses |
| `jsstring.dfy` | `JsString` | `trim`, `startsWith`, `split(...)[1]`, `parseInt`, string ordering |
| `isodate.dfy` | `IsoDate` | `toISOString`, `new Date(string)`, the `full-date` of section 5.6 of RFC 3339 |
| `auth.dfy` | `Auth` | `verifyAuth`, shared by the three guarded route files |
| `calls.dfy` | `Calls` | `app/api/calls/route.js`: class `CallStore` over the `calls` collection |
| `chat.dfy` | `ChatMessages` | `app/api/chat/messages/route.js`: class `MessageStore` over `messages` |
| `profile.dfy` | `Profile` | `app/api/users/profile/route.js`: class `UserStore` over `users` |
| `signup.dfy` | `Signup` | `app/api/auth/signup/route.js` as a function of the provider's answer |
| `signin.dfy` | `Signin` | `app/api/auth/signin/route.js` as a function of the provider's answer |
| `mood.dfy` | `Mood` | `app/api/mood/route.js` as a function over `mood_checkins` |
| `home.dfy` | `Home` | the chat panel of `app/page.jsx`: class `ChatView` over its state cells |

Modelling conventions:

- **Store.** Each collection is a `map<string, Record>` from document id to
  fields. `updateDoc` merges the top-level keys it is given; a dotted key
  such as `profile.bio` is a path into a nested map. `updateDoc` on a
  missing document fails. A write that holds `undefined`, or an array
  directly inside an array, is refused. All of these failures become the
  handler's 500 answer.
- **Clock and ids.** An instant is an integer count of milliseconds within
  the range a JavaScript `Date` can hold. The ids that `addDoc` and
  `Date.now()` would produce are inputs.
- **Queries.** A query's answer (`getDocs`) is an input, `snapshot`: the
  document ids the query returns, in order. Each handler's `requires`
  states which answer the store gives. The store's rules decide that
  answer: the default order is by document id, and `orderBy('timestamp',
  'desc')` breaks ties by id, descending. Lemmas prove that such an answer
  always exists and is unique. The handlers then loop over the snapshot as
  the source's `forEach` does.
- **Numbers.** Numbers are integers, with `NaN` kept apart; the handlers
  only compute counters, limits and whole seconds.
- **Identity provider.** In sign-up and sign-in, the provider's answer is
  an input: an account, or an error code.

## Model

| member | source | states |
|---|---|---|
| Auth.VerifyAuth | app/api/calls/route.js:20-28 | a token exists exactly when the header is present, non-empty and starts with `Bearer `; the token is the text after the prefix up to the next `Bearer ` |
| Auth.AuthenticatedIff | app/api/calls/route.js:20-39 | a request passes the 401 gate exactly when the header starts with `Bearer ` and is followed by something other than a second `Bearer ` |
| Auth.BearerToken | app/api/chat/messages/route.js:20-27 | a header `Bearer t`, with `t` non-empty and free of the prefix, yields the token `t` and passes the gate |
| Json.Member | app/api/calls/route.js:204-207 | a property read throws exactly on `undefined` and `null`, and reads an object's field, `undefined` when absent |
| Json.WithId | app/api/calls/route.js:56-61 | `{ id, ...data }` has the keys of `data` plus `id`; fields of the data win over the id |
| Json.Listing | app/api/calls/route.js:72-79 | a query listing has one `{ id, ...data }` entry per snapshot id, in snapshot order |
| JsString.TrimIsSlice | app/api/chat/messages/route.js:99 | `trim` is a slice `s[a..b]` with `s[..a]` and `s[b..]` all whitespace and no whitespace at either end of the result |
| JsString.TrimEmptyIff | app/api/chat/messages/route.js:99-104 | the trimmed text is empty exactly when every character is whitespace |
| JsString.TrimIdempotent | app/api/chat/messages/route.js:108 | trimming twice is trimming once |
| JsString.ParseIntDecimal | app/api/chat/messages/route.js:42 | `parseInt` of a decimal numeral yields its value |
| JsString.ParseIntNegative | app/api/chat/messages/route.js:42 | `parseInt` of `-` and a numeral yields the negated value |
| JsString.ParseIntNoDigits | app/api/chat/messages/route.js:42 | text without a decimal digit (letters included, e.g. `abc`) yields `NaN` |
| JsString.StrLtTransitive | app/api/calls/route.js:65-71 | document-id order is transitive |
| JsString.StrLtTotal | app/api/calls/route.js:65-71 | document-id order is total on distinct ids |
| JsString.LeastExists | app/api/calls/route.js:65-71 | every non-empty id set has a least id |
| IsoDate.IsoRoundTrip | app/api/calls/route.js:214-219 | reading back an ISO string written by `toISOString` gives the same instant |
| IsoDate.IsoDatePrefix | app/api/mood/route.js:49 | for years 0000..9999 the first ten characters of the ISO string are a `full-date` naming the UTC date |
| IsoDate.DateTextIsFullDate | app/api/mood/route.js:49 | `YYYY-MM-DD` of a valid date is a `full-date` that reads back as that date |
| IsoDate.DayOfDateOfDay | app/api/calls/route.js:142 | the day count of the calendar date of a day is that day |
| Calls.OpenCallIds | app/api/calls/route.js:65-69 | a call is listed exactly when its participants contain the user and its status is `waiting` or `active` |
| Calls.InIdOrderUnique | app/api/calls/route.js:65-71 | two listings of the open calls in id order are equal |
| Calls.IdOrderExists | app/api/calls/route.js:65-71 | every set of open calls has a listing in id order |
| Calls.CallStore.ListCalls | app/api/calls/route.js:72-79 | the loop pushes `{ id, ...data }` for each snapshot document, in order |
| Calls.CallStore.Get | app/api/calls/route.js:31-99 | 401 without a token; `callId` is read before `userId`; an unknown call gives 404; a known call is returned with its id; by user, exactly the open calls in id order; neither gives 400 |
| Calls.CallStore.Post | app/api/calls/route.js:102-167 | 401 without a token; missing user or name gives 400; an open call for the user gives 409 and no write; otherwise exactly one new record under the new id and all others unchanged |
| Calls.CallStore.Put | app/api/calls/route.js:170-258 | 401; missing id or action gives 400; an unknown call gives 404; an unknown action gives 400; a thrown read or refused write gives 500; otherwise the action's fields merged into that one record |
| Calls.NewCallFields | app/api/calls/route.js:137-148 | a new call has the creator alone in both lists, is `waiting`, has `callType` defaulting to `support`, starts now, has no end, duration 0, empty notes and no rating |
| Calls.StartLeavesOneOpenCall | app/api/calls/route.js:121-150 | after a successful start the new call is the only open call of its creator |
| Calls.JoinByNewcomer | app/api/calls/route.js:203-210 | a newcomer is appended to both lists, which keep equal lengths; the call becomes active whatever its status was; nothing else changes |
| Calls.JoinByParticipant | app/api/calls/route.js:203-210 | a primitive id `includes` finds already listed writes an empty update: the record is unchanged |
| Calls.JoinByUnmatchedId | app/api/calls/route.js:203-210 | an object or array id is never found by `includes` and is appended even when an equal value is listed; an array id makes the write one the store refuses |
| Calls.JoinThrows | app/api/calls/route.js:204-207 | a record without a participant array, or a missing `data`, makes `join` throw |
| Calls.EndFields | app/api/calls/route.js:213-223 | ending sets `status` to `ended`, `endTime` to now and `duration` to the elapsed seconds, and changes nothing else |
| Calls.StartTimeReadsBack | app/api/calls/route.js:142-215 | a start time written at the start reads back as that instant |
| Calls.EndDuration | app/api/calls/route.js:214-216 | the duration is `floor((end - start) / 1000)`, and it is at least 0 when the end is not before the start |
| Calls.EndWithoutStart | app/api/calls/route.js:215-216 | a missing start time makes the duration `NaN` |
| Calls.EditOneField | app/api/calls/route.js:225-235 | `update_notes` writes only `notes`, falling back to `''`; `rate` writes only `rating` |
| Calls.UnknownAction | app/api/calls/route.js:237-241 | any action other than the four named ones is refused |
| Calls.StartThenJoin | app/api/calls/route.js:137-210 | a second user joining a fresh call: both users listed in order, the call active, its start time kept |
| Calls.JoinFresh | app/api/calls/route.js:203-210 | a second user joining a call that only its creator is in: both listed in order, the call active, the start time unchanged |
| Calls.Lifecycle | app/api/calls/route.js:137-223 | start, join and end: the ended call lists both users and lasts `(t1 - t0) / 1000` seconds |
| Calls.JoinIgnoresOtherCalls | app/api/calls/route.js:203-210 | `join` does not check the joiner's other calls, so a user can end up with two open calls |
| Calls.JoinReopensEndedCall | app/api/calls/route.js:203-210 | joining an ended call makes it active again |
| ChatMessages.LimitDecimal | app/api/chat/messages/route.js:42 | a positive numeral `n` gives limit `n` |
| ChatMessages.LimitNegative | app/api/chat/messages/route.js:42 | the numeral `-n` gives limit `-n`: a negative limit is not clamped |
| ChatMessages.LimitFallback | app/api/chat/messages/route.js:42 | an absent parameter, text without a decimal digit (such as `abc`) or zero gives 50 |
| ChatMessages.NewerTransitive | app/api/chat/messages/route.js:47 | descending timestamp order with id tie-break is transitive |
| ChatMessages.NewerTotal | app/api/chat/messages/route.js:47 | that order is total on distinct messages |
| ChatMessages.NewestExists | app/api/chat/messages/route.js:47 | every non-empty message set has a newest message |
| ChatMessages.NewestFirstExists | app/api/chat/messages/route.js:45-49 | every store has an answer listing its newest `min(limit, n)` messages, newest first |
| ChatMessages.NewestFirstUnique | app/api/chat/messages/route.js:45-49 | that answer is unique |
| ChatMessages.Chronological | app/api/chat/messages/route.js:61-62 | the reversed answer lists the messages with non-decreasing timestamps |
| ChatMessages.Reversed | app/api/chat/messages/route.js:62 | the reversal has the same length, with each entry mirrored |
| ChatMessages.Reverse | app/api/chat/messages/route.js:62 | the in-place array reversal leaves the reversal of the old contents |
| ChatMessages.MessageStore.ListMessages | app/api/chat/messages/route.js:52-62 | a fresh array holding the snapshot's entries pushed in order and then reversed |
| ChatMessages.MessageStore.Get | app/api/chat/messages/route.js:31-76 | 401 without a token; a negative limit gives 500; otherwise the newest messages in chronological order |
| ChatMessages.MessageStore.Post | app/api/chat/messages/route.js:79-134 | 401; missing text or sender gives 400; whitespace-only text gives 400; otherwise exactly one new message, which is returned with its id |
| ChatMessages.MessageStore.Put | app/api/chat/messages/route.js:137-189 | 401; a missing id, action or user gives 400; an action other than like/unlike gives 400 and no write; a missing message gives 500; otherwise only `likes` and `likedBy` change |
| ChatMessages.NewMessageFields | app/api/chat/messages/route.js:99-115 | the stored text is already trimmed and is empty exactly when the posted text is all whitespace; the message holds the sender, 0 likes, no likers, no replies and `replyTo` or `null` |
| ChatMessages.NewMessageStamped | app/api/chat/messages/route.js:110 | a new message's timestamp is the ISO text of the posting time |
| ChatMessages.ArrayUnion | app/api/chat/messages/route.js:162 | the result holds exactly the earlier elements and the user, keeps the earlier elements in place as a prefix, and is the old array when the user was already listed |
| ChatMessages.Without | app/api/chat/messages/route.js:168 | removal leaves no copy of the user and does not lengthen the list |
| ChatMessages.WithoutKeeps | app/api/chat/messages/route.js:168 | removal keeps exactly the other entries |
| ChatMessages.LikeUnlikeFields | app/api/chat/messages/route.js:158-169 | `like` adds 1, keeps every earlier liker in place and adds only the user (no change when already listed); `unlike` subtracts 1 and removes only the user; a list without duplicates keeps that; no other field changes |
| ChatMessages.WithoutNoDuplicates | app/api/chat/messages/route.js:168 | removal keeps a duplicate-free list duplicate-free |
| ChatMessages.LikeThenUnlike | app/api/chat/messages/route.js:158-169 | like then unlike by a user not yet listed restores `likes` and `likedBy` |
| ChatMessages.WithoutAbsent | app/api/chat/messages/route.js:168 | removing a user who is not listed leaves the list unchanged |
| ChatMessages.DoubleLike | app/api/chat/messages/route.js:160-163 | liking twice adds 2 to `likes` but lists the user once, so `likes` need not equal the number of likers |
| Profile.Public | app/api/users/profile/route.js:64-67 | the returned user has no `email` and every other field as stored |
| Profile.AllowedPart | app/api/users/profile/route.js:104-111 | the filtered update has exactly the input keys on the allow-list, with their values |
| Profile.AllowedPartIdempotent | app/api/users/profile/route.js:104-111 | filtering twice is filtering once, and an update whose keys are all allowed is kept whole |
| Profile.ValidUpdates | app/api/users/profile/route.js:104-111 | the loop over the entries builds exactly the allow-listed part |
| Profile.UserStore.Get | app/api/users/profile/route.js:33-81 | 401 without a token; a missing user id gives 400; an unknown user gives 404; otherwise the record without `email` |
| Profile.UserStore.Put | app/api/users/profile/route.js:84-138 | 401; a missing user id gives 400; missing `updates` throws (500); no allowed key gives 400 and no write; an unknown user or refused write gives 500; otherwise exactly the filtered fields plus `updatedAt` are written |
| Profile.UpdateKeepsIdentity | app/api/users/profile/route.js:104-124 | an accepted update changes no field but `username`, `profile` and `updatedAt`; `uid`, `email` and `createdAt` keep their values |
| Profile.WriteShape | app/api/users/profile/route.js:120-124 | a write of allowed keys and `updatedAt` sets `updatedAt` and `username` and keeps every other top-level field |
| Profile.ProfileFields | app/api/users/profile/route.js:104-124 | inside `profile`, a write sets exactly the bio, avatar and preferences it names and keeps every other field |
| Profile.NestedPath | app/api/users/profile/route.js:104 | a dotted `profile.<name>` key sets `<name>` of the profile map |
| Signup.Validate | app/api/auth/signup/route.js:26-45 | every validation failure is a 400 |
| Signup.ValidateStrings | app/api/auth/signup/route.js:26-45 | for string fields, validation passes exactly when all three are non-empty, the username has at least 3 and the password at least 6 UTF-16 code units; missing fields are reported first, then the username, then the password |
| Signup.AstralPassword | app/api/auth/signup/route.js:40-45 | a password of three characters beyond U+FFFF is long enough, since `length` counts it as 6 |
| JsString.Utf16LengthBmp | app/api/auth/signup/route.js:33-45 | text within the Basic Multilingual Plane has a `length` equal to its character count |
| JsString.Utf16LengthAstral | app/api/auth/signup/route.js:33-45 | text of characters beyond U+FFFF has twice as many code units as characters |
| Signup.SignupError | app/api/auth/signup/route.js:85-110 | `email-already-in-use` is the only 409; `invalid-email` and `weak-password` are the only 400s; every other code gives 500, and an unknown one "Failed to create account" |
| Signup.RejectedRequestWritesNothing | app/api/auth/signup/route.js:26-45 | a rejected request writes nothing, whatever the provider would answer |
| Signup.SuccessfulSignup | app/api/auth/signup/route.js:47-80 | a complete sign-up writes exactly one document, the profile under the new uid, and answers with exactly `uid`, `email` and `username` |
| Signup.ProfileDocShape | app/api/auth/signup/route.js:57-71 | the profile document has `uid`, `email`, `username`, both timestamps, an empty bio and avatar, and the default preferences |
| Signup.FailedSignup | app/api/auth/signup/route.js:82-110 | a provider or write failure writes nothing and answers with the mapped error |
| Signin.SigninError | app/api/auth/signin/route.js:54-83 | the five named codes give 404, 401, 400, 429 and 403, each to exactly its code; every other code gives 500 "Failed to sign in" |
| Signin.MissingCredentials | app/api/auth/signin/route.js:26-31 | a request without both credentials gives 400 before the provider is asked |
| Signin.SuccessfulSignin | app/api/auth/signin/route.js:33-49 | a sign-in writes only `lastSeen`, only in the user's document, and answers with `uid`, `email` and `displayName` |
| Signin.FailedSignin | app/api/auth/signin/route.js:51-83 | a failure writes nothing and answers with the mapped error; a missing user document gives 500 |
| Mood.TimeOfDay | app/api/mood/route.js:17-23 | morning is exactly [5,12), afternoon [12,17), evening [17,21); every hour gets one of the four classes |
| Mood.NightHours | app/api/mood/route.js:17-23 | on 0..23, night is exactly 21..23 and 0..4 |
| Mood.MissingFields | app/api/mood/route.js:29-31 | no user or a non-number rating gives 400 and stores nothing |
| Mood.FixedFields | app/api/mood/route.js:32-50 | the check-in keeps `userId` and `mood_rating`, defaults `emotion_keywords` to `[]`, and records the time of day and date |
| Mood.DescriptorDefaults | app/api/mood/route.js:37-46 | each optional descriptor is stored as sent when truthy and as `''` otherwise |
| Mood.DateIsFullDate | app/api/mood/route.js:49 | the stored date is a `full-date` with `-` at positions 4 and 7, naming the UTC date of the submission |
| Mood.AcceptedCheckIn | app/api/mood/route.js:34-52 | an accepted check-in adds exactly one document and changes no other |
| Home.Toggled | app/page.jsx:85 | `isLiked` flips; `likes` moves by -1 if the message was liked and +1 otherwise; no other field changes; the like invariant is kept |
| Home.ToggleLikes | app/page.jsx:82-88 | the list keeps its length and order, and only messages with the given id are toggled |
| Home.ToggledTwice | app/page.jsx:85 | toggling a message twice restores it |
| Home.ToggleLikesTwice | app/page.jsx:82-88 | toggling the same id twice restores the list |
| Home.ToggleLikesSane | app/page.jsx:82-88 | toggling keeps `likes >= 0` and `isLiked ==> likes >= 1` for every message |
| Home.Seed | app/page.jsx:12-49 | the four seeded messages satisfy the like invariant and have distinct ids |
| Home.Outgoing | app/page.jsx:67-75 | a sent message comes from "You", carries the untrimmed input, 0 likes, not liked and no replies |
| Home.ChatView.SendMessage | app/page.jsx:65-80 | blank input changes nothing; otherwise exactly one message is appended at the end, and the input and reply target are cleared |
| Home.ChatView.ToggleLike | app/page.jsx:82-88 | the list becomes its toggled form and the like invariant is kept |
| Home.ChatView.HandleKeyPress | app/page.jsx:94-99 | Enter without Shift sends; any other key changes nothing |
| Home.ChatView.HandleDoubleClick | app/page.jsx:90-92 | the chosen message becomes the reply target |
| Home.ChatView.Type | app/page.jsx:230 | typing replaces the input text only |

## Left out

- Firebase and its SDK initialisation (`lib/firebase.js`, the config blocks) are not part of this model; the store is a map and the identity provider an input.
- The query engine: `getDocs` answers are inputs constrained by the store's order rules, not computed.
- Concurrency: every request runs alone, so the read-then-write races on `join` and `end`, and the atomicity of `increment` and `arrayUnion`, are not modelled.
- Floating point: numbers are integers. Fractional likes, ratings or limits, and the floating-point rounding of `Date` arithmetic, are not modelled.
- Request parsing: request bodies are JSON objects. A body that is not JSON, or not an object, would throw into the 500 path; this is not modelled.
- Query-string values are strings or absent; repeated parameters are not modelled.
- Document ids containing `/`, and the store's other limits on ids and sizes, are not modelled.
- `Json.Length`: an object's `length` that is a string or another object counts as `undefined`, where JavaScript would convert it to a number.
- ChatMessages.MessageStore.Valid: the model assumes every stored message has a string `timestamp`, as the create handler writes. Documents written elsewhere with other timestamp types, and the store's cross-type ordering, are not modelled.
- Calls.JoinUpdate: `includes` on a non-array `participants` or a string `usernames` is modelled as throwing. Strings have `includes` and a spread, so a malformed record behaves differently in JavaScript.
- Calls.DateValue: `new Date(text)` is read only in the form `toISOString` writes. Date-only text, times without milliseconds, offsets and informal dates, which JavaScript also accepts, read as invalid, so their duration is `NaN`.
- Signup.ProfileDoc: one sign-up instant stamps both `createdAt` and `lastSeen`. The handler calls `new Date()` twice, so the two texts can differ by the time between the calls.
- Profile.Entries: `Object.entries` of a string or an array yields index keys. None of them is on the allow-list, so they are modelled as no entries.
- The `serverTimestamp()` placeholder in mood check-ins is stored as a marker; it is never resolved to a time.
- Local time: `getHours` is an input hour, and `toLocaleTimeString` is an input string.
- The home page's navigation, `toggleChat` and rendering; `lib/api.js`, `contexts/AuthContext.js`, `lib/vapi.js`, the dashboard, call and sign-in/up pages, and the feedback route are not part of this model.
- Token verification: `verifyAuth` only checks the header's shape, as the source does, so no identity check is modelled.
- Console logging in the error paths.
