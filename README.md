# Pastebin core, modelled in Dafny

This project models the sequential core of a small pastebin written in
TypeScript on Next.js with an Upstash Redis backend:

- **Creating a paste** (`app/api/pastes/route.ts`). `validateCreateRequest`
  checks a JSON body field by field and either reports the first problem or
  returns the normalised request. The content is trimmed, and `ttl_seconds`
  and `max_views` are passed through. The POST handler then builds the stored
  `PasteData` record from that request and the current time, and writes it.
- **The record store** (`lib/redis.ts`). Paste records live under the key
  `paste:<id>`. `setPaste` writes a record, `getPaste` reads it, and
  `incrementViews` adds one view in a single read-increment-write and returns
  the new record (except in one case, described under "## Findings", where
  the script path returns `null` after it has counted the view). It normally does this with a server-side Lua script, and
  with a read-modify-write fallback when the script call fails.
- **The clock** (`lib/time.ts`). `getCurrentTimeMs` returns the time from the
  `x-test-now-ms` header when `TEST_MODE` is `"1"`, a request is present, and
  the header is non-empty and, after leading whitespace and an optional sign,
  starts with a decimal digit. The value is `parseInt`'s reading of the
  longest run of digits there, so `"12abc"` gives 12. Otherwise it returns the
  wall-clock time.

Modules, one per source file plus two helpers:

| file | module | models |
|---|---|---|
| `wrappers.dfy` | `Wrappers` | `Option`, standing in for `null` / `undefined` |
| `js_text.dfy` | `JsText` | `String.prototype.trim` and `parseInt(s, 10)` |
| `record_store.dfy` | `RecordStore` | `lib/redis.ts` |
| `clock.dfy` | `Clock` | `lib/time.ts` |
| `create_route.dfy` | `CreateRoute` | `app/api/pastes/route.ts` |

The backend is modelled as the map `PasteStore.contents`, from key to
decoded record. The client's methods update it in place. Every effect of those
methods is also written as a function on maps (`Lookup`, `Stored`,
`IncrementStep`, `IncrementTimes`). The lemmas about several calls in a row
are stated over those functions, and each method's `ensures` connects the
method to its function.

The JSON request body is the datatype `CreateRoute.Json`. Numbers come in two
cases: `Int` for values where `Number.isInteger` holds, and `NonInteger` for
every other number. Arrays are kept as their own case. In JavaScript,
`typeof [] === "object"`, so an array gets past the first guard. It then fails
on `content`, because destructuring an array gives `undefined` for that field.

Two details of the code that the model keeps as written:
- `getPaste` does not check what it reads: it returns whatever the client
  decodes, and a malformed stored value is not turned into `null`. The model
  stores records that are already decoded.
- The handler sets `expires_at` when `ttl_seconds` is truthy, so a TTL of 0
  would give `null`. `NewPaste` models this truthiness test.
  `RecordFromValidBody` shows that, for every body that validation accepts,
  this is the same as setting `expires_at` exactly when a TTL was sent.

## Model

| member | source | states |
|---|---|---|
| `JsText.IsWhitespace` | app/api/pastes/route.ts:24 | the characters `trim` and `parseInt` skip include no digit and no sign character; among ASCII characters they are exactly space, tab, line feed, vertical tab, form feed and carriage return |
| `JsText.TrimStart` | app/api/pastes/route.ts:24 | the result is a suffix of the input and does not start with whitespace |
| `JsText.TrimStartDropsWhitespace` | app/api/pastes/route.ts:24 | everything dropped from the front is whitespace |
| `JsText.TrimEnd` | app/api/pastes/route.ts:24 | the result is a prefix of the input and does not end with whitespace |
| `JsText.TrimEndDropsWhitespace` | app/api/pastes/route.ts:24 | everything dropped from the back is whitespace |
| `JsText.Trim` | app/api/pastes/route.ts:45 | a trimmed string that is not empty starts and ends with a character that is not whitespace, and it is no longer than the input |
| `JsText.TrimEmptyIff` | app/api/pastes/route.ts:24 | `content.trim().length === 0` holds exactly when every character of the content is whitespace |
| `JsText.TrimIsInfix` | app/api/pastes/route.ts:45 | the trimmed content is a contiguous piece of the original, starting after the leading whitespace |
| `JsText.TrimIdempotent` | app/api/pastes/route.ts:45 | trimming already-trimmed content changes nothing |
| `JsText.ParseInt` | lib/time.ts:9 | `parseInt(s, 10)` skips leading whitespace and one optional sign, then reads the longest run of decimal digits: NaN exactly when that run is empty, otherwise its value, negated after a minus |
| `JsText.ParseSigned` | lib/time.ts:9 | after the whitespace: NaN exactly when no digit follows the optional sign, otherwise the digits' value, negated after a minus |
| `JsText.ParseDigits` | lib/time.ts:9 | NaN exactly when the text does not start with a digit, otherwise the non-negative value of its leading digits |
| `JsText.ParseIntPlusExample` | lib/time.ts:9 | `"+12 "` reads as 12 |
| `JsText.ParseIntHexExample` | lib/time.ts:9 | with radix 10, `"0x1A"` reads as 0 |
| `JsText.ParseIntNoBreakSpaceExample` | lib/time.ts:9 | a no-break space before `-7z` is skipped, giving -7 |
| `JsText.ParseIntSpacedSignExample` | lib/time.ts:9-10 | `"- 7"` is NaN: nothing may come between sign and digits |
| `JsText.LeadingDigits` | lib/time.ts:9 | the digits `parseInt` reads are a prefix of the text, followed by a non-digit or by the end of the string |
| `JsText.LeadingDigitsAreDigits` | lib/time.ts:9 | every character of that prefix is a decimal digit, so it is the longest run of digits |
| `JsText.ParseIntDecimal` | lib/time.ts:9 | `parseInt(s, 10)` of the decimal notation of any integer `n`, followed by text that does not start with a digit, is `n` |
| `JsText.ParseIntNoDigits` | lib/time.ts:9-10 | a header without any decimal digit parses to NaN |
| `JsText.ParseIntSkipsLeadingWhitespace` | lib/time.ts:9 | leading whitespace in front of the header value does not change what `parseInt` reads |
| `RecordStore.Key` | lib/redis.ts:52 | every key is the prefix `paste:` followed by the id |
| `RecordStore.KeyRoundTrip` | lib/redis.ts:35 | the id can be read back from its key |
| `RecordStore.KeyInjective` | lib/redis.ts:33-52 | get, set and increment all address `paste:<id>`, and two ids share a key exactly when they are equal |
| `RecordStore.Lookup` | lib/redis.ts:33-37 | a read gives a record exactly when the key is present, and then it gives the stored record |
| `RecordStore.Stored` | lib/redis.ts:41 | after `redis.set`, the keys are the old ones plus `paste:<id>`, that key holds the written record, and every other entry is unchanged |
| `RecordStore.SetThenGet` | lib/redis.ts:33-42 | reading right after `setPaste(id, d)` gives `d`, and every other id reads as before |
| `RecordStore.SetOverwrites` | lib/redis.ts:39-42 | a second write to the same id completely replaces the first |
| `RecordStore.Incremented` | lib/redis.ts:63 | the view count is one higher and content, creation time, expiry and limit are unchanged |
| `RecordStore.IncrementStep` | lib/redis.ts:50-88 | for an absent key: reply null and nothing changes; for a present key: reply the incremented record and store that same record; the key set and all other entries are unchanged |
| `RecordStore.IncrementTimes` | lib/redis.ts:50-88 | repeated increments never add or remove keys |
| `RecordStore.IncrementTimesAddsN` | lib/redis.ts:63 | `n` sequential increments of a present paste raise its views by exactly `n`, change none of its other fields and touch no other paste |
| `RecordStore.IncrementTimesAbsent` | lib/redis.ts:57-60 | increments of an absent paste never change the store |
| `RecordStore.ViewsNeverDecrease` | lib/redis.ts:63 | the view count after more increments is never lower than after fewer |
| `RecordStore.RunIncrementScript` | lib/redis.ts:56-67 | the script returns nil exactly when the key is absent and then changes nothing; otherwise it stores the record with one more view under the key, changes no other entry, and returns that record encoded as a string |
| `RecordStore.ClientReply` | lib/redis.ts:70 | nil stays nil; a client that does not deserialise hands the reply back unchanged; one that does turns the script's string into the record it encodes |
| `RecordStore.ReplyToPaste` | lib/redis.ts:72-76 | only a string reply gives a paste, namely the record it encodes; nil, an already-decoded object and any other reply give null |
| `RecordStore.ReplyToPasteFixed` | lib/redis.ts:72-76 | a paste comes back exactly when the reply is the record, either as a string or already decoded, and it is that record |
| `RecordStore.ScriptPathIsIncrementStep` | lib/redis.ts:56-76 | with a client that returns the script's string unchanged, the script together with its reply handling has exactly the effect of one increment step |
| `RecordStore.ParsedReplyDropsRecord` | lib/redis.ts:63-74 | with a client that deserialises the reply, a present paste reads as null although the script has stored it with one more view |
| `RecordStore.FixedScriptPathIsIncrementStep` | lib/redis.ts:56-76 | with the fixed reply handling, the script path is exactly one increment step whether or not the client deserialises |
| `RecordStore.EveryEntryReachable` | lib/redis.ts:33-52 | in a store whose keys all have the form `paste:<id>`, every key is the key of the id it names, and `getPaste` of that id returns the stored record |
| `RecordStore.PasteStore.EntryReachable` | lib/redis.ts:35-52 | in a store whose invariant holds (every key is `paste:<id>`), every entry is the record `getPaste` returns for the id its key names |
| `RecordStore.PasteStore.GetPaste` | lib/redis.ts:33-37 | returns the record under `paste:<id>`, or null when it is absent |
| `RecordStore.PasteStore.SetPaste` | lib/redis.ts:39-42 | the new store is the old one with `paste:<id>` set to the record (overwriting, nothing else changes); the record reads back |
| `RecordStore.PasteStore.IncrementViews` | lib/redis.ts:50-88 | on both the script path and the fallback, the store changes by exactly one increment step: absent leaves it unchanged, present stores the record with one more view under its key and changes nothing else. Absent gives null. Present gives the incremented record on the fallback and on the script path with a client that returns the string; with a client that deserialises the reply, the script path gives null. Every key stays of the form `paste:<id>` |
| `Clock.TestModeEnabled` | lib/time.ts:6 | test mode is on exactly when the variable is set to the one-character string `1`; any other value, such as `true` or ` 1`, leaves it off |
| `Clock.HeaderValue` | lib/time.ts:7 | the header's value when the request carries it, and null exactly when it does not |
| `Clock.CurrentTimeMs` | lib/time.ts:5-16 | wall-clock time when test mode is off, when there is no request, when the header is missing or empty, or when it does not parse; otherwise the parsed header value |
| `Clock.OverrideWins` | lib/time.ts:6-11 | in test mode, a header that parses to `p` gives exactly `p`, whatever the wall clock says |
| `Clock.TestHeaderRoundTrip` | lib/time.ts:7-11 | a test that sends the decimal notation of `t` in `x-test-now-ms` gets back exactly `t` |
| `CreateRoute.Member` | app/api/pastes/route.ts:21 | a property is defined exactly on an object that has that key, and then it is the value stored under that key |
| `CreateRoute.Message` | app/api/pastes/route.ts:18-38 | each field's error message starts with the name of that field: `content`, `ttl_seconds`, `max_views` |
| `CreateRoute.IsNonNullObject` | app/api/pastes/route.ts:17 | the body guard passes exactly for values that are truthy and whose `typeof` is `"object"` |
| `CreateRoute.IsPositiveInteger` | app/api/pastes/route.ts:30 | the guard passes exactly for a value whose `typeof` is `"number"`, that is an integer, and that is at least 1 |
| `CreateRoute.ValidateCreateRequest` | app/api/pastes/route.ts:12-50 | accepted data comes from an object body; its content is non-empty and has no leading or trailing whitespace; a TTL or view limit it carries is at least 1 |
| `CreateRoute.FirstFailure` | app/api/pastes/route.ts:17-40 | no error exactly when every guard passes; otherwise the error of a failing guard that has only passing guards before it |
| `CreateRoute.ValidationReportsFirstFailure` | app/api/pastes/route.ts:17-40 | guards run in the order body, content, ttl_seconds, max_views; the error returned is that of the first failing guard, and the body is accepted exactly when none fails |
| `CreateRoute.ValidIff` | app/api/pastes/route.ts:17-49 | a body is accepted exactly when it is an object, its content is a string with a non-whitespace character, and `ttl_seconds` and `max_views` are each absent or an integer of at least 1 |
| `CreateRoute.NonObjectBodyRejected` | app/api/pastes/route.ts:17-19 | null and every body that is not an object or array get "Invalid request body" |
| `CreateRoute.ValidDataPassesThrough` | app/api/pastes/route.ts:42-49 | accepted data carries the trimmed content, and carries `ttl_seconds` and `max_views` unchanged (absent stays absent) |
| `CreateRoute.NewPaste` | app/api/pastes/route.ts:68-74 | the record has the request's content, `created_at = now`, `views = 0` and `max_views` passed through; `expires_at` is set exactly for a non-zero TTL, and then lies `1000 * ttl` after `created_at` |
| `CreateRoute.RecordFromValidBody` | app/api/pastes/route.ts:64-74 | for an accepted body, the record starts unviewed at `now`; it expires exactly when a TTL was sent, at least 1000 ms after creation; it is unlimited exactly when no view limit was sent |
| `CreateRoute.CreatedPasteCountsViews` | app/api/pastes/route.ts:68-76 | a newly stored paste reads back as built, and after `n` increments it reads back with exactly `n` views and its other fields unchanged |
| `CreateRoute.Post` | app/api/pastes/route.ts:52-76 | a rejected body gives 400 with that field's message and writes nothing; an accepted one gives 201 with the id and stores the built record under `paste:<id>`, using the chosen clock time |

## Left out

- `getRedisClient` (lib/redis.ts:11-31): the environment lookup and the lazily created Upstash client are a foreign library. The store is a `PasteStore` object passed in.
- Serialisation: the model does not run the Lua script's `cjson.decode`/`cjson.encode`, Upstash's JSON encoding in `get`/`set`, or `JSON.parse` of the script reply. Stored values and the script's string reply are already-decoded records (`EvalReply.EncodedRecord`). Whether `redis.eval` deserialises the reply depends on the client's configuration, which is not part of this model; it is the parameter `clientDeserialises`.
- Concurrency is not modelled. The script's atomicity is taken as given, and the fallback path's lost-update race under concurrent requests is not modelled. Only the sequential effect of each path is.
- `PasteStore.IncrementViews`: `scriptAvailable` chooses whether `redis.eval` throws before the script runs. The case where the call fails after the script has already incremented is not modelled. In that case the fallback would count a second view.
- `nanoid` id generation: the id is a parameter of `Post`.
- The URL built from the `host` and `x-forwarded-proto` headers and `NODE_ENV` (app/api/pastes/route.ts:78-90), and the mapping of thrown errors to 400/500 responses by message text (app/api/pastes/route.ts:91-114), are transport glue. So is `request.json()` failing with "Invalid JSON".
- JavaScript number semantics: the model has no floating-point values, and its integers are unbounded. It does not capture `parseInt` returning `Infinity` for digit strings longer than about 309 digits, `parseInt("-0")` returning `-0` rather than 0, or `now + ttl_seconds * 1000` being rounded above 2^53.
- `Clock.TestHeaderRoundTrip`: "exactly `t`" holds in JavaScript only for |t| <= 2^53, because `parseInt` rounds larger digit strings to a double (`"9007199254740993"` gives 9007199254740992).
- `CreateRoute.RecordFromValidBody`: "expires exactly when a TTL was sent" holds in JavaScript only for `ttl_seconds` below about 1.8e305. Above that, `now + ttl_seconds * 1000` overflows to `Infinity`, `JSON.stringify` stores `expires_at` as `null`, and the paste never expires.
- The script's `cjson.encode` writes numbers with 14 significant digits, so `created_at` and `expires_at` values of 10^14 ms or more are rounded when the script path rewrites a record. The model does not capture this.
- `JsText.IsWhitespace` works on code points, while JavaScript strings are UTF-16 code units. The whitespace set is the ECMAScript WhiteSpace and LineTerminator set.
- Header names are assumed to be already lower case in `Clock.Request`. The model does not do case-insensitive lookup itself.
- The retrieval route app/api/pastes/[id]/route.ts, the preview page app/p/[id]/page.tsx, app/page.tsx, app/layout.tsx, app/p/[id]/not-found.tsx and the health check app/api/healthz/route.ts are not part of this model. That leaves out visibility, the view-limit check before and after the increment, and remaining views.

## Findings

| source | as written | input that shows it | evidently intended | confidence | as-written member | corrected member |
|---|---|---|---|---|---|---|
| lib/redis.ts:70-76 | the reply of `redis.eval` is accepted only if it is a string, and then parsed | any present paste, with a client that deserialises eval replies into the object the script's string encodes: the script stores the paste with one more view, and `incrementViews` returns null | return the incremented record, whichever form the reply takes | low: depends on the client library's reply handling; not executed | `RecordStore.ParsedReplyDropsRecord` | `RecordStore.FixedScriptPathIsIncrementStep` |
