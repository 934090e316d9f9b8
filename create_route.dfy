/**
 * The creation endpoint of app/api/pastes/route.ts: validation of the JSON
 * body, construction of the stored record from the validated data and the
 * current time, and the sequence validate, build, store of the POST handler.
 */
module CreateRoute {
  import opened Wrappers
  import opened JsText
  import opened RecordStore
  import opened Clock

  /**
   * A parsed JSON body. Numbers are split into the integral ones
   * (`Number.isInteger` holds) and all the others.
   */
  datatype Json =
    | Null
    | Bool(b: bool)
    | Str(s: string)
    | Int(i: int)
    | NonInteger
    | Array(elems: seq<Json>)
    | Object(fields: map<string, Json>)

  /** `body.name`, with `None` for `undefined`; an array has none of the request's properties. */
  function Member(body: Json, name: string): (r: Option<Json>)
    ensures r.Some? ==> body.Object? && name in body.fields && r.value == body.fields[name]
    ensures body.Object? && name in body.fields ==> r == Some(body.fields[name])
  {
    if body.Object? && name in body.fields then Some(body.fields[name]) else None
  }

  /** `CreatePasteRequest`; `None` for an absent optional field. */
  datatype CreatePasteRequest = CreatePasteRequest(content: string, ttlSeconds: Option<int>, maxViews: Option<int>)

  datatype ValidationError = InvalidBody | InvalidContent | InvalidTtlSeconds | InvalidMaxViews

  /** The error text the endpoint returns for each rejection. */
  function Message(e: ValidationError): (r: string)
    ensures e == InvalidContent ==> "content" <= r
    ensures e == InvalidTtlSeconds ==> "ttl_seconds" <= r
    ensures e == InvalidMaxViews ==> "max_views" <= r
  {
    match e
    case InvalidBody => "Invalid request body"
    case InvalidContent => "content is required and must be a non-empty string"
    case InvalidTtlSeconds => "ttl_seconds must be an integer >= 1"
    case InvalidMaxViews => "max_views must be an integer >= 1"
  }

  /** The result of `validateCreateRequest`: `{valid: true, data}` or `{valid: false, error}`. */
  datatype Validation = Valid(data: CreatePasteRequest) | Invalid(error: ValidationError)

  /** JavaScript's `typeof` of a parsed JSON value. */
  function TypeOf(v: Json): string
  {
    match v
    case Null => "object"
    case Bool(_) => "boolean"
    case Str(_) => "string"
    case Int(_) => "number"
    case NonInteger => "number"
    case Array(_) => "object"
    case Object(_) => "object"
  }

  /** JavaScript truthiness of a parsed JSON value; a non-integral JSON number is never zero or NaN. */
  predicate Truthy(v: Json)
  {
    match v
    case Null => false
    case Bool(b) => b
    case Str(s) => s != ""
    case Int(i) => i != 0
    case NonInteger => true
    case Array(_) => true
    case Object(_) => true
  }

  /** `body && typeof body === "object"`: JSON's falsy values and primitives fail; objects and arrays pass. */
  function IsNonNullObject(body: Json): (r: bool)
    ensures r <==> Truthy(body) && TypeOf(body) == "object"
  {
    body.Object? || body.Array?
  }

  /** `typeof v === "number" && Number.isInteger(v) && v >= 1`. */
  function IsPositiveInteger(v: Json): (r: bool)
    ensures r <==> TypeOf(v) == "number" && !v.NonInteger? && v.i >= 1
  {
    v.Int? && v.i >= 1
  }

  /** The integer an accepted optional numeric field carries, if present. */
  function IntValue(v: Option<Json>): Option<int>
  {
    if v.Some? && v.value.Int? then Some(v.value.i) else None
  }

  /** `validateCreateRequest(body)`. */
  function ValidateCreateRequest(body: Json): (r: Validation)
    ensures r.Valid? ==> body.Object?
    ensures r.Valid? ==>
      (r.data.content != [] && !IsWhitespace(r.data.content[0]) && !IsWhitespace(r.data.content[|r.data.content| - 1]))
    ensures r.Valid? && r.data.ttlSeconds.Some? ==> r.data.ttlSeconds.value >= 1
    ensures r.Valid? && r.data.maxViews.Some? ==> r.data.maxViews.value >= 1
  {
    if !IsNonNullObject(body) then Invalid(InvalidBody)
    else
      var content := Member(body, "content");
      var ttlSeconds := Member(body, "ttl_seconds");
      var maxViews := Member(body, "max_views");
      if !(content.Some? && content.value.Str? && Trim(content.value.s) != []) then Invalid(InvalidContent)
      else if ttlSeconds.Some? && !IsPositiveInteger(ttlSeconds.value) then Invalid(InvalidTtlSeconds)
      else if maxViews.Some? && !IsPositiveInteger(maxViews.value) then Invalid(InvalidMaxViews)
      else Valid(CreatePasteRequest(Trim(content.value.s), IntValue(ttlSeconds), IntValue(maxViews)))
  }

  // ---------------------------------------------------------------------
  // What validation accepts, stated field by field.

  /** The content is a string with at least one character that is not whitespace. */
  ghost predicate ContentAcceptable(v: Option<Json>)
  {
    v.Some? && v.value.Str? && HasVisibleChar(v.value.s)
  }

  /** An optional numeric field is absent, or an integer of at least 1. */
  predicate FieldAcceptable(v: Option<Json>)
  {
    v.None? || IsPositiveInteger(v.value)
  }

  /** One guard of the chain: whether it passes and the error it reports if not. */
  datatype Check = Check(passes: bool, error: ValidationError)

  /** The guards in the order the endpoint runs them. */
  ghost function Checks(body: Json): seq<Check>
  {
    [ Check(IsNonNullObject(body), InvalidBody),
      Check(ContentAcceptable(Member(body, "content")), InvalidContent),
      Check(FieldAcceptable(Member(body, "ttl_seconds")), InvalidTtlSeconds),
      Check(FieldAcceptable(Member(body, "max_views")), InvalidMaxViews) ]
  }

  /** The error of the first guard that fails, if any fails. */
  function FirstFailure(cs: seq<Check>): (r: Option<ValidationError>)
    ensures r.None? <==> forall i :: 0 <= i < |cs| ==> cs[i].passes
    ensures r.Some? ==>
      exists i :: (0 <= i < |cs| && !cs[i].passes && cs[i].error == r.value && forall j :: 0 <= j < i ==> cs[j].passes)
  {
    if cs == [] then None
    else if !cs[0].passes then Some(cs[0].error)
    else
      var rest := FirstFailure(cs[1..]);
      if rest.Some? then
        ghost var i :| 0 <= i < |cs[1..]| && !cs[1..][i].passes && cs[1..][i].error == rest.value &&
          forall j :: 0 <= j < i ==> cs[1..][j].passes;
        assert !cs[i + 1].passes && forall j :: 0 <= j < i + 1 ==> cs[j].passes;
        rest
      else
        rest
  }

  /** The error reported is that of the first failing guard, and the body is accepted exactly when none fails. */
  lemma ValidationReportsFirstFailure(body: Json)
    ensures match FirstFailure(Checks(body))
      case Some(e) => ValidateCreateRequest(body) == Invalid(e)
      case None => ValidateCreateRequest(body).Valid?
  {
    var content := Member(body, "content");
    if content.Some? && content.value.Str? {
      TrimEmptyIff(content.value.s);
    }
    var cs := Checks(body);
    var c1, c2, c3 := cs[1..], cs[2..], cs[3..];
    assert c1[1..] == c2 && c2[1..] == c3 && c3[1..] == [];
    assert FirstFailure(c3) == if !cs[3].passes then Some(cs[3].error) else None;
    assert FirstFailure(c2) == if !cs[2].passes then Some(cs[2].error) else FirstFailure(c3);
    assert FirstFailure(c1) == if !cs[1].passes then Some(cs[1].error) else FirstFailure(c2);
  }

  /** A body is accepted exactly when it is an object whose content has visible text and whose optional fields are integers of at least 1. */
  lemma ValidIff(body: Json)
    ensures ValidateCreateRequest(body).Valid? <==>
      && body.Object?
      && ContentAcceptable(Member(body, "content"))
      && FieldAcceptable(Member(body, "ttl_seconds"))
      && FieldAcceptable(Member(body, "max_views"))
  {
    var content := Member(body, "content");
    if content.Some? && content.value.Str? {
      TrimEmptyIff(content.value.s);
    }
  }

  /** `null` and every non-object body get the body error, before any field is looked at. */
  lemma NonObjectBodyRejected(body: Json)
    requires !body.Object? && !body.Array?
    ensures ValidateCreateRequest(body) == Invalid(InvalidBody)
    ensures Message(ValidateCreateRequest(body).error) == "Invalid request body"
  {
  }

  /** Accepted data carries the trimmed content and the two optional fields unchanged. */
  lemma ValidDataPassesThrough(body: Json)
    requires ValidateCreateRequest(body).Valid?
    ensures var d := ValidateCreateRequest(body).data;
      && Member(body, "content").Some? && Member(body, "content").value.Str?
      && d.content == Trim(Member(body, "content").value.s)
      && (Member(body, "ttl_seconds").None? <==> d.ttlSeconds.None?)
      && (d.ttlSeconds.Some? ==> Member(body, "ttl_seconds") == Some(Int(d.ttlSeconds.value)))
      && (Member(body, "max_views").None? <==> d.maxViews.None?)
      && (d.maxViews.Some? ==> Member(body, "max_views") == Some(Int(d.maxViews.value)))
  {
  }

  // ---------------------------------------------------------------------
  // The record built by the POST handler.

  /**
   * The `PasteData` literal of the POST handler: created now, no views yet,
   * `expires_at` set only for a truthy (non-zero) `ttl_seconds`, and
   * `max_views ?? null`.
   */
  function NewPaste(data: CreatePasteRequest, now: int): (p: PasteData)
    ensures p.content == data.content && p.createdAt == now && p.views == 0
    ensures p.maxViews == data.maxViews
    ensures p.expiresAt.Some? <==> data.ttlSeconds.Some? && data.ttlSeconds.value != 0
    ensures p.expiresAt.Some? ==> p.expiresAt.value - p.createdAt == 1000 * data.ttlSeconds.value
  {
    PasteData(
      content := data.content,
      createdAt := now,
      expiresAt := if data.ttlSeconds.Some? && data.ttlSeconds.value != 0 then Some(now + data.ttlSeconds.value * 1000) else None,
      maxViews := data.maxViews,
      views := 0)
  }

  /**
   * For an accepted body, the record starts unviewed at `now`, expires exactly
   * when a TTL was sent and then at least a second later, and is unlimited
   * exactly when no view limit was sent.
   */
  lemma RecordFromValidBody(body: Json, now: int)
    requires ValidateCreateRequest(body).Valid?
    ensures var p := NewPaste(ValidateCreateRequest(body).data, now);
      && p.views == 0 && p.createdAt == now
      && p.content == Trim(Member(body, "content").value.s)
      && (p.expiresAt.Some? <==> Member(body, "ttl_seconds").Some?)
      && (p.expiresAt.Some? ==> Member(body, "ttl_seconds") == Some(Int((p.expiresAt.value - now) / 1000)))
      && (p.expiresAt.Some? ==> p.expiresAt.value >= p.createdAt + 1000)
      && (p.maxViews.None? <==> Member(body, "max_views").None?)
      && (p.maxViews.Some? ==> p.maxViews.value >= 1)
  {
    ValidDataPassesThrough(body);
  }

  /**
   * A freshly stored paste reads back as built, and after `n` view
   * increments it reads back with exactly `n` views and nothing else changed.
   */
  lemma CreatedPasteCountsViews(m: map<string, PasteData>, data: CreatePasteRequest, now: int, id: string, n: nat)
    ensures Lookup(IncrementTimes(Stored(m, id, NewPaste(data, now)), id, n), id) ==
      Some(NewPaste(data, now).(views := n))
  {
    var m0 := Stored(m, id, NewPaste(data, now));
    IncrementTimesAddsN(m0, id, n);
  }

  // ---------------------------------------------------------------------
  // The POST handler, from the parsed body to the store write.

  /** What the handler answers: 201 with the new id, or 400 with the validation message. */
  datatype CreateOutcome = Created(id: string) | Rejected(status: int, message: string)

  /**
   * The core of `POST /api/pastes`: validate the body; on failure answer 400
   * and write nothing; on success take the current time from the clock,
   * build the record and store it under the supplied fresh `id`.
   */
  method Post(store: PasteStore, testModeVar: Option<string>, request: Request, body: Json, wallClockMs: int, id: string)
    returns (outcome: CreateOutcome)
    requires store.Valid()
    modifies store
    ensures store.Valid()
    ensures ValidateCreateRequest(body).Invalid? ==>
      && outcome == Rejected(400, Message(ValidateCreateRequest(body).error))
      && store.contents == old(store.contents)
    ensures ValidateCreateRequest(body).Valid? ==>
      && outcome == Created(id)
      && store.contents == old(store.contents)[Key(id) :=
           NewPaste(ValidateCreateRequest(body).data, CurrentTimeMs(testModeVar, Some(request), wallClockMs))]
  {
    var validation := ValidateCreateRequest(body);
    if validation.Invalid? {
      return Rejected(400, Message(validation.error));
    }
    var now := CurrentTimeMs(testModeVar, Some(request), wallClockMs);
    var paste := NewPaste(validation.data, now);
    store.SetPaste(id, paste);
    outcome := Created(id);
  }
}
