/** The `/api/users` route: GET lists the users, POST validates a candidate
    user (presence, then type, then email shape) and inserts it. Every exit
    answers with the envelope `{ success, data, error }`. The awaited database
    calls are not simulated: their outcome is a parameter. */
module UsersRoute {
  import opened JsSemantics
  import EmailCheck

  const Required := "Name and email are required"
  const InvalidTypes := "Invalid input types"
  const InvalidEmail := "Invalid email format"
  const EmailExists := "Email already exists"
  const CreateFailed := "Failed to create user"
  const FetchFailed := "Failed to fetch users"

  /** PostgreSQL's SQLSTATE for `unique_violation`. */
  const UniqueViolation := "23505"

  /** What `await request.json()` gives: a JSON value, or a throw on malformed text. */
  datatype RequestBody = Malformed | Parsed(json: Json)

  /** The `code` property of a thrown object: absent, a string, or any other value. */
  datatype CodeProperty = NoCode | StringCode(code: string) | OtherCode

  /** A thrown value: an object (an `Error`, possibly with a `code`), or anything
      the catch block's `error && typeof error === "object"` test turns away
      (a primitive, null, a function). */
  datatype Thrown = NotAnObject | ErrorObject(code: CodeProperty)

  /** The outcome of an awaited query: the rows it returns, each as the JSON it
      serializes to, or the value it throws. */
  datatype DbOutcome = Returned(rows: seq<Json>) | Raised(error: Thrown)

  /** The response body. `data` is None when it is `undefined` (and so dropped
      from the serialized body); `error` is None when it is `null`. */
  datatype Envelope = Envelope(success: bool, data: Option<Json>, error: Option<string>)

  datatype Response = Response(status: int, body: Envelope)

  function FailureResponse(status: int, message: string): Response {
    Response(status, Envelope(false, Some(JNull), Some(message)))
  }

  /** The SyntaxError of malformed JSON, and the TypeError of destructuring
      `null`: error objects with no `code`. */
  const ParseError := ErrorObject(NoCode)
  const DestructureError := ErrorObject(NoCode)

  // ---------------------------------------------------------------- GET

  function Get(select: DbOutcome): (r: Response)
    ensures r.body.success <==> select.Returned?
    ensures select.Returned? ==> r.status == 200 && r.body.data == Some(JArr(select.rows)) && r.body.error == None
    ensures select.Raised? ==> r.status == 500 && r.body.data == Some(JNull) && r.body.error == Some(FetchFailed)
  {
    match select
    case Returned(rows) => Response(200, Envelope(true, Some(JArr(rows)), None))
    case Raised(_) => FailureResponse(500, FetchFailed)
  }

  // ---------------------------------------------------------------- POST

  /** `const { name, email } = body` on a non-null JSON value: a property of an
      object, and `undefined` for every other value (a number, string, boolean
      or array has no own or inherited `name` or `email`; other keys, such as
      `length`, are never read). */
  function Property(json: Json, key: string): (v: Option<Json>)
    requires key in {"name", "email"}
    ensures v.Some? ==> json.JObj? && key in json.fields && v.value == json.fields[key]
    ensures json.JObj? && key in json.fields ==> v.Some?
  {
    match json
    case JObj(fields) => if key in fields then Some(fields[key]) else None
    case _ => None
  }

  /** The field `key` of a parsed body; None also for a body that never parsed. */
  function BodyField(body: RequestBody, key: string): Option<Json>
    requires key in {"name", "email"}
  {
    if body.Parsed? then Property(body.json, key) else None
  }

  /** Where the validation chain leaves a request: rejected with a message, thrown
      before validation, or passed to the insert with these values. */
  datatype Gate = Rejected(message: string) | Throws(error: Thrown) | Accepted(name: string, email: string)

  function Validate(body: RequestBody): (g: Gate)
    ensures g.Throws? <==> body == Malformed || body == Parsed(JNull)
    ensures g.Throws? ==> g.error.ErrorObject? && g.error.code == NoCode
    ensures g.Rejected? ==> g.message in {Required, InvalidTypes, InvalidEmail}
    ensures g.Accepted? ==>
      && BodyField(body, "name") == Some(JStr(g.name)) && g.name != ""
      && BodyField(body, "email") == Some(JStr(g.email)) && EmailCheck.IsEmailShaped(g.email)
  {
    match body
    case Malformed => Throws(ParseError)
    case Parsed(json) =>
      if json == JNull then Throws(DestructureError)
      else
        var name := Property(json, "name");
        var email := Property(json, "email");
        if !Truthy(name) || !Truthy(email) then Rejected(Required)
        else if !name.value.JStr? || !email.value.JStr? then Rejected(InvalidTypes)
        else if !EmailCheck.MatchesEmailPattern(email.value.s) then Rejected(InvalidEmail)
        else
          EmailCheck.PatternIffShape(email.value.s);
          Accepted(name.value.s, email.value.s)
  }

  /** The catch block's test: a truthy object whose `code` is the string "23505". */
  predicate IsUniqueViolation(e: Thrown)
    ensures IsUniqueViolation(e) <==> e == ErrorObject(StringCode("23505"))
    ensures e == ParseError || e == DestructureError ==> !IsUniqueViolation(e)
  {
    e.ErrorObject? && e.code == StringCode(UniqueViolation)
  }

  /** The catch block: a uniqueness violation is a conflict, anything else a
      server error. */
  function TranslateError(e: Thrown): (r: Response)
    ensures r.status == 409 <==> IsUniqueViolation(e)
    ensures r.status == 409 ==> r.body.error == Some(EmailExists)
    ensures r.status != 409 ==> r.status == 500 && r.body.error == Some(CreateFailed)
    ensures !r.body.success && r.body.data == Some(JNull)
  {
    if IsUniqueViolation(e) then FailureResponse(409, EmailExists)
    else FailureResponse(500, CreateFailed)
  }

  /** The POST handler, given the outcome the insert would have if reached. */
  function Post(body: RequestBody, insert: DbOutcome): (r: Response)
    ensures r.status in {201, 400, 409, 500}
    ensures r.body.success <==> r.status == 201
    ensures r.body.success ==> r.body.error == None
    ensures !r.body.success ==> r.body.data == Some(JNull) && r.body.error.Some?
    ensures r.status == 400 <==> Validate(body).Rejected?
    ensures r.status == 201 <==> Validate(body).Accepted? && insert.Returned?
    ensures r.status == 409 <==> Validate(body).Accepted? && insert.Raised? && IsUniqueViolation(insert.error)
    ensures Validate(body).Rejected? ==> r == FailureResponse(400, Validate(body).message)
    ensures Validate(body).Throws? ==> r == TranslateError(Validate(body).error)
    ensures Validate(body).Accepted? && insert.Raised? ==> r == TranslateError(insert.error)
  {
    match Validate(body)
    case Rejected(message) => FailureResponse(400, message)
    case Throws(e) => TranslateError(e)
    case Accepted(_, _) =>
      match insert
      case Returned(rows) => Response(201, Envelope(true, if |rows| > 0 then Some(rows[0]) else None, None))
      case Raised(e) => TranslateError(e)
  }

  // ---------------------------------------------------------------- properties

  /** A rejected or thrown request never reaches the insert: its response does
      not depend on what the insert would have done. */
  lemma NotAcceptedNeverInserts(body: RequestBody, insert1: DbOutcome, insert2: DbOutcome)
    requires !Validate(body).Accepted?
    ensures Post(body, insert1) == Post(body, insert2)
  {
  }

  /** A falsy `name` or `email` (absent, null, false, 0 or "") is reported as
      missing, whatever its type. */
  lemma FalsyFieldIsRequired(json: Json, insert: DbOutcome)
    requires json != JNull
    requires !Truthy(Property(json, "name")) || !Truthy(Property(json, "email"))
    ensures Post(Parsed(json), insert) == FailureResponse(400, Required)
  {
  }

  /** A body that is a number, string, boolean or array has neither field, and
      is reported as missing fields rather than as a server error. */
  lemma NonObjectBodyIsRequired(json: Json, insert: DbOutcome)
    requires !json.JObj? && json != JNull
    ensures Post(Parsed(json), insert) == FailureResponse(400, Required)
  {
  }

  /** Presence is checked before type: a truthy field that is not a string is
      an invalid type, never a missing field. */
  lemma TruthyNonStringIsInvalidType(json: Json, insert: DbOutcome)
    requires json != JNull
    requires Truthy(Property(json, "name")) && Truthy(Property(json, "email"))
    requires !Property(json, "name").value.JStr? || !Property(json, "email").value.JStr?
    ensures Post(Parsed(json), insert) == FailureResponse(400, InvalidTypes)
  {
  }

  /** An email-format rejection happens only for two non-empty strings whose
      email fails the pattern. */
  lemma InvalidEmailOnlyForStrings(body: RequestBody, insert: DbOutcome)
    requires Post(body, insert).body.error == Some(InvalidEmail)
    ensures BodyField(body, "name").Some? && BodyField(body, "name").value.JStr? && BodyField(body, "name").value.s != ""
    ensures BodyField(body, "email").Some? && BodyField(body, "email").value.JStr?
    ensures var email := BodyField(body, "email").value.s;
      email != "" && !EmailCheck.IsEmailShaped(email)
  {
    var email := BodyField(body, "email");
    if email.Some? && email.value.JStr? {
      EmailCheck.PatternIffShape(email.value.s);
    }
  }

  /** Two string fields are classified by the email alone: a non-empty name
      and a non-empty email are accepted exactly when the email has the email
      shape, and are otherwise an email-format rejection. */
  lemma StringFieldsClassified(json: Json, name: string, email: string)
    requires Property(json, "name") == Some(JStr(name)) && name != ""
    requires Property(json, "email") == Some(JStr(email)) && email != ""
    ensures Validate(Parsed(json)) ==
      if EmailCheck.IsEmailShaped(email) then Accepted(name, email) else Rejected(InvalidEmail)
  {
    EmailCheck.PatternIffShape(email);
  }

  /** The name is only required to be a non-empty string, never trimmed: a name
      made only of whitespace is accepted with any valid email. */
  lemma BlankNameAccepted(json: Json, name: string, email: string)
    requires Property(json, "name") == Some(JStr(name))
    requires name != "" && forall k | 0 <= k < |name| :: IsWhitespace(name[k])
    requires Property(json, "email") == Some(JStr(email)) && EmailCheck.IsEmailShaped(email)
    ensures Validate(Parsed(json)) == Accepted(name, email)
  {
    EmailCheck.PatternIffShape(email);
  }

  /** A valid request whose insert returns the new row answers 201 with that row. */
  lemma CreatedReturnsRow(body: RequestBody, rows: seq<Json>)
    requires Validate(body).Accepted? && |rows| > 0
    ensures Post(body, Returned(rows)) == Response(201, Envelope(true, Some(rows[0]), None))
  {
  }

  /** A malformed body and a `null` body fail inside the try block and are
      reported as a server error, not as a validation failure. */
  lemma UnparsableBodyIsServerError(insert: DbOutcome)
    ensures Post(Malformed, insert) == FailureResponse(500, CreateFailed)
    ensures Post(Parsed(JNull), insert) == FailureResponse(500, CreateFailed)
  {
  }
}
