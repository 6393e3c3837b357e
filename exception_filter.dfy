/** `HttpExceptionFilter`: the catch-all filter that turns anything thrown
    into the JSON error envelope `{ statusCode, timestamp, path, error,
    message }` and writes the same status on the response. */
module ExceptionFilter {

  import opened Exceptions
  import JwtGuard
  import Auth
  import Store

  const InternalServerError := "Internal server error"

  datatype Classified = Classified(status: int, error: string, message: string)

  /** The envelope without its timestamp. */
  datatype Envelope = Envelope(statusCode: int, path: string, error: string, message: string)

  datatype Reply = Reply(status: int, body: Envelope)

  /** `items.join(', ')` */
  function Join(items: seq<string>): string {
    if |items| == 0 then ""
    else if |items| == 1 then items[0]
    else Join(items[..|items| - 1]) + ", " + items[|items| - 1]
  }

  /** A joined array is empty only when it has no element, or one empty one. */
  lemma {:induction false} JoinEmptyIff(items: seq<string>)
    ensures Join(items) == "" <==> |items| == 0 || (|items| == 1 && items[0] == "")
  {
    if |items| >= 2 {
      assert |Join(items)| >= 2;
    }
  }

  /** The `message` an HttpException's response object yields, before the
      fallback: an array joined, a string as is, anything else the default. */
  function MessageOf(m: MessageField): string {
    match m
    case Text(s) => s
    case Texts(items) => Join(items)
    case NoMessage => InternalServerError
  }

  /** `catch`: status, error and message for each kind of thrown value. */
  function Classify(e: Exception): (c: Classified)
    ensures e.Http? ==> c.status == e.status
    ensures !e.Http? ==> c.status in {400, 404, 409, 500}
    ensures e.Http? && e.response.BodyText? ==> c == Classified(e.status, e.className, e.response.s)
    ensures e.Http? && e.response.BodyObject? ==> c.message != "" && c.error != ""
    ensures e.Http? && e.response.BodyObject? && e.response.message.Text? && e.response.message.s != "" ==>
              c.message == e.response.message.s
    ensures e.Http? && e.response.BodyObject? && (e.response.message.NoMessage? || e.response.message == Text("")) ==>
              c.message == InternalServerError
    ensures e.Http? && e.response.BodyObject? ==>
              c.error == if e.response.error.Some? && e.response.error.value != "" then e.response.error.value else "Error"
    ensures e.PrismaKnownRequest? ==> c.status in {400, 404, 409}
    ensures e.PrismaValidation? ==> c == Classified(400, "Bad Request", "Validation error: Invalid data provided")
    ensures e.PlainError? ==> c == Classified(500, "Error", e.message)
    ensures e.NonError? ==> c == Classified(500, "Error", InternalServerError)
  {
    match e
    case Http(className, status, response) =>
      (match response
       case BodyText(s) => Classified(status, className, s)
       case BodyObject(message, error) =>
         var m := MessageOf(message);
         Classified(
           status,
           if error.Some? && error.value != "" then error.value else "Error",
           if m != "" then m else InternalServerError))
    case PrismaKnownRequest(code, _) =>
      if code == "P2002" then Classified(409, "Conflict", "Unique constraint violation")
      else if code == "P2025" then Classified(404, "Not Found", "Record not found")
      else if code == "P2003" then Classified(400, "Bad Request", "Foreign key constraint violation")
      else Classified(400, "Bad Request", "Database operation failed")
    case PrismaValidation(_) => Classified(400, "Bad Request", "Validation error: Invalid data provided")
    case PlainError(message) => Classified(500, "Error", message)
    case NonError => Classified(500, "Error", InternalServerError)
  }

  /** The reply written for a request to `path`: the status sent is the
      envelope's `statusCode`. */
  function Respond(e: Exception, path: string): (r: Reply)
    ensures r.status == r.body.statusCode
    ensures r.body.path == path
    ensures r.body == Envelope(Classify(e).status, path, Classify(e).error, Classify(e).message)
  {
    var c := Classify(e);
    Reply(c.status, Envelope(c.status, path, c.error, c.message))
  }

  /** An array message is reported joined, and falls back to the default
      only when the join is empty. */
  lemma ArrayMessages(status: int, className: string, items: seq<string>, error: Option<string>)
    ensures var c := Classify(Http(className, status, BodyObject(Texts(items), error)));
            c.message == if |items| == 0 || (|items| == 1 && items[0] == "") then InternalServerError else Join(items)
  {
    JoinEmptyIff(items);
  }

  /** The exceptions the services throw reach the client with their own
      status, reason phrase and message (a non-empty message is kept). */
  lemma ServiceExceptionsKeepStatus(m: string)
    requires m != ""
    ensures Classify(NotFound(m)) == Classified(404, "Not Found", m)
    ensures Classify(Conflict(m)) == Classified(409, "Conflict", m)
    ensures Classify(BadRequest(m)) == Classified(400, "Bad Request", m)
    ensures Classify(Unauthorized(m)) == Classified(401, "Unauthorized", m)
  {
  }

  /** The plain Errors of the product-type and user lookups become 500s, not
      404s. */
  lemma PlainLookupErrorsAre500()
    ensures Classify(PlainError("Product type not found")) == Classified(500, "Error", "Product type not found")
    ensures Classify(PlainError("User not found")) == Classified(500, "Error", "User not found")
  {
  }

  /** Prisma's known-request codes: a unique violation is a 409, a missing
      record a 404, a foreign-key violation a 400 with its own message, and
      every other code a 400 "Database operation failed"; the client error's
      own message is never shown. */
  lemma PrismaCodes(code: string, message: string)
    ensures var c := Classify(PrismaKnownRequest(code, message));
            && (code == "P2002" <==> c.status == 409)
            && (code == "P2025" <==> c.status == 404)
            && (c.status == 400 <==> code != "P2002" && code != "P2025")
            && (code == "P2002" ==> c == Classified(409, "Conflict", "Unique constraint violation"))
            && (code == "P2025" ==> c == Classified(404, "Not Found", "Record not found"))
            && (code == "P2003" ==> c == Classified(400, "Bad Request", "Foreign key constraint violation"))
            && (code !in {"P2002", "P2025", "P2003"} ==> c == Classified(400, "Bad Request", "Database operation failed"))
            && c == Classify(PrismaKnownRequest(code, ""))
  {
  }

  /** Whatever a protected route's header checks reject reaches the client
      as a 401 asking for a token, whatever Passport would have said. */
  lemma {:induction false} HeaderRejectionIs401(headers: map<string, JwtGuard.HeaderValue>, delegated: JwtGuard.Delegated)
    requires !JwtGuard.PassesHeaderChecks(headers)
    ensures var o := JwtGuard.CanActivate(false, headers, delegated);
            o.Deny? && Classify(o.error) == Classified(401, "Unauthorized", JwtGuard.TokenRequired)
  {
    assert JwtGuard.CanActivate(false, headers, delegated) == JwtGuard.Deny(Unauthorized(JwtGuard.TokenRequired));
  }

  /** A user stored without a password hash cannot log in, and the failed
      comparison reaches the client as a 500, not as a 401. */
  lemma PasswordlessLoginIs500(users: seq<Store.UserRow>, dto: Auth.LoginInput,
                               compare: (string, string) -> bool, sign: Auth.TokenPayload -> string)
    requires Auth.WithEmail(users, dto.email).Some?
    requires users[Auth.WithEmail(users, dto.email).value].data.password.None?
    ensures var r := Auth.LoginOn(users, dto, compare, sign);
            r.Err? && Classify(r.error) == Classified(500, "Error", "data and hash arguments required")
  {
  }
}
