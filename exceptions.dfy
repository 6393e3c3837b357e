/** Values thrown by the services, the guard and the database client, and the
    Option/Result wrappers the model uses in place of `throw`. */
module Exceptions {

  datatype Option<+T> = None | Some(value: T) {
    function GetOr(default: T): T {
      match this
      case Some(v) => v
      case None => default
    }
  }

  /** The `message` property of an HttpException's response object. */
  datatype MessageField =
    | Text(s: string)           // a string message
    | Texts(items: seq<string>) // an array of messages (validation errors)
    | NoMessage                 // absent, or of another type

  /** What `HttpException.getResponse()` returns: a bare string, or an object
      with optional `message` and `error` properties. */
  datatype HttpBody =
    | BodyText(s: string)
    | BodyObject(message: MessageField, error: Option<string>)

  /** A thrown value. `Http` covers every HttpException subclass (its class name
      and status), the two Prisma client errors keep what the filter reads, a
      `PlainError` is any other `Error`, and `NonError` anything thrown that is
      not an `Error` at all. */
  datatype Exception =
    | Http(className: string, status: int, response: HttpBody)
    | PrismaKnownRequest(code: string, message: string)
    | PrismaValidation(message: string)
    | PlainError(message: string)
    | NonError

  /** The exception classes the services throw, built as Nest builds them: the
      response is `{ statusCode, message, error: <reason phrase> }`. */
  function NotFound(message: string): Exception {
    Http("NotFoundException", 404, BodyObject(Text(message), Some("Not Found")))
  }

  function Conflict(message: string): Exception {
    Http("ConflictException", 409, BodyObject(Text(message), Some("Conflict")))
  }

  function BadRequest(message: string): Exception {
    Http("BadRequestException", 400, BodyObject(Text(message), Some("Bad Request")))
  }

  function Unauthorized(message: string): Exception {
    Http("UnauthorizedException", 401, BodyObject(Text(message), Some("Unauthorized")))
  }

  /** `e instanceof UnauthorizedException` */
  predicate IsUnauthorized(e: Exception) {
    e.Http? && e.className == "UnauthorizedException"
  }

  /** The outcome of a service call: a value, or the exception it throws. */
  datatype Result<+T> = Ok(value: T) | Err(error: Exception)

  /** Decimal rendering of an integer, as a template literal prints it: a
      minus sign for negatives, then the digits of the magnitude without
      leading zeros. */
  function IntToString(n: int): (s: string)
    ensures |s| >= 1
    ensures s[0] == '-' <==> n < 0
    ensures n >= 0 ==> IsDigits(s) && DigitsValue(s) == n
    ensures n < 0 ==> IsDigits(s[1..]) && DigitsValue(s[1..]) == -n && s[1] != '0'
  {
    if n < 0 then "-" + NatToString(-n) else NatToString(n)
  }

  predicate IsDigits(s: string) {
    forall i :: 0 <= i < |s| ==> '0' <= s[i] <= '9'
  }

  /** The number a string of decimal digits denotes. */
  function DigitsValue(s: string): nat
    requires IsDigits(s)
  {
    if |s| == 0 then 0 else DigitsValue(s[..|s| - 1]) * 10 + (s[|s| - 1] as int - '0' as int)
  }

  function NatToString(n: nat): (s: string)
    ensures |s| >= 1 && IsDigits(s)
    ensures DigitsValue(s) == n
    ensures |s| > 1 ==> s[0] != '0'
  {
    if n < 10 then [DigitChar(n)] else
      var s := NatToString(n / 10) + [DigitChar(n % 10)];
      assert s[..|s| - 1] == NatToString(n / 10);
      s
  }

  function DigitChar(d: nat): (c: char)
    requires d < 10
    ensures '0' <= c <= '9' && c as int - '0' as int == d
  {
    ['0', '1', '2', '3', '4', '5', '6', '7', '8', '9'][d]
  }

  /** Different numbers print differently, so a NotFound message names the
      one id it was raised for. */
  lemma IntToStringInjective(a: int, b: int)
    requires IntToString(a) == IntToString(b)
    ensures a == b
  {
    var s := IntToString(a);
    if a < 0 {
      assert DigitsValue(s[1..]) == -a == -b;
    } else {
      assert DigitsValue(s) == a == b;
    }
  }
}
