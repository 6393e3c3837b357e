/** `JwtAuthGuard`: the guard in front of every non-public route. Before it
    lets Passport verify the token, it checks the Authorization header
    itself; afterwards it turns every failure into an UnauthorizedException.
    The route's public flag and Passport's verdict are inputs. */
module JwtGuard {

  import opened Exceptions
  import opened Patterns

  const TokenRequired := "Authentication token required"
  const AuthenticationFailed := "Authentication failed"

  /** A header value: a string, or some other value with its JavaScript
      truthiness and its `String(...)` rendering. */
  datatype HeaderValue = StringValue(s: string) | OtherValue(truthy: bool, rendered: string)

  predicate Truthy(v: HeaderValue) {
    match v
    case StringValue(s) => s != []
    case OtherValue(t, _) => t
  }

  function Rendered(v: HeaderValue): string {
    match v
    case StringValue(s) => s
    case OtherValue(_, r) => r
  }

  /** `headers.authorization || headers.Authorization || headers.AUTHORIZATION`:
      the first of the three that is present and truthy. (The two further
      alternatives read the same object again.) */
  function AuthHeader(headers: map<string, HeaderValue>): (h: Option<HeaderValue>)
    ensures h.Some? ==> Truthy(h.value)
    ensures h.None? <==> forall k :: k in {"authorization", "Authorization", "AUTHORIZATION"} && k in headers ==> !Truthy(headers[k])
    ensures h.Some? ==> exists k :: k in {"authorization", "Authorization", "AUTHORIZATION"} && k in headers && h.value == headers[k]
    ensures "authorization" in headers && Truthy(headers["authorization"]) ==> h == Some(headers["authorization"])
    ensures (!("authorization" in headers && Truthy(headers["authorization"]))
             && "Authorization" in headers && Truthy(headers["Authorization"]))
            ==> h == Some(headers["Authorization"])
    ensures (!("authorization" in headers && Truthy(headers["authorization"]))
             && !("Authorization" in headers && Truthy(headers["Authorization"]))
             && "AUTHORIZATION" in headers && Truthy(headers["AUTHORIZATION"]))
            ==> h == Some(headers["AUTHORIZATION"])
  {
    if "authorization" in headers && Truthy(headers["authorization"]) then Some(headers["authorization"])
    else if "Authorization" in headers && Truthy(headers["Authorization"]) then Some(headers["Authorization"])
    else if "AUTHORIZATION" in headers && Truthy(headers["AUTHORIZATION"]) then Some(headers["AUTHORIZATION"])
    else None
  }

  function TrimStart(s: string): (t: string)
    ensures |t| <= |s| && t == s[|s| - |t|..]
    ensures t != [] ==> !IsWhitespace(t[0])
    ensures forall i :: 0 <= i < |s| - |t| ==> IsWhitespace(s[i])
  {
    if s != [] && IsWhitespace(s[0]) then TrimStart(s[1..]) else s
  }

  function TrimEnd(s: string): (t: string)
    ensures |t| <= |s| && t == s[..|t|]
    ensures t != [] ==> !IsWhitespace(t[|t| - 1])
    ensures forall i :: |t| <= i < |s| ==> IsWhitespace(s[i])
  {
    if s != [] && IsWhitespace(s[|s| - 1]) then TrimEnd(s[..|s| - 1]) else s
  }

  /** `String.prototype.trim`: both ends stripped of `\s` characters. */
  function Trim(s: string): (t: string)
    ensures t != [] ==> !IsWhitespace(t[0]) && !IsWhitespace(t[|t| - 1])
    ensures exists a, b :: 0 <= a <= b <= |s| && t == s[a..b]
              && (forall i :: 0 <= i < a ==> IsWhitespace(s[i]))
              && (forall i :: b <= i < |s| ==> IsWhitespace(s[i]))
  {
    var u := TrimStart(s);
    var t := TrimEnd(u);
    var a := |s| - |u|;
    assert t == s[a..a + |t|];
    t
  }

  function LowerAscii(c: char): char {
    if 'A' <= c <= 'Z' then (c as int + 32) as char else c
  }

  /** `s.toLowerCase().startsWith('bearer ')` */
  predicate HasBearerPrefix(s: string) {
    |s| >= 7 && forall i :: 0 <= i < 7 ==> LowerAscii(s[i]) == "bearer "[i]
  }

  /** The two header checks, in order: a truthy header that is not blank, and
      whose trimmed text starts with "bearer " in any case. */
  predicate PassesHeaderChecks(headers: map<string, HeaderValue>) {
    var h := AuthHeader(headers);
    && h.Some?
    && !(h.value.StringValue? && |Trim(h.value.s)| == 0)
    && HasBearerPrefix(Trim(Rendered(h.value)))
  }

  /** A header that passes carries a token: after "bearer " there is at least
      one more character, since trimming leaves no space at the end. */
  lemma {:induction false} PassingHeaderCarriesToken(headers: map<string, HeaderValue>)
    requires PassesHeaderChecks(headers)
    ensures |Trim(Rendered(AuthHeader(headers).value))| >= 8
  {
    var t := Trim(Rendered(AuthHeader(headers).value));
    assert LowerAscii(t[6]) == ' ';
    assert IsWhitespace(t[6]);
  }

  /** Trailing whitespace is all `TrimEnd` removes from a string that ends
      otherwise in a non-space. */
  lemma {:induction false} TrimEndDropsPadding(base: string, pad: string)
    requires base != [] && !IsWhitespace(base[|base| - 1])
    requires forall i :: 0 <= i < |pad| ==> IsWhitespace(pad[i])
    ensures TrimEnd(base + pad) == base
  {
    if pad != [] {
      var n := |pad| - 1;
      assert (base + pad)[..|base + pad| - 1] == base + pad[..n];
      TrimEndDropsPadding(base, pad[..n]);
    }
  }

  /** A bare scheme is no token: "Bearer" alone, or followed only by
      whitespace, fails the prefix check. */
  lemma BareSchemeRejected(pad: string)
    requires forall i :: 0 <= i < |pad| ==> IsWhitespace(pad[i])
    ensures !PassesHeaderChecks(map["authorization" := StringValue("Bearer" + pad)])
  {
    var s := "Bearer" + pad;
    assert !IsWhitespace(s[0]);
    assert TrimStart(s) == s;
    TrimEndDropsPadding("Bearer", pad);
  }

  /** The header "Bearer <token>" passes, whatever the case of the scheme,
      for a token that does not start or end with whitespace. */
  lemma BearerTokenAccepted(scheme: string, token: string)
    requires |scheme| == 6 && forall i :: 0 <= i < 6 ==> LowerAscii(scheme[i]) == "bearer"[i]
    requires token != [] && !IsWhitespace(token[0]) && !IsWhitespace(token[|token| - 1])
    ensures PassesHeaderChecks(map["authorization" := StringValue(scheme + " " + token)])
  {
    var s := scheme + " " + token;
    TrimKeepsTrimmed(s);
    assert s[6] == ' ';
    forall i | 0 <= i < 6 ensures LowerAscii(s[i]) == "bearer "[i] {
      assert s[i] == scheme[i];
    }
  }

  /** A string that neither starts nor ends with whitespace is its own
      trimming. */
  lemma TrimKeepsTrimmed(s: string)
    requires s != [] && !IsWhitespace(s[0]) && !IsWhitespace(s[|s| - 1])
    ensures Trim(s) == s
  {
    assert TrimStart(s) == s;
    assert TrimEnd(s) == s;
  }

  /** What Passport's `canActivate` gave back: a plain boolean, an Observable
      that emits a value or fails, or a Promise that resolves or rejects. */
  datatype Delegated =
    | Returned(b: bool)
    | ObservableEmits(truthy: bool)
    | ObservableFails(error: Exception)
    | PromiseResolves(truthy: bool)
    | PromiseRejects(error: Exception)

  datatype Outcome = Allow | Deny(error: Exception)

  /** What the guard makes of Passport's result: a falsy verdict becomes
      "Authentication failed", an Observable's own failure passes through,
      and a rejected Promise keeps its error only if that is already a 401. */
  function AfterDelegation(d: Delegated): (o: Outcome)
    ensures o.Allow? <==> d in {Returned(true), ObservableEmits(true), PromiseResolves(true)}
    ensures o.Deny? && !d.ObservableFails? ==> IsUnauthorized(o.error)
    ensures d.ObservableFails? ==> o == Deny(d.error)
    ensures d.PromiseRejects? ==>
              o == Deny(if IsUnauthorized(d.error) then d.error else Unauthorized(AuthenticationFailed))
    ensures o.Deny? && !d.ObservableFails? && !d.PromiseRejects? ==> o == Deny(Unauthorized(AuthenticationFailed))
  {
    match d
    case Returned(b) => if b then Allow else Deny(Unauthorized(AuthenticationFailed))
    case ObservableEmits(t) => if t then Allow else Deny(Unauthorized(AuthenticationFailed))
    case ObservableFails(e) => Deny(e)
    case PromiseResolves(t) => if t then Allow else Deny(Unauthorized(AuthenticationFailed))
    case PromiseRejects(e) => Deny(if IsUnauthorized(e) then e else Unauthorized(AuthenticationFailed))
  }

  /** `canActivate`: a public route is let through at once; otherwise the
      header checks come first and Passport is asked only if they pass. */
  function CanActivate(isPublic: bool, headers: map<string, HeaderValue>, delegated: Delegated): (o: Outcome)
    ensures isPublic ==> o == Allow
    ensures !isPublic && !PassesHeaderChecks(headers) ==> o == Deny(Unauthorized(TokenRequired))
    ensures !isPublic && PassesHeaderChecks(headers) ==> o == AfterDelegation(delegated)
  {
    if isPublic then Allow
    else
      var h := AuthHeader(headers);
      if h.None? || (h.value.StringValue? && |Trim(h.value.s)| == 0) then Deny(Unauthorized(TokenRequired))
      else if !HasBearerPrefix(Trim(Rendered(h.value))) then Deny(Unauthorized(TokenRequired))
      else AfterDelegation(delegated)
  }

  /** On a protected route the guard never lets a request through without a
      header that passes both checks and Passport's approval, and every denial
      it produces itself is a 401; only an Observable's own failure passes
      through as it is. */
  lemma {:induction false} ProtectedRouteNeedsBoth(headers: map<string, HeaderValue>, delegated: Delegated)
    ensures CanActivate(false, headers, delegated).Allow? <==>
              PassesHeaderChecks(headers) && AfterDelegation(delegated).Allow?
    ensures var o := CanActivate(false, headers, delegated);
            o.Deny? && !delegated.ObservableFails? ==> IsUnauthorized(o.error)
  {
    if PassesHeaderChecks(headers) {
    } else {
      assert CanActivate(false, headers, delegated) == Deny(Unauthorized(TokenRequired));
    }
  }

  /** What Passport reports alongside a failed strategy. */
  datatype Info = Info(name: Option<string>, message: Option<string>)

  /** The causes `handleRequest` names, read from Passport's `info`. */
  predicate ExpiredToken(info: Option<Info>) {
    info.Some? && info.value.name == Some("TokenExpiredError")
  }

  predicate MalformedToken(info: Option<Info>) {
    info.Some? && info.value.name == Some("JsonWebTokenError")
  }

  predicate MissingToken(info: Option<Info>) {
    info.Some? && (info.value.message == Some("No auth token") || info.value.message == Some("jwt must be provided"))
  }

  const TokenExpired := "Token has expired"
  const InvalidToken := "Invalid token"

  /** `handleRequest(err, user, info)`: the user when there is no error and a
      user; otherwise the exception the guard throws, chosen in order: a 401
      from the strategy as it is, then the cause named by `info`, then the
      strategy's error, then a generic 401. */
  function HandleRequest<U>(err: Option<Exception>, user: Option<U>, info: Option<Info>): (r: Result<U>)
    ensures r.Ok? <==> err.None? && user.Some?
    ensures r.Ok? ==> r.value == user.value
    ensures err.Some? && IsUnauthorized(err.value) ==> r == Err(err.value)
    ensures r.Err? && !(err.Some? && IsUnauthorized(err.value)) ==>
              && (ExpiredToken(info) ==> r == Err(Unauthorized(TokenExpired)))
              && (!ExpiredToken(info) && MalformedToken(info) ==> r == Err(Unauthorized(InvalidToken)))
              && (!ExpiredToken(info) && !MalformedToken(info) && MissingToken(info) ==> r == Err(Unauthorized(TokenRequired)))
              && (!ExpiredToken(info) && !MalformedToken(info) && !MissingToken(info) ==>
                    r == if err.Some? then Err(err.value) else Err(Unauthorized(AuthenticationFailed)))
  {
    if err.None? && user.Some? then Ok(user.value)
    else if err.Some? && IsUnauthorized(err.value) then Err(err.value)
    else if ExpiredToken(info) then Err(Unauthorized(TokenExpired))
    else if MalformedToken(info) then Err(Unauthorized(InvalidToken))
    else if MissingToken(info) then Err(Unauthorized(TokenRequired))
    else if err.Some? then Err(err.value)
    else Err(Unauthorized(AuthenticationFailed))
  }

  /** With no error from the strategy, every failure is a 401 and its
      message names the cause exactly: each of the four messages is given
      for its own cause and for no other. */
  lemma MissingUserMessages<U>(info: Option<Info>)
    ensures var r := HandleRequest<U>(None, None, info);
            && r.Err? && IsUnauthorized(r.error)
            && (r.error == Unauthorized(TokenExpired) <==> ExpiredToken(info))
            && (r.error == Unauthorized(InvalidToken) <==> !ExpiredToken(info) && MalformedToken(info))
            && (r.error == Unauthorized(TokenRequired) <==>
                  !ExpiredToken(info) && !MalformedToken(info) && MissingToken(info))
            && (r.error == Unauthorized(AuthenticationFailed) <==>
                  !ExpiredToken(info) && !MalformedToken(info) && !MissingToken(info))
  {
  }

  /** An expired token and a malformed one are told apart, whatever else the
      strategy reported, unless it threw a 401 of its own. */
  lemma ExpiredAndInvalidDiffer<U>(err: Option<Exception>, user: Option<U>, expired: Option<Info>, malformed: Option<Info>)
    requires !(err.None? && user.Some?) && !(err.Some? && IsUnauthorized(err.value))
    requires ExpiredToken(expired) && MalformedToken(malformed)
    ensures HandleRequest(err, user, expired) == Err(Unauthorized(TokenExpired))
    ensures HandleRequest(err, user, malformed) == Err(Unauthorized(InvalidToken))
  {
  }
}
