/**
 * The request helpers of `AuthController` and its `verifyToken` and `logout`
 * decisions.  A request is its cookies (possibly none at all), its headers
 * by name (the container matches names without regard to case, so the map is
 * keyed by the names the controller asks for), its query parameters and the
 * peer address.  Token and session checks are oracles.
 */
module AuthControl {
  import opened Wrappers
  import opened Text
  import opened SessionValidation

  datatype Cookie = Cookie(name: string, value: string)

  datatype HttpRequest = HttpRequest(
    cookies: Option<seq<Cookie>>,
    headers: map<string, string>,
    parameters: map<string, string>,
    remoteAddr: string)

  const BEARER: string := "Bearer "

  function Header(request: HttpRequest, name: string): Option<string> {
    if name in request.headers then Some(request.headers[name]) else None
  }

  function Parameter(request: HttpRequest, name: string): Option<string> {
    if name in request.parameters then Some(request.parameters[name]) else None
  }

  /** A header that is present and not empty. */
  function NonEmptyHeader(request: HttpRequest, name: string): (r: Option<string>)
    ensures r.Some? <==> name in request.headers && request.headers[name] != ""
    ensures r.Some? ==> r.value == request.headers[name]
  {
    var h := Header(request, name);
    if h.Some? && h.value != "" then h else None
  }

  /** The value of the first cookie called `name`, scanning in order. */
  function FirstCookie(cookies: seq<Cookie>, name: string): Option<string> {
    if cookies == [] then None
    else if cookies[0].name == name then Some(cookies[0].value)
    else FirstCookie(cookies[1..], name)
  }

  /** The scan finds a cookie exactly when one has the name, and then the earliest one. */
  lemma {:induction false} FirstCookieIsEarliest(cookies: seq<Cookie>, name: string)
    ensures FirstCookie(cookies, name).None? <==> forall i :: 0 <= i < |cookies| ==> cookies[i].name != name
    ensures var r := FirstCookie(cookies, name);
            r.Some? ==> exists i :: 0 <= i < |cookies| && cookies[i] == Cookie(name, r.value)
                                   && forall j :: 0 <= j < i ==> cookies[j].name != name
  {
    if cookies != [] && cookies[0].name != name {
      FirstCookieIsEarliest(cookies[1..], name);
      var r := FirstCookie(cookies, name);
      if r.Some? {
        var i :| 0 <= i < |cookies[1..]| && cookies[1..][i] == Cookie(name, r.value)
                 && forall j :: 0 <= j < i ==> cookies[1..][j].name != name;
        assert cookies[i + 1] == Cookie(name, r.value);
        assert forall j :: 0 < j < i + 1 ==> cookies[j] == cookies[1..][j - 1];
      }
      if forall i :: 0 <= i < |cookies[1..]| ==> cookies[1..][i].name != name {
        assert forall i :: 0 < i < |cookies| ==> cookies[i] == cookies[1..][i - 1];
      }
    } else if cookies != [] {
      assert cookies[0] == Cookie(name, cookies[0].value);
    }
  }

  /** The request's cookie called `name`, if it sent cookies and one has that name. */
  function CookieValue(request: HttpRequest, name: string): Option<string> {
    if request.cookies.Some? then FirstCookie(request.cookies.value, name) else None
  }

  /**
   * `extractToken`: the `accessToken` cookie, however empty; else a non-empty
   * `x-auth-token` header; else what follows `Bearer ` in `Authorization`
   * (section 2.1 of RFC 6750, with the scheme matched case-sensitively); else
   * none.
   */
  function ExtractToken(request: HttpRequest): (r: Option<string>)
    ensures CookieValue(request, "accessToken").Some? ==> r == CookieValue(request, "accessToken")
    ensures CookieValue(request, "accessToken").None? && NonEmptyHeader(request, "x-auth-token").Some? ==>
              r == NonEmptyHeader(request, "x-auth-token")
    ensures CookieValue(request, "accessToken").None? && NonEmptyHeader(request, "x-auth-token").None? ==>
              var auth := Header(request, "Authorization");
              && (r.Some? <==> auth.Some? && BEARER <= auth.value)
              && (r.Some? ==> auth.value == BEARER + r.value)
  {
    var cookie := CookieValue(request, "accessToken");
    if cookie.Some? then cookie
    else
      var token := NonEmptyHeader(request, "x-auth-token");
      if token.Some? then token
      else
        var auth := Header(request, "Authorization");
        if auth.Some? && BEARER <= auth.value then
          assert auth.value == BEARER + auth.value[|BEARER|..];
          Some(auth.value[|BEARER|..])
        else None
  }

  /** `extractSessionId`: the `sessionId` cookie; else a non-empty `x-session-id` header; else the `sessionId` parameter. */
  function ExtractSessionId(request: HttpRequest): (r: Option<string>)
    ensures CookieValue(request, "sessionId").Some? ==> r == CookieValue(request, "sessionId")
    ensures CookieValue(request, "sessionId").None? && NonEmptyHeader(request, "x-session-id").Some? ==>
              r == NonEmptyHeader(request, "x-session-id")
    ensures CookieValue(request, "sessionId").None? && NonEmptyHeader(request, "x-session-id").None? ==>
              r == Parameter(request, "sessionId")
  {
    var cookie := CookieValue(request, "sessionId");
    if cookie.Some? then cookie
    else
      var header := NonEmptyHeader(request, "x-session-id");
      if header.Some? then header else Parameter(request, "sessionId")
  }

  /** Only commas: Java's `split(",")` drops every trailing empty field, leaving no fields at all. */
  predicate OnlyCommas(s: string) {
    forall i :: 0 <= i < |s| ==> s[i] == ','
  }

  /**
   * `s.split(",")[0]`: the text before the first comma (all of `s` when there
   * is none), or none when `s` is all commas and the index throws.
   */
  function FirstField(s: string): (r: Option<string>)
    requires s != ""
    ensures r.None? <==> OnlyCommas(s)
    ensures r.Some? ==> r.value <= s && ',' !in r.value && (|r.value| == |s| || s[|r.value|] == ',')
  {
    if OnlyCommas(s) then None
    else
      var k := IndexOf(s, ',');
      var field := if k < 0 then s else s[..k];
      assert ',' !in field by {
        forall i | 0 <= i < |field|
          ensures field[i] != ','
        {
          assert field[i] == s[i];
        }
      }
      Some(field)
  }

  /**
   * `getClientIpAddress`: the trimmed first field of a non-empty
   * `X-Forwarded-For`; else a non-empty `X-Real-IP`; else the peer address.
   * None when the forwarded header holds only commas and the lookup throws.
   */
  function ClientIpAddress(request: HttpRequest): (r: Option<string>)
    ensures var xff := NonEmptyHeader(request, "X-Forwarded-For");
            && (xff.Some? ==> r == (match FirstField(xff.value) case None => None case Some(f) => Some(Trim(f))))
            && (xff.None? && NonEmptyHeader(request, "X-Real-IP").Some? ==> r == NonEmptyHeader(request, "X-Real-IP"))
            && (xff.None? && NonEmptyHeader(request, "X-Real-IP").None? ==> r == Some(request.remoteAddr))
  {
    var xff := NonEmptyHeader(request, "X-Forwarded-For");
    if xff.Some? then
      match FirstField(xff.value)
      case None => None
      case Some(f) => Some(Trim(f))
    else
      var realIp := NonEmptyHeader(request, "X-Real-IP");
      if realIp.Some? then realIp else Some(request.remoteAddr)
  }

  /** A comma-only forwarded header makes the lookup throw. */
  lemma CommaOnlyForwardedThrows(request: HttpRequest)
    requires Header(request, "X-Forwarded-For") == Some(",")
    ensures ClientIpAddress(request).None?
  {
    assert OnlyCommas(",");
  }

  /** A forwarded chain yields its first hop, trimmed, whatever follows the first comma. */
  lemma ForwardedFirstHop(request: HttpRequest, hop: string, rest: string)
    requires hop != "" && ',' !in hop
    requires Header(request, "X-Forwarded-For") == Some(hop + "," + rest)
    ensures ClientIpAddress(request) == Some(Trim(hop))
  {
    FirstFieldOfChain(hop, rest);
    assert NonEmptyHeader(request, "X-Forwarded-For") == Some(hop + "," + rest);
  }

  /** The first field of `hop,rest` is `hop` when `hop` holds no comma. */
  lemma FirstFieldOfChain(hop: string, rest: string)
    requires hop != "" && ',' !in hop
    ensures FirstField(hop + "," + rest) == Some(hop)
  {
    var s := hop + "," + rest;
    assert s[0] == hop[0];
    assert !OnlyCommas(s);
    var k := IndexOf(s, ',');
    assert s[|hop|] == ',';
    assert forall i :: 0 <= i < |hop| ==> s[i] == hop[i] && s[i] != ',';
    assert k == |hop|;
    assert s[..|hop|] == hop;
  }

  /** `TokenVerifyResponse` with its HTTP status; the user carries only its id. */
  datatype VerifyResponse = VerifyResponse(status: int, valid: bool, message: string, userId: Option<string>)

  const MISSING_TOKEN_OR_SESSION: string := "토큰 또는 세션 ID가 필요합니다."
  const INVALID_TOKEN: string := "유효하지 않은 토큰입니다."
  const EXPIRED_SESSION: string := "만료된 세션입니다."
  const TOKEN_VALID: string := "토큰이 유효합니다."
  const VERIFY_FAILED: string := "토큰 검증 중 오류가 발생했습니다."

  /**
   * `verifyToken`.  `validateToken` is the token check; `extractUserId` gives
   * none when it throws, as `validate` does for the session check.
   */
  function VerifyToken<S>(request: HttpRequest, validateToken: string -> bool, extractUserId: string -> Option<string>,
                          validate: (string, string) -> Option<SessionValidationResult<S>>): (r: VerifyResponse)
    ensures r.status in {200, 400, 401}
    ensures r.valid <==> r.status == 200
    ensures r.status == 400 <==> ExtractToken(request).None? || ExtractSessionId(request).None?
    ensures r.status == 200 ==>
      var token, sessionId := ExtractToken(request).value, ExtractSessionId(request).value;
      && validateToken(token) && extractUserId(token).Some?
      && r.userId == extractUserId(token)
      && validate(extractUserId(token).value, sessionId).Some? && validate(extractUserId(token).value, sessionId).value.isValid
    ensures r.status != 200 ==> r.userId.None?
    ensures r.status == 400 ==> r.message == MISSING_TOKEN_OR_SESSION
    ensures ExtractToken(request).Some? && ExtractSessionId(request).Some? ==>
      var token, sessionId := ExtractToken(request).value, ExtractSessionId(request).value;
      && (!validateToken(token) ==> r.status == 401 && r.message == INVALID_TOKEN)
      && (validateToken(token) && (extractUserId(token).None? || validate(extractUserId(token).value, sessionId).None?) ==>
            r.status == 401 && r.message == VERIFY_FAILED)
      && (validateToken(token) && extractUserId(token).Some? && validate(extractUserId(token).value, sessionId).Some? ==>
            var result := validate(extractUserId(token).value, sessionId).value;
            && (!result.isValid ==> r.status == 401 && r.message == EXPIRED_SESSION)
            && (result.isValid ==> r.status == 200 && r.message == TOKEN_VALID))
  {
    var token := ExtractToken(request);
    var sessionId := ExtractSessionId(request);
    if token.None? || sessionId.None? then VerifyResponse(400, false, MISSING_TOKEN_OR_SESSION, None)
    else if !validateToken(token.value) then VerifyResponse(401, false, INVALID_TOKEN, None)
    else match extractUserId(token.value)
      case None => VerifyResponse(401, false, VERIFY_FAILED, None)
      case Some(userId) =>
        match validate(userId, sessionId.value)
        case None => VerifyResponse(401, false, VERIFY_FAILED, None)
        case Some(result) =>
          if !result.isValid then VerifyResponse(401, false, EXPIRED_SESSION, None)
          else VerifyResponse(200, true, TOKEN_VALID, Some(userId))
  }

  /** A session id sent as a cookie wins over the header, even empty, and then passes the presence check. */
  lemma EmptySessionCookieCounts<S>(request: HttpRequest, validateToken: string -> bool, extractUserId: string -> Option<string>,
                                    validate: (string, string) -> Option<SessionValidationResult<S>>)
    requires CookieValue(request, "sessionId") == Some("")
    requires ExtractToken(request).Some?
    ensures VerifyToken(request, validateToken, extractUserId, validate).status != 400
  {
  }

  /** `SessionEndedEvent(userId, reason, message)`. */
  datatype SessionEndedEvent = SessionEndedEvent(userId: string, reason: string, message: string)

  /** A `removeSession(userId, sessionId)` call. */
  datatype SessionRemoval = SessionRemoval(userId: string, sessionId: string)

  const SESSION_HEADER_REQUIRED: string := "x-session-id 헤더가 필요합니다."
  const LOGGED_OUT: string := "로그아웃이 완료되었습니다."
  const LOGOUT_FAILED: string := "로그아웃 처리 중 오류가 발생했습니다."

  /** The session side of `logout`: the removals asked of the session service and the events published. */
  class AuthController {
    var removals: seq<SessionRemoval>
    var published: seq<SessionEndedEvent>

    constructor ()
      ensures removals == [] && published == []
    {
      removals := [];
      published := [];
    }

    /**
     * `logout`.  `authUserId` is the authentication's `userId` detail: none
     * without an authentication, `Some(None)` when the detail is null.
     * `removeFails` says whether the removal throws.
     */
    method Logout(request: HttpRequest, authUserId: Option<Option<string>>, removeFails: bool)
      returns (status: int, message: string)
      modifies this
      ensures var sessionId := ExtractSessionId(request);
              var removing := sessionId.Some? && sessionId.value != "" && authUserId.Some? && authUserId.value.Some?;
              && (sessionId.None? || sessionId.value == "" ==>
                    status == 400 && message == SESSION_HEADER_REQUIRED)
              && (sessionId.Some? && sessionId.value != "" && !(removing && removeFails) ==>
                    status == 200 && message == LOGGED_OUT)
              && (removing && removeFails ==> status == 500 && message == LOGOUT_FAILED)
              && removals == old(removals) + (if removing then [SessionRemoval(authUserId.value.value, sessionId.value)] else [])
              && published == old(published) + (if removing && !removeFails
                                                then [SessionEndedEvent(authUserId.value.value, "logout", "로그아웃되었습니다.")]
                                                else [])
    {
      var sessionId := ExtractSessionId(request);
      if sessionId.None? || sessionId.value == "" {
        return 400, SESSION_HEADER_REQUIRED;
      }
      if authUserId.Some? && authUserId.value.Some? {
        var userId := authUserId.value.value;
        removals := removals + [SessionRemoval(userId, sessionId.value)];
        if removeFails {
          return 500, LOGOUT_FAILED;
        }
        published := published + [SessionEndedEvent(userId, "logout", "로그아웃되었습니다.")];
      }
      return 200, LOGGED_OUT;
    }
  }
}
