/**
 * The user endpoints. A user is an anonymous id carried in the `user_id`
 * cookie: issuing reuses a known id or creates a user and sets the cookie; the
 * lookup answers 401, 404 or 200. `UUID.fromString` is the `parse` parameter
 * (its exact lenience is the JDK's); a new user's generated id is `newId`.
 */
module UserController {
  import opened Wrappers
  import opened Domain

  const UserCookieName := "user_id"
  /** Thirty days, in seconds. */
  const CookieMaxAge: int := 60 * 60 * 24 * 30
  const IssuedMessage := "사용자 ID가 생성되었습니다."
  const NoCookieMessage := "쿠키가 없습니다."
  const UnknownUserMessage := "사용자를 찾을 수 없습니다."

  // ---------------------------------------------------------------------------
  // Cookies
  // ---------------------------------------------------------------------------

  /** Everything a `Cookie` holds; this is what its `Set-Cookie` header carries. */
  datatype CookieState = CookieState(
    name: string,
    value: string,
    httpOnly: bool,
    path: Option<string>,
    maxAge: int,
    secure: bool,
    attributes: map<string, string>)

  /** A servlet cookie, configured through its setters. */
  class Cookie {
    const name: string
    var value: string
    var httpOnly: bool
    var path: Option<string>
    var maxAge: int
    var secure: bool
    var attributes: map<string, string>

    function State(): CookieState
      reads this
    {
      CookieState(name, value, httpOnly, path, maxAge, secure, attributes)
    }

    /** A new cookie has no path, is neither HttpOnly nor Secure, and max-age -1 (until the browser closes). */
    constructor (name: string, value: string)
      ensures State() == CookieState(name, value, false, None, -1, false, map[])
    {
      this.name := name;
      this.value := value;
      httpOnly, path, maxAge, secure, attributes := false, None, -1, false, map[];
    }

    method SetHttpOnly(flag: bool)
      modifies this
      ensures State() == old(State()).(httpOnly := flag)
    {
      httpOnly := flag;
    }

    method SetPath(uri: string)
      modifies this
      ensures State() == old(State()).(path := Some(uri))
    {
      path := Some(uri);
    }

    method SetMaxAge(expiry: int)
      modifies this
      ensures State() == old(State()).(maxAge := expiry)
    {
      maxAge := expiry;
    }

    method SetSecure(flag: bool)
      modifies this
      ensures State() == old(State()).(secure := flag)
    {
      secure := flag;
    }

    method SetAttribute(key: string, val: string)
      modifies this
      ensures State() == old(State()).(attributes := old(attributes)[key := val])
    {
      attributes := attributes[key := val];
    }
  }

  /** The response being built: the `Set-Cookie` headers added so far, in order. */
  class HttpResponse {
    var setCookies: seq<CookieState>

    constructor ()
      ensures setCookies == []
    {
      setCookies := [];
    }

    method AddCookie(cookie: Cookie)
      modifies this
      ensures setCookies == old(setCookies) + [cookie.State()]
    {
      setCookies := setCookies + [cookie.State()];
    }
  }

  /** The cookie that carries a user id, for a request over HTTPS (`secure`) or not. */
  function UserIdCookie(userId: Uuid, secure: bool): CookieState
  {
    CookieState(UserCookieName, userId.text, true, Some("/"), CookieMaxAge, secure,
                map["SameSite" := if secure then "None" else "Lax"])
  }

  /**
   * Browsers drop a `SameSite=None` cookie that is not Secure: the issued
   * cookie says `None` exactly when it is Secure, and Secure exactly when the
   * request came over HTTPS. It is never readable from scripts and lives 30 days.
   */
  lemma UserIdCookieIsConsistent(userId: Uuid, secure: bool)
    ensures var c := UserIdCookie(userId, secure);
            && "SameSite" in c.attributes
            && (c.attributes["SameSite"] == "None" <==> c.secure)
            && c.secure == secure
            && c.httpOnly && c.maxAge == 2_592_000
  {
  }

  /** A request: whether it came over HTTPS, and its cookies (null when it sent none). */
  datatype RequestCookie = RequestCookie(name: string, value: string)
  datatype Request = Request(secure: bool, cookies: Option<seq<RequestCookie>>)

  /** `createUserCookie`: a new cookie, configured for the user id and the request's scheme. */
  method CreateUserCookie(userId: Uuid, request: Request) returns (cookie: Cookie)
    ensures fresh(cookie)
    ensures cookie.State() == UserIdCookie(userId, request.secure)
  {
    cookie := new Cookie(UserCookieName, userId.text);
    cookie.SetHttpOnly(true);
    cookie.SetPath("/");
    cookie.SetMaxAge(CookieMaxAge);
    var isHttps := request.secure;
    cookie.SetSecure(isHttps);
    if isHttps {
      cookie.SetAttribute("SameSite", "None");
    } else {
      cookie.SetAttribute("SameSite", "Lax");
    }
  }

  // ---------------------------------------------------------------------------
  // Reading the cookie back
  // ---------------------------------------------------------------------------

  /** The position of the first cookie named `user_id`, if any. */
  function FirstUserCookie(cookies: seq<RequestCookie>): (r: Option<nat>)
    ensures r.Some? ==> r.value < |cookies| && cookies[r.value].name == UserCookieName
    ensures r.Some? ==> forall k :: 0 <= k < r.value ==> cookies[k].name != UserCookieName
    ensures r.None? <==> forall k :: 0 <= k < |cookies| ==> cookies[k].name != UserCookieName
    decreases |cookies|
  {
    if |cookies| == 0 then None
    else if cookies[0].name == UserCookieName then Some(0)
    else match FirstUserCookie(cookies[1..])
      case None => None
      case Some(i) => Some(i + 1)
  }

  /** `@CookieValue("user_id")`: the value of the first `user_id` cookie, null when there is none. */
  function CookieValue(cookies: Option<seq<RequestCookie>>): (r: Option<string>)
    ensures r.None? <==> cookies.None? || FirstUserCookie(cookies.value).None?
    ensures r.Some? ==> r.value == cookies.value[FirstUserCookie(cookies.value).value].value
  {
    if cookies.None? then None
    else match FirstUserCookie(cookies.value)
      case None => None
      case Some(i) => Some(cookies.value[i].value)
  }

  /**
   * What `getUserIdFromCookie` answers: the first `user_id` cookie decides; its
   * value parsed, or nothing when it does not parse. Later cookies are never read.
   */
  function UserIdFromCookies(cookies: Option<seq<RequestCookie>>, parse: string -> Option<Uuid>): Option<Uuid>
  {
    match CookieValue(cookies)
    case None => None
    case Some(v) => parse(v)
  }

  /** `getUserIdFromCookie`: scans the cookies in order and returns at the first `user_id`. */
  method GetUserIdFromCookie(request: Request, parse: string -> Option<Uuid>) returns (r: Option<Uuid>)
    ensures r == UserIdFromCookies(request.cookies, parse)
  {
    if request.cookies.None? {
      return None;
    }
    var cookies := request.cookies.value;
    for i := 0 to |cookies|
      invariant forall k :: 0 <= k < i ==> cookies[k].name != UserCookieName
    {
      if cookies[i].name == UserCookieName {
        return parse(cookies[i].value);
      }
    }
    return None;
  }

  /**
   * A request that carries the issued cookie ahead of any other `user_id`
   * cookie is read back as the issued user, whatever follows it.
   */
  lemma {:induction false} IssuedCookieReadsBack(
    userId: Uuid, secure: bool, before: seq<RequestCookie>, after: seq<RequestCookie>, parse: string -> Option<Uuid>)
    requires parse(userId.text) == Some(userId)
    requires forall k :: 0 <= k < |before| ==> before[k].name != UserCookieName
    ensures var c := UserIdCookie(userId, secure);
            UserIdFromCookies(Some(before + [RequestCookie(c.name, c.value)] + after), parse) == Some(userId)
  {
    var c := UserIdCookie(userId, secure);
    var cookies := before + [RequestCookie(c.name, c.value)] + after;
    assert cookies[|before|].name == UserCookieName;
    assert forall k :: 0 <= k < |before| ==> cookies[k] == before[k];
    assert FirstUserCookie(cookies) == Some(|before|);
  }

  // ---------------------------------------------------------------------------
  // The endpoints
  // ---------------------------------------------------------------------------

  datatype UserResponse = UserResponse(userId: Option<Uuid>, message: string)
  datatype UserEntity = UserEntity(status: int, body: UserResponse)

  /** An exception the endpoint does not catch. */
  datatype UserError = MalformedUserId   // UUID.fromString rejected the cookie

  /** The cookie's id, when it parses and names an existing user. */
  function KnownUser(users: set<Uuid>, existingId: Option<string>, parse: string -> Option<Uuid>): (r: Option<Uuid>)
    ensures r.Some? <==> existingId.Some? && parse(existingId.value).Some? && parse(existingId.value).value in users
    ensures r.Some? ==> r == parse(existingId.value)
  {
    if existingId.None? then None
    else
      var parsed := parse(existingId.value);
      if parsed.Some? && parsed.value in users then parsed else None
  }

  /**
   * `issueUserId`: a cookie naming an existing user is answered with that id
   * and nothing changes. Otherwise (no cookie, a value that does not parse, an
   * unknown id) exactly one user is created and one cookie carrying the new id
   * is added. Either way the answered id names an existing user.
   */
  method IssueUserId(store: Store, request: Request, response: HttpResponse, parse: string -> Option<Uuid>, newId: Uuid)
    returns (r: UserEntity)
    requires store.Valid()
    requires newId !in store.users
    modifies store, response
    ensures store.Valid()
    ensures r.status == 200 && r.body.message == IssuedMessage
    ensures r.body.userId.Some? && r.body.userId.value in store.users
    ensures var known := KnownUser(old(store.users), CookieValue(request.cookies), parse);
            && (known.Some? ==>
                  && r.body.userId == known
                  && store.users == old(store.users)
                  && response.setCookies == old(response.setCookies))
            && (known.None? ==>
                  && r.body.userId == Some(newId)
                  && store.users == old(store.users) + {newId}
                  && response.setCookies == old(response.setCookies) + [UserIdCookie(newId, request.secure)])
    ensures store.histories == old(store.histories) && store.details == old(store.details)
    ensures store.matches == old(store.matches) && store.cases == old(store.cases) && store.calls == old(store.calls)
  {
    var existingId := CookieValue(request.cookies);
    if existingId.Some? {
      var uuid := parse(existingId.value);
      if uuid.Some? && uuid.value in store.users {
        return UserEntity(200, UserResponse(uuid, IssuedMessage));
      }
    }
    store.users := store.users + {newId};
    var cookie := CreateUserCookie(newId, request);
    response.AddCookie(cookie);
    return UserEntity(200, UserResponse(Some(newId), IssuedMessage));
  }

  /**
   * `getCurrentUser`: 401 without a cookie, 404 for an id no user has, 200 for
   * an existing user; a value that is not a UUID raises the parser's exception.
   */
  function GetCurrentUser(users: set<Uuid>, request: Request, parse: string -> Option<Uuid>)
    : (r: Result<UserEntity, UserError>)
    ensures r.Err? <==> CookieValue(request.cookies).Some? && parse(CookieValue(request.cookies).value).None?
    ensures r == Ok(UserEntity(401, UserResponse(None, NoCookieMessage))) <==> CookieValue(request.cookies).None?
    ensures r.Ok? && r.value.status == 200 <==> KnownUser(users, CookieValue(request.cookies), parse).Some?
    ensures var v := CookieValue(request.cookies);
            var id := if v.Some? then parse(v.value) else None;
            r == Ok(UserEntity(404, UserResponse(id, UnknownUserMessage))) <==> id.Some? && id.value !in users
    ensures r.Ok? && r.value.status == 404 ==>
              && r.value.body.userId.Some? && r.value.body.userId.value !in users
              && r.value.body.message == UnknownUserMessage
    ensures r.Ok? && r.value.status == 200 ==>
              r.value.body == UserResponse(KnownUser(users, CookieValue(request.cookies), parse), IssuedMessage)
  {
    match CookieValue(request.cookies)
    case None => Ok(UserEntity(401, UserResponse(None, NoCookieMessage)))
    case Some(userId) =>
      match parse(userId)
      case None => Err(MalformedUserId)
      case Some(userUuid) =>
        if userUuid !in users then Ok(UserEntity(404, UserResponse(Some(userUuid), UnknownUserMessage)))
        else Ok(UserEntity(200, UserResponse(Some(userUuid), IssuedMessage)))
  }

  /**
   * Issue, then look up: once the id names a user, a request whose first
   * `user_id` cookie is the issued one is answered 200 with that id.
   */
  lemma IssuedUserIsCurrent(
    users: set<Uuid>, userId: Uuid, secure: bool, before: seq<RequestCookie>, after: seq<RequestCookie>,
    parse: string -> Option<Uuid>)
    requires userId in users && parse(userId.text) == Some(userId)
    requires forall k :: 0 <= k < |before| ==> before[k].name != UserCookieName
    ensures var c := UserIdCookie(userId, secure);
            var request := Request(secure, Some(before + [RequestCookie(c.name, c.value)] + after));
            GetCurrentUser(users, request, parse) == Ok(UserEntity(200, UserResponse(Some(userId), IssuedMessage)))
  {
    IssuedCookieReadsBack(userId, secure, before, after, parse);
  }
}
