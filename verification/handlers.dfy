/**
 * The request handlers: the auth callback's upsert, the decision whether a
 * stored access token must be refreshed, and the create-event flow. Calls to
 * the identity provider and to the calendar API are parameters (oracles).
 */
module Handlers {
  import opened Wrappers
  import opened Models
  import opened Crud

  /** `token_type` of a token built from stored credentials. */
  const BEARER := "Bearer"
  /** `scope` of a token built from stored credentials. */
  const SCOPE := "openid email profile https://www.googleapis.com/auth/calendar.events"
  /** `timedelta(hours=1)`, in seconds. */
  const ONE_HOUR := 3600

  /**
   * The test `not expires_at or expires_at < now`: a null or zero expiry counts
   * as expired, and so does one strictly before `now`.
   */
  predicate IsExpired(expiresAt: Option<int>, now: int)
    ensures expiresAt.None? || expiresAt == Some(0) ==> IsExpired(expiresAt, now)
    ensures expiresAt.Some? && expiresAt.value != 0 ==> (IsExpired(expiresAt, now) <==> expiresAt.value < now)
  {
    expiresAt.None? || expiresAt.value == 0 || expiresAt.value < now
  }

  /** Python truthiness of a nullable string: neither null nor empty. */
  predicate Present(s: Option<string>)
    ensures Present(s) <==> s != None && s != Some("")
  {
    s.Some? && s.value != ""
  }

  /** A token expiring exactly now is still valid (the comparison is strict). */
  lemma ExpiringNowIsValid(now: int)
    requires now != 0
    ensures !IsExpired(Some(now), now)
  {
  }

  /**
   * The token `get_valid_token` returns: the provider's payload after a
   * refresh, or one built from the stored access token.
   */
  datatype ValidToken =
    | Refreshed(payload: Token)
    | Stored(accessToken: Option<string>, tokenType: string, expiresIn: int, scope: string)

  /** The refresh exchange with the provider raised instead of returning a payload. */
  datatype RefreshError = ExchangeFailed

  /**
   * `get_valid_token`. `exchange` is the provider's refresh-token grant: it
   * receives the stored refresh token and yields the new payload, or `None`
   * when the call raises.
   */
  method GetValidToken(db: Database, user: User, now: int, exchange: Option<string> -> Option<Token>)
    returns (r: Result<ValidToken, RefreshError>)
    requires db.Valid()
    modifies db
    ensures db.Valid() && db.nextId == old(db.nextId)
    ensures !IsExpired(user.expiresAt, now) ==>
      && db.users == old(db.users)
      && r == Ok(Stored(user.accessToken, BEARER, user.expiresAt.value - now, SCOPE))
      && r.value.expiresIn >= 0
    ensures IsExpired(user.expiresAt, now) && exchange(user.refreshToken).None? ==>
      r == Err(ExchangeFailed) && db.users == old(db.users)
    ensures IsExpired(user.expiresAt, now) && exchange(user.refreshToken).Some? ==>
      var t := exchange(user.refreshToken).value;
      r == Ok(Refreshed(t)) && TokenUpdated(old(db.users), db.users, user.googleSub, t)
  {
    if IsExpired(user.expiresAt, now) {
      var fetched := exchange(user.refreshToken);
      if fetched.None? {
        return Err(ExchangeFailed);
      }
      var _ := db.UpdateUserToken(user.googleSub, fetched.value);
      return Ok(Refreshed(fetched.value));
    }
    r := Ok(Stored(user.accessToken, BEARER, user.expiresAt.value - now, SCOPE));
  }

  /** The body of a create-event request. Instants are epoch seconds. */
  datatype EventRequest = EventRequest(
    userEmail: string,
    summary: string,
    description: Option<string>,
    startTime: Option<int>,
    endTime: Option<int>)

  /** The event sent to the calendar API. */
  datatype CalendarEvent = CalendarEvent(summary: string, description: Option<string>, start: int, end: int)

  /**
   * The calendar API's reply: HTTP status and JSON body. The create call
   * yields `None` when it raises or when its body is not JSON.
   */
  datatype Reply = Reply(status: int, body: string)

  /** What `create_event` answers. */
  datatype EventResponse =
    | NotFound                               // 404: no user with that email
    | NoRefreshToken                         // 400: user has no refresh token
    | RefreshFailed                          // the refresh exchange raised; not handled
    | RemoteError(status: int, detail: string)  // the calendar API's status and body
    | Created(event: string)                 // the calendar API's body
    | PostFailed                             // the create call or its body raised; not handled

  /**
   * The checks before any token work, in order: the user must exist (404),
   * then must hold a non-empty refresh token (400).
   */
  function Precheck(users: seq<User>, email: string): (r: Result<User, EventResponse>)
    ensures r == Err(NotFound) <==> forall i :: 0 <= i < |users| ==> users[i].email != Some(email)
    ensures r.Err? ==> r.error == NotFound || r.error == NoRefreshToken
    ensures r == Err(NoRefreshToken) ==>
      exists i :: 0 <= i < |users| && users[i].email == Some(email) && !Present(users[i].refreshToken)
    ensures r.Ok? ==> r.value in users && r.value.email == Some(email) && Present(r.value.refreshToken)
  {
    match IndexOfEmail(users, email)
    case None => Err(NotFound)
    case Some(i) =>
      if !Present(users[i].refreshToken) then Err(NoRefreshToken) else Ok(users[i])
  }

  /**
   * The event's start and end: a missing start is `now`, a missing end is one
   * hour after the start, and a given end is used as it is.
   */
  function EventWindow(start: Option<int>, end: Option<int>, now: int): (w: (int, int))
    ensures start.None? ==> w.0 == now
    ensures start.Some? ==> w.0 == start.value
    ensures end.None? ==> w.1 == w.0 + ONE_HOUR
    ensures end.Some? ==> w.1 == end.value
  {
    var s := if start.Some? then start.value else now;
    (s, if end.Some? then end.value else s + ONE_HOUR)
  }

  /** No order between a given start and a given end is enforced. */
  lemma EndMayPrecedeStart(now: int)
    ensures var w := EventWindow(Some(now), Some(now - 1), now); w.1 < w.0
  {
  }

  /** A status of 300 or more is passed back with its body; anything else returns the body. */
  function Interpret(reply: Reply): (r: EventResponse)
    ensures r.RemoteError? <==> reply.status >= 300
    ensures r.RemoteError? ==> r.status == reply.status && r.detail == reply.body
    ensures !r.RemoteError? ==> r == Created(reply.body)
  {
    if reply.status >= 300 then RemoteError(reply.status, reply.body) else Created(reply.body)
  }

  /**
   * The answer for the create call's outcome: a failed call stays a failure,
   * whatever token refresh already happened before it.
   */
  function Answer(reply: Option<Reply>): (r: EventResponse)
    ensures r == PostFailed <==> reply.None?
    ensures reply.Some? ==> r == Interpret(reply.value)
  {
    if reply.None? then PostFailed else Interpret(reply.value)
  }

  /**
   * `create_event`. `exchange` is the provider's refresh grant and `post` the
   * calendar API's create call, given the event and the token it is sent with.
   */
  method CreateEvent(db: Database, req: EventRequest, now: int,
                     exchange: Option<string> -> Option<Token>,
                     post: (CalendarEvent, ValidToken) -> Option<Reply>)
    returns (r: EventResponse)
    requires db.Valid()
    modifies db
    ensures db.Valid() && db.nextId == old(db.nextId)
    ensures old(Precheck(db.users, req.userEmail)).Err? ==>
      r == old(Precheck(db.users, req.userEmail)).error && db.users == old(db.users)
    ensures old(Precheck(db.users, req.userEmail)).Ok? ==>
      var u := old(Precheck(db.users, req.userEmail)).value;
      var w := EventWindow(req.startTime, req.endTime, now);
      var event := CalendarEvent(req.summary, req.description, w.0, w.1);
      && (!IsExpired(u.expiresAt, now) ==>
            && db.users == old(db.users)
            && r == Answer(post(event, Stored(u.accessToken, BEARER, u.expiresAt.value - now, SCOPE))))
      && (IsExpired(u.expiresAt, now) && exchange(u.refreshToken).None? ==>
            r == RefreshFailed && db.users == old(db.users))
      && (IsExpired(u.expiresAt, now) && exchange(u.refreshToken).Some? ==>
            var t := exchange(u.refreshToken).value;
            && TokenUpdated(old(db.users), db.users, u.googleSub, t)
            && r == Answer(post(event, Refreshed(t))))
  {
    var k := IndexOfEmail(db.users, req.userEmail);
    if k.None? {
      return NotFound;
    }
    var user := db.users[k.value];
    if !Present(user.refreshToken) {
      return NoRefreshToken;
    }
    var token := GetValidToken(db, user, now, exchange);
    if token.Err? {
      return RefreshFailed;
    }
    var w := EventWindow(req.startTime, req.endTime, now);
    var reply := post(CalendarEvent(req.summary, req.description, w.0, w.1), token.value);
    r := Answer(reply);
  }

  /** What the auth callback answers. */
  datatype AuthResponse =
    | AuthError(error: string)              // the code exchange failed
    | Authenticated(userEmail: Option<string>)
    | AuthFault                             // the profile fetch or the commit raised

  /**
   * The auth callback after the provider round trips: `exchanged` is the code
   * exchange (a payload, or the provider's error message), `profile` the
   * userinfo response (`None` when its status check raises).
   */
  method Auth(db: Database, exchanged: Result<Token, string>, profile: Option<Profile>)
    returns (r: AuthResponse)
    requires db.Valid()
    modifies db
    ensures db.Valid()
    ensures exchanged.Err? ==> r == AuthError(exchanged.error) && db.users == old(db.users)
    ensures exchanged.Ok? && profile.None? ==> r == AuthFault && db.users == old(db.users)
    ensures r == AuthFault ==> db.users == old(db.users)
    ensures exchanged.Ok? && profile.Some? ==>
      match old(Upserted(db.users, db.nextId, profile.value, exchanged.value))
      case Err(_) => r == AuthFault && db.users == old(db.users)
      case Ok(result) => r == Authenticated(profile.value.email) && db.users == result.0
    ensures r.Authenticated? ==>
      && profile.Some? && r.userEmail == profile.value.email
      && exists i :: 0 <= i < |db.users| && db.users[i].googleSub == profile.value.sub
                  && db.users[i].email == profile.value.email
  {
    if exchanged.Err? {
      return AuthError(exchanged.error);
    }
    if profile.None? {
      return AuthFault;
    }
    var user := db.CreateOrUpdateUser(profile.value, exchanged.value);
    if user.Err? {
      return AuthFault;
    }
    r := Authenticated(user.value.email);
  }
}
