/** The client object's own state and the two operations that use it. `login` keeps a
    token cache: a record `{time, token}` stored in `auth.json` is reused while it is
    younger than 23 hours; otherwise, or when there is no record, the client authenticates
    and overwrites the record with the current time and the new token. `play_content`
    sends the in-memory token with its request. The file is an optional record, the clock
    a parameter `now` (Unix seconds), and the authentication call a parameter `response`:
    the `subscriptionToken` the call would return, or `None` when its response has none
    (the source then raises `KeyError` before assigning anything). */
module Client {
  import opened PyStr
  import opened Urls

  /** How long a stored token is trusted: 23 hours, in seconds. */
  const MaxAge: int := 82800

  /** The content of `auth.json`. */
  datatype AuthRecord = AuthRecord(time: int, token: string)

  /** The stored record and the in-memory `ascendontoken`. */
  datatype Session = Session(authFile: Option<AuthRecord>, ascendontoken: Option<string>)

  /** Which branch a login took: reuse of the stored token, a new token fetched and stored,
      or a failed authentication. */
  datatype Outcome = Reused | Stored | Failed

  /** The refresh test `saved_auth["time"] <= int(time.time()) - 82800`: the record is at
      least 23 hours old. At exactly 23 hours it is stale. */
  predicate Stale(saved: AuthRecord, now: int)
  {
    saved.time <= now - MaxAge
  }

  /** Once a record is stale it stays stale: a later login never reuses it. */
  lemma StaleIsPermanent(saved: AuthRecord, token: Option<string>, now: int, later: int, response: Option<string>)
    requires Stale(saved, now) && now <= later
    ensures Stale(saved, later)
    ensures LoginStep(Session(Some(saved), token), later, response).1 != Reused
  {
  }

  /** The boundary of the cache: a record written at `t` is reused one second before
      `t + 82800` and refreshed at `t + 82800`. */
  lemma StaleBoundary(t: int, token: string, response: Option<string>)
    ensures !Stale(AuthRecord(t, token), t + MaxAge - 1)
    ensures Stale(AuthRecord(t, token), t + MaxAge)
    ensures LoginStep(Session(Some(AuthRecord(t, token)), None), t + MaxAge - 1, response).1 == Reused
    ensures LoginStep(Session(Some(AuthRecord(t, token)), None), t + MaxAge, response).1 != Reused
  {
  }

  /** The in-memory token is the stored one. */
  predicate Synced(s: Session) {
    s.authFile.Some? && s.ascendontoken == Some(s.authFile.value.token)
  }

  /** One call of `login`. */
  function LoginStep(s: Session, now: int, response: Option<string>): (r: (Session, Outcome))
    // a stored record is reused exactly while it is younger than 23 hours
    ensures r.1 == Reused <==> s.authFile.Some? && now - s.authFile.value.time < MaxAge
    // reuse leaves the file alone and loads its token
    ensures r.1 == Reused ==> r.0 == Session(s.authFile, Some(s.authFile.value.token))
    // otherwise the authentication decides
    ensures r.1 != Reused ==> (r.1 == Stored <==> response.Some?)
    ensures r.1 == Stored ==> r.0 == Session(Some(AuthRecord(now, response.value)), response)
    // a failed authentication changes nothing
    ensures r.1 == Failed ==> r.0 == s
    // after a successful login the token in use is the stored one, and it is not stale
    ensures r.1 != Failed ==> Synced(r.0) && !Stale(r.0.authFile.value, now)
  {
    if s.authFile.Some? && !Stale(s.authFile.value, now) then
      (Session(s.authFile, Some(s.authFile.value.token)), Reused)
    else if response.None? then
      (s, Failed)
    else
      (Session(Some(AuthRecord(now, response.value)), response), Stored)
  }

  /** A record younger than 23 hours is reused whatever the authentication would have
      returned: no authentication call is needed. */
  lemma FreshRecordNeedsNoCall(s: Session, now: int, response1: Option<string>, response2: Option<string>)
    requires s.authFile.Some? && now - s.authFile.value.time < MaxAge
    ensures LoginStep(s, now, response1) == LoginStep(s, now, response2)
    ensures LoginStep(s, now, response1).1 == Reused
  {
  }

  /** A first login with no file stores `{time: t, token: T}`; a later login within 23 hours
      reuses `T` without authenticating, and one at 23 hours or later authenticates again
      and stores the new token with the new time. */
  lemma CacheLifetime(t: int, token: string, later: int, response: Option<string>)
    requires t <= later
    ensures var (first, o1) := LoginStep(Session(None, None), t, Some(token));
            && o1 == Stored && first == Session(Some(AuthRecord(t, token)), Some(token))
            && var (second, o2) := LoginStep(first, later, response);
               && (later < t + MaxAge ==> o2 == Reused && second == first)
               && (later >= t + MaxAge && response.Some? ==>
                     o2 == Stored && second == Session(Some(AuthRecord(later, response.value)), response))
  {
  }

  /** Logging in again at the same moment after a successful login changes nothing. */
  lemma LoginIdempotent(s: Session, now: int, response: Option<string>, again: Option<string>)
    requires LoginStep(s, now, response).1 != Failed
    ensures LoginStep(LoginStep(s, now, response).0, now, again) ==
              (LoginStep(s, now, response).0, Reused)
  {
  }

  /** The playback request `play_content` sends: its query parameters and its headers, the
      client's fixed `User-Agent` merged with the in-memory token (Python `None` before any
      login). */
  datatype PlayRequest = PlayRequest(params: map<string, string>, headers: map<string, Option<string>>)

  /** The client object: the stored record and the in-memory token that `login` updates. */
  class F1TVApp {
    var authFile: Option<AuthRecord>
    var ascendontoken: Option<string>

    /** A fresh client with whatever `auth.json` holds; no token is loaded yet. */
    constructor (stored: Option<AuthRecord>)
      ensures authFile == stored && ascendontoken == None
    {
      authFile := stored;
      ascendontoken := None;
    }

    /** `login`: reuse the stored token while it is fresh, otherwise authenticate and
        overwrite the stored record. */
    method Login(now: int, response: Option<string>) returns (outcome: Outcome)
      modifies this
      ensures (Session(authFile, ascendontoken), outcome) ==
                LoginStep(Session(old(authFile), old(ascendontoken)), now, response)
    {
      if authFile.Some? {
        var saved := authFile.value;
        if saved.time <= now - MaxAge {
          // the stored token is too old: authenticate again
          if response.None? {
            return Failed;
          }
          ascendontoken := response;
          authFile := Some(AuthRecord(now, response.value));
          outcome := Stored;
        } else {
          ascendontoken := Some(saved.token);
          outcome := Reused;
        }
      } else {
        if response.None? {
          return Failed;
        }
        ascendontoken := response;
        authFile := Some(AuthRecord(now, response.value));
        outcome := Stored;
      }
    }

    /** `play_content`: the request for a content id and an optional channel id; the
        channel is sent only when it is a non-empty string, and the token header is the
        in-memory token. */
    function PlayContent(contentId: string, channelId: Option<string>): (req: PlayRequest)
      reads this
      ensures req.params == PlayParams(contentId, channelId)
      ensures req.headers.Keys == {"User-Agent", "ascendontoken"}
      ensures req.headers["User-Agent"] == Some("RaceControl")
      ensures req.headers["ascendontoken"] == ascendontoken
    {
      PlayRequest(PlayParams(contentId, channelId),
                  map["User-Agent" := Some("RaceControl"), "ascendontoken" := ascendontoken])
    }
  }
}
