/**
 `approve_deployment`: obtain an installation token (itself a signed JWT
 exchanged over HTTP), then POST the review to the run's
 `deployment_protection_rule` endpoint. Both HTTP calls are outside the
 model; their answers are given as `Services`, and the calls made are
 recorded in order.
 */
module Approval {
  import opened Base
  import opened Payload
  import opened Claims

  const ApprovedState: string := "approved"

  /**
   The comment the handler supplies for a scheduled run. The source text holds
   U+201A U+00FA U+00D6 before the words: the UTF-8 bytes of a check-mark emoji
   read in another encoding.
   */
  const ScheduledComment: string := "\U{201A}\U{00FA}\U{00D6} Auto-approved: Scheduled deployment"

  /** The JSON body of the review POST. */
  datatype ReviewRequest = ReviewRequest(environmentName: Value, state: string, comment: string)

  /** The fallback comment, stamped with the ISO time of the call. */
  function DefaultComment(timestamp: string): string {
    "Auto-approved by custom protection rule at " + timestamp + "Z"
  }

  /**
   The review body: always the `approved` state and the given environment;
   the comment is the supplied one unless Python's `or` discards it (None or
   the empty string), in which case it is the stamped default.
   */
  function ReviewBody(environmentName: Value, comment: Option<string>, timestamp: string): (r: ReviewRequest)
    ensures r.state == ApprovedState && r.environmentName == environmentName
    ensures comment.Some? && comment.value != "" ==> r.comment == comment.value
    ensures comment.None? || comment == Some("") ==> r.comment == DefaultComment(timestamp)
    ensures r.comment != ""
  {
    var text := if comment.Some? && comment.value != "" then comment.value else DefaultComment(timestamp);
    ReviewRequest(environmentName, ApprovedState, text)
  }

  /** How the installation-token exchange ended: a token, or an exception. */
  datatype TokenOutcome = Token(token: string) | TokenRaised

  /** How the review POST ended: an HTTP status code, or an exception. */
  datatype PostOutcome = Status(code: int) | PostRaised

  /**
   The outside world for one request: the clock reading `time.time()` and the
   app id the JWT is built from, the time stamp for a default comment, and the
   answers of the two HTTP calls.
   */
  datatype Services = Services(
    clock: real,
    appId: string,
    timestamp: string,
    exchange: TokenOutcome,
    post: PostOutcome)
  {
    /** `now = int(time.time())` in `generate_jwt`. */
    function Now(): int {
      WholeSeconds(clock)
    }
  }

  /**
   Measured against a non-negative clock reading, the token claims to be
   issued 60 to 61 seconds before it and expires 599 to 600 seconds after it.
   */
  lemma ClaimsAroundClock(s: Services)
    requires s.clock >= 0.0
    ensures s.clock - 61.0 < ServerClaims(s.Now(), s.appId).iat as real <= s.clock - 60.0
    ensures s.clock + 599.0 < ServerClaims(s.Now(), s.appId).exp as real <= s.clock + 600.0
  {
  }

  /** An outbound call to the platform's REST API. */
  datatype ApiCall =
    | ExchangeToken(installationId: Value, claims: ClaimSet)
    | PostReview(owner: Value, repo: Value, runId: Value, bearer: string, request: ReviewRequest)

  /** `response.raise_for_status()` raises for client and server error codes only. */
  predicate RaisesForStatus(code: int) {
    400 <= code < 600
  }

  /** What `approve_deployment` returns when it does not raise. */
  datatype Returned = ApprovedDict | NoneReturned

  /** The result of `approve_deployment` and the API calls it made, in order. */
  datatype Attempt = Attempt(result: Result<Returned>, calls: seq<ApiCall>)

  /**
   `approve_deployment`: the token exchange always comes first and presents
   the server's claims; the review POST follows only when a token came back,
   carries that token and the `approved` state; only a 204 yields the approved
   dict, a 4xx or 5xx raises, and any other status falls through to None.
   */
  function ApproveDeployment(
    owner: Value,
    repo: Value,
    runId: Value,
    installationId: Value,
    environmentName: Value,
    comment: Option<string>,
    s: Services): (a: Attempt)
    ensures 1 <= |a.calls| <= 2
    ensures a.calls[0] == ExchangeToken(installationId, ServerClaims(s.Now(), s.appId))
    ensures |a.calls| == 2 <==> s.exchange.Token?
    ensures |a.calls| == 2 ==> a.calls[1] == PostReview(owner, repo, runId, s.exchange.token,
                                                         ReviewBody(environmentName, comment, s.timestamp))
    ensures a.result == Ok(ApprovedDict) <==> s.exchange.Token? && s.post == Status(204)
    ensures a.result == Ok(NoneReturned) <==>
              s.exchange.Token? && s.post.Status? && s.post.code != 204 && !RaisesForStatus(s.post.code)
    ensures s.exchange.Token? && s.post.Status? && RaisesForStatus(s.post.code) ==>
              a.result == Raised(HttpError(s.post.code))
    ensures s.exchange.Token? && s.post.PostRaised? ==> a.result == Raised(RequestFailed)
    ensures s.exchange.TokenRaised? ==> a.result == Raised(ExchangeFailed)
  {
    var exchange := ExchangeToken(installationId, ServerClaims(s.Now(), s.appId));
    match s.exchange
    case TokenRaised => Attempt(Raised(ExchangeFailed), [exchange])
    case Token(token) =>
      var review := PostReview(owner, repo, runId, token, ReviewBody(environmentName, comment, s.timestamp));
      var calls := [exchange, review];
      match s.post
      case PostRaised => Attempt(Raised(RequestFailed), calls)
      case Status(code) =>
        if code == 204 then Attempt(Ok(ApprovedDict), calls)
        else if RaisesForStatus(code) then Attempt(Raised(HttpError(code)), calls)
        else Attempt(Ok(NoneReturned), calls)
  }

  /** Every review the approval client sends approves; it never sends any other state. */
  lemma OnlyApprovals(
    owner: Value, repo: Value, runId: Value, installationId: Value,
    environmentName: Value, comment: Option<string>, s: Services)
    ensures forall c :: c in ApproveDeployment(owner, repo, runId, installationId, environmentName, comment, s).calls && c.PostReview? ==>
              c.request.state == ApprovedState && c.request.environmentName == environmentName
  {
    var a := ApproveDeployment(owner, repo, runId, installationId, environmentName, comment, s);
    assert a.calls == a.calls[..1] + a.calls[1..];
    forall c | c in a.calls && c.PostReview?
      ensures c.request.state == ApprovedState && c.request.environmentName == environmentName
    {
      assert c == a.calls[1];
    }
  }
}
