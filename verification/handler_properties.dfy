/**
 What `handle_webhook` promises across all requests: which gate answers
 which status, that a refused signature stops everything, and that the
 approval client is reached exactly for requested, scheduled deployments and
 never sends anything but an approval.
 */
module HandlerProperties {
  import opened Base
  import opened Signature
  import opened Payload
  import opened Claims
  import opened Approval
  import opened Webhook

  /** The signature verdict the handler acts on. */
  function Verdict(req: Request, w: World): Result<bool> {
    Verify(req.body, req.signature, w.secret, w.mac).valid
  }

  /**
   Reference definition of an auto-approval request: an accepted signature,
   a decodable body, the protection-rule event type, a well-shaped payload,
   and `action` and `event` equal to `requested` and `schedule`.
   */
  predicate ApprovalRequested(req: Request, w: World) {
    && Verdict(req, w) == Ok(true)
    && w.parse(req.body).Parsed?
    && req.event == Some(ProtectionRuleEvent)
    && WellShaped(w.parse(req.body).value)
    && FieldAt(w.parse(req.body).value, ["action"]) == Str(RequestedAction)
    && FieldAt(w.parse(req.body).value, ["event"]) == Str(ScheduleTrigger)
  }

  /** Some review was POSTed to the platform. */
  predicate PostsReview(calls: seq<ApiCall>) {
    exists c :: c in calls && c.PostReview?
  }

  /** 401 is answered exactly when the signature is refused, and then nothing is decoded and no API is called. */
  lemma UnauthorizedIff(req: Request, w: World)
    ensures HttpStatus(Handle(req, w).reply) == 401 <==> Verdict(req, w) == Ok(false)
    ensures Verdict(req, w) == Ok(false) ==>
              Handle(req, w).parsed.None? && Handle(req, w).calls == []
  {
    var o := Handle(req, w);
    if Verdict(req, w) == Ok(true) {
      assert HttpStatus(o.reply) != 401;
    }
  }

  /** Unless the signature is accepted, the body is never decoded and no API call is made. */
  lemma NothingBeforeSignature(req: Request, w: World)
    requires Verdict(req, w) != Ok(true)
    ensures Handle(req, w).parsed.None?
    ensures Handle(req, w).calls == []
    ensures HttpStatus(Handle(req, w).reply) in {401, 500}
  {
  }

  /**
   400 is answered exactly when an accepted body fails to decode as JSON,
   whatever the event type header says.
   */
  lemma BadJsonIff(req: Request, w: World)
    ensures HttpStatus(Handle(req, w).reply) == 400 <==>
              Verdict(req, w) == Ok(true) && w.parse(req.body) == DecodeError
    ensures HttpStatus(Handle(req, w).reply) == 400 ==> Handle(req, w).calls == []
  {
    var o := Handle(req, w);
    if Verdict(req, w) == Ok(true) && w.parse(req.body).Parsed? && req.event == Some(ProtectionRuleEvent) {
      assert HttpStatus(o.reply) != 400;
    }
  }

  /** An event type other than `deployment_protection_rule` is acknowledged and ignored. */
  lemma OtherEventIgnored(req: Request, w: World)
    requires Verdict(req, w) == Ok(true) && w.parse(req.body).Parsed?
    requires req.event != Some(ProtectionRuleEvent)
    ensures Handle(req, w).reply == Reply(200, Message("Event type not supported"))
    ensures Handle(req, w).calls == []
  {
  }

  /**
   A protection-rule payload that is not an object, or has a non-object
   where `repository`, `repository.owner`, `installation` or `deployment`
   should be, raises AttributeError out of the handler before any decision.
   */
  lemma IllShapedPayloadEscapes(req: Request, w: World)
    requires Verdict(req, w) == Ok(true) && w.parse(req.body).Parsed?
    requires req.event == Some(ProtectionRuleEvent)
    requires !WellShaped(w.parse(req.body).value)
    ensures Handle(req, w).reply == Uncaught(NotADict)
    ensures Handle(req, w).calls == []
  {
  }

  /** An action other than `requested` is acknowledged and left alone. */
  lemma OtherActionIgnored(req: Request, w: World)
    requires Verdict(req, w) == Ok(true) && w.parse(req.body).Parsed?
    requires req.event == Some(ProtectionRuleEvent)
    requires WellShaped(w.parse(req.body).value)
    requires FieldAt(w.parse(req.body).value, ["action"]) != Str(RequestedAction)
    ensures Handle(req, w).reply == Reply(200, Message("Action not handled"))
    ensures Handle(req, w).calls == []
  {
  }

  /**
   A requested deployment with any trigger but `schedule` (including none)
   is left for manual review: 200, the trigger echoed back, no API call.
   */
  lemma ManualReviewIff(req: Request, w: World)
    ensures Handle(req, w).reply.Reply? && Handle(req, w).reply.body.ManualReview? <==>
              && Verdict(req, w) == Ok(true)
              && w.parse(req.body).Parsed?
              && req.event == Some(ProtectionRuleEvent)
              && WellShaped(w.parse(req.body).value)
              && FieldAt(w.parse(req.body).value, ["action"]) == Str(RequestedAction)
              && FieldAt(w.parse(req.body).value, ["event"]) != Str(ScheduleTrigger)
    ensures Handle(req, w).reply.Reply? && Handle(req, w).reply.body.ManualReview? ==>
              && Handle(req, w).reply == Reply(200, ManualReview(FieldAt(w.parse(req.body).value, ["event"])))
              && Handle(req, w).calls == []
  {
  }

  /**
   The token exchange is attempted exactly for an auto-approval request, and
   then first, once, for the payload's installation id and with the server's
   JWT claims.
   */
  lemma ExchangeIff(req: Request, w: World)
    ensures |Handle(req, w).calls| > 0 <==> ApprovalRequested(req, w)
    ensures ApprovalRequested(req, w) ==>
              Handle(req, w).calls[0] ==
                ExchangeToken(FieldAt(w.parse(req.body).value, ["installation", "id"]),
                              ServerClaims(w.services.Now(), w.services.appId))
    ensures |Handle(req, w).calls| <= 2
  {
  }

  /**
   The approval client is invoked exactly when an auto-approval request got
   an installation token, and every review it sends approves the payload's
   environment with the scheduled-run comment under that token.
   */
  lemma ApprovalPostIff(req: Request, w: World)
    ensures PostsReview(Handle(req, w).calls) <==>
              ApprovalRequested(req, w) && w.services.exchange.Token?
    ensures forall c :: c in Handle(req, w).calls && c.PostReview? ==>
              && c.bearer == w.services.exchange.token
              && c.request == ReviewRequest(FieldAt(w.parse(req.body).value, ["environment"]),
                                            ApprovedState, ScheduledComment)
  {
    var o := Handle(req, w);
    if ApprovalRequested(req, w) && w.services.exchange.Token? {
      assert o.calls[1] in o.calls;
    }
    if PostsReview(o.calls) {
      ExchangeIff(req, w);
    }
    forall c | c in o.calls && c.PostReview?
      ensures c.bearer == w.services.exchange.token
      ensures c.request == ReviewRequest(FieldAt(w.parse(req.body).value, ["environment"]),
                                         ApprovedState, ScheduledComment)
    {
      ExchangeIff(req, w);
      assert c == o.calls[1];
    }
  }

  /**
   The handler reports an approval only when the platform answered the
   review POST with 204; a 4xx or 5xx answer, a failed exchange or a failed
   POST becomes a 500, and any other answer a 200 with a null body.
   */
  lemma ApprovalReplies(req: Request, w: World)
    ensures Handle(req, w).reply == Reply(200, Approved) <==>
              ApprovalRequested(req, w) && w.services.exchange.Token? && w.services.post == Status(204)
    ensures ApprovalRequested(req, w) && w.services.exchange.TokenRaised? ==>
              Handle(req, w).reply == Reply(500, ErrorOf(ExchangeFailed)) && !PostsReview(Handle(req, w).calls)
    ensures ApprovalRequested(req, w) && w.services.exchange.Token? && w.services.post.Status?
            && RaisesForStatus(w.services.post.code) ==>
              Handle(req, w).reply == Reply(500, ErrorOf(HttpError(w.services.post.code)))
    ensures ApprovalRequested(req, w) && w.services.exchange.Token? && w.services.post.Status?
            && w.services.post.code != 204 && !RaisesForStatus(w.services.post.code) ==>
              Handle(req, w).reply == Reply(200, NullBody)
    ensures ApprovalRequested(req, w) && w.services.exchange.Token? && w.services.post.PostRaised? ==>
              Handle(req, w).reply == Reply(500, ErrorOf(RequestFailed))
  {
    if ApprovalRequested(req, w) && w.services.exchange.TokenRaised? {
      ApprovalPostIff(req, w);
    }
  }
}
