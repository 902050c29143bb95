/**
 Concrete requests run through the handler model: a scheduled run, a
 manually dispatched run, a corrupted signature, a failed token exchange,
 a payload without an installation, and a header without `=`.
 */
module Scenarios {
  import opened Base
  import opened Signature
  import opened Payload
  import opened Claims
  import opened Approval
  import opened Webhook

  /** A `deployment_protection_rule` payload for `production` with the given trigger and installation. */
  function RulePayload(trigger: string, installation: map<string, Value>): Value {
    Dict(map[
      "action" := Str("requested"),
      "environment" := Str("production"),
      "event" := Str(trigger),
      "deployment" := Dict(map["id" := Int(12345)]),
      "repository" := Dict(map["name" := Str("app"), "owner" := Dict(map["login" := Str("octo")])]),
      "installation" := Dict(installation)])
  }

  /** The fields the handler reads from `RulePayload`. */
  lemma RulePayloadFields(trigger: string, installation: map<string, Value>)
    ensures Extract(RulePayload(trigger, installation)) ==
              Ok(Fields(Str("requested"), Str("production"), Str(trigger), Str("octo"), Str("app"),
                        if "id" in installation then installation["id"] else Null, Int(12345)))
  {
    var p := RulePayload(trigger, installation);
    assert p.fields["repository"] == Dict(map["name" := Str("app"), "owner" := Dict(map["login" := Str("octo")])]);
  }

  /** A correctly signed protection-rule request. */
  function SignedRequest(body: Bytes, secret: string, mac: (string, Bytes) -> string): Request {
    Request(body, Some(SignatureHeader(mac(secret, body))), Some(ProtectionRuleEvent), Some("delivery"))
  }

  /** A scheduled run is approved with one review POST in the `approved` state. */
  lemma ScheduledRunApproved(body: Bytes, secret: string, mac: (string, Bytes) -> string,
                             parse: Bytes -> Parse, s: Services)
    requires HexDigest(mac(secret, body))
    requires parse(body) == Parsed(RulePayload("schedule", map["id" := Int(99999)]))
    requires s.exchange.Token? && s.post == Status(204)
    ensures Handle(SignedRequest(body, secret, mac), World(secret, mac, parse, s)).reply == Reply(200, Approved)
    ensures Handle(SignedRequest(body, secret, mac), World(secret, mac, parse, s)).calls ==
              [ExchangeToken(Int(99999), ServerClaims(s.Now(), s.appId)),
               PostReview(Str("octo"), Str("app"), Int(12345), s.exchange.token,
                          ReviewRequest(Str("production"), "approved", ScheduledComment))]
  {
    OwnSignatureAccepted(body, secret, mac);
    RulePayloadFields("schedule", map["id" := Int(99999)]);
  }

  /** A manually dispatched run is left for manual review and no API is called. */
  lemma DispatchedRunLeftForReview(body: Bytes, secret: string, mac: (string, Bytes) -> string,
                                   parse: Bytes -> Parse, s: Services)
    requires HexDigest(mac(secret, body))
    requires parse(body) == Parsed(RulePayload("workflow_dispatch", map["id" := Int(99999)]))
    ensures Handle(SignedRequest(body, secret, mac), World(secret, mac, parse, s)).reply ==
              Reply(200, ManualReview(Str("workflow_dispatch")))
    ensures Handle(SignedRequest(body, secret, mac), World(secret, mac, parse, s)).calls == []
  {
    OwnSignatureAccepted(body, secret, mac);
    RulePayloadFields("workflow_dispatch", map["id" := Int(99999)]);
  }

  /** A scheduled run under a different digest is refused with 401 before anything else happens. */
  lemma CorruptedSignatureRefused(body: Bytes, secret: string, mac: (string, Bytes) -> string,
                                  parse: Bytes -> Parse, s: Services, forged: string)
    requires HexDigest(mac(secret, body)) && HexDigest(forged)
    requires forged != mac(secret, body)
    ensures Handle(Request(body, Some(SignatureHeader(forged)), Some(ProtectionRuleEvent), None),
                   World(secret, mac, parse, s)) ==
              Outcome(Reply(401, Error("Invalid signature")), Some(body), None, [])
  {
    HexDigestIsPlain(forged);
    OtherDigestRefused(body, forged, secret, mac);
  }

  /** A failed token exchange is answered with 500 and the review is never POSTed. */
  lemma FailedExchangeAnswered500(body: Bytes, secret: string, mac: (string, Bytes) -> string,
                                  parse: Bytes -> Parse, s: Services)
    requires HexDigest(mac(secret, body))
    requires parse(body) == Parsed(RulePayload("schedule", map["id" := Int(99999)]))
    requires s.exchange.TokenRaised?
    ensures Handle(SignedRequest(body, secret, mac), World(secret, mac, parse, s)).reply ==
              Reply(500, ErrorOf(ExchangeFailed))
    ensures Handle(SignedRequest(body, secret, mac), World(secret, mac, parse, s)).calls ==
              [ExchangeToken(Int(99999), ServerClaims(s.Now(), s.appId))]
  {
    OwnSignatureAccepted(body, secret, mac);
    RulePayloadFields("schedule", map["id" := Int(99999)]);
  }

  /** Nothing checks that the installation id is present: the exchange is attempted with None. */
  lemma ExchangeWithoutInstallationId(body: Bytes, secret: string, mac: (string, Bytes) -> string,
                                      parse: Bytes -> Parse, s: Services)
    requires HexDigest(mac(secret, body))
    requires parse(body) == Parsed(RulePayload("schedule", map[]))
    ensures |Handle(SignedRequest(body, secret, mac), World(secret, mac, parse, s)).calls| >= 1
    ensures Handle(SignedRequest(body, secret, mac), World(secret, mac, parse, s)).calls[0] ==
              ExchangeToken(Null, ServerClaims(s.Now(), s.appId))
  {
    OwnSignatureAccepted(body, secret, mac);
    RulePayloadFields("schedule", map[]);
  }

  /** A header without `=` makes the tuple unpack raise out of the handler, so the client sees 500, not 401. */
  lemma HeaderWithoutSeparatorEscapes(body: Bytes, w: World)
    ensures Handle(Request(body, Some("sha256"), Some(ProtectionRuleEvent), None), w) ==
              Outcome(Uncaught(UnpackError), None, None, [])
    ensures HttpStatus(Handle(Request(body, Some("sha256"), Some(ProtectionRuleEvent), None), w).reply) == 500
  {
    assert multiset("sha256")[Separator] == 0;
  }
}
