/**
 `handle_webhook`, the `/webhook` endpoint: an ordered sequence of gates
 (signature, JSON parse, event type, payload extraction, action, trigger) that
 ends either in a reply or in a call of `approve_deployment`. The MAC, the JSON
 decoder and the two HTTP calls are parameters; the outcome records the reply
 together with everything the handler set in motion.
 */
module Webhook {
  import opened Base
  import opened Signature
  import opened Payload
  import opened Claims
  import opened Approval

  const ProtectionRuleEvent: string := "deployment_protection_rule"
  const RequestedAction: string := "requested"
  const ScheduleTrigger: string := "schedule"

  /** The parts of an inbound POST the handler reads. */
  datatype Request = Request(
    body: Bytes,
    signature: Option<string>,   // X-Hub-Signature-256
    event: Option<string>,       // X-GitHub-Event
    delivery: Option<string>)    // X-GitHub-Delivery, only logged

  /**
   How decoding the raw body ended. The decoding step is `json.loads` together
   with the debug line that re-encodes the payload with `json.dumps(payload,
   indent=2)`, which is built whatever the log level. It ends in a value, a
   JSONDecodeError, or any other exception from either call: UnicodeDecodeError,
   the integer digit-limit ValueError, or RecursionError from the decoder or
   the encoder. The handler catches only JSONDecodeError.
   */
  datatype Parse = Parsed(value: Value) | DecodeError | OtherLoadError

  /** The configured secret and the collaborators the handler calls into. */
  datatype World = World(
    secret: string,
    mac: (string, Bytes) -> string,
    parse: Bytes -> Parse,
    services: Services)

  /** The JSON bodies the handler replies with. */
  datatype Body =
    | Error(text: string)             // {'error': text}
    | ErrorOf(fault: Fault)           // {'error': str(e)}
    | Message(text: string)           // {'message': text}
    | ManualReview(trigger: Value)    // {'message': 'Deployment requires manual review', 'trigger': event}
    | Approved                        // {'status': 'approved', 'message': 'Deployment approved'}
    | NullBody                        // jsonify(None)

  /** A reply the handler returns, or an exception that escapes it. */
  datatype Reply = Reply(status: int, body: Body) | Uncaught(fault: Fault)

  /**
   Everything one request led to: the reply, the bytes the MAC was computed
   over, the bytes handed to the JSON decoder, and the API calls made.
   */
  datatype Outcome = Outcome(reply: Reply, macOver: Option<Bytes>, parsed: Option<Bytes>, calls: seq<ApiCall>)

  /** The status the client sees: an escaping exception is answered with 500. */
  function HttpStatus(r: Reply): int {
    match r
    case Reply(status, _) => status
    case Uncaught(_) => 500
  }

  /**
   `handle_webhook`. The MAC and the decoder only ever see the raw body, the
   decoder only after the signature is accepted, and every reply is 200, 400,
   401 or 500.
   */
  function Handle(req: Request, w: World): (o: Outcome)
    ensures o.macOver.Some? ==> o.macOver == Some(req.body)
    ensures o.parsed.Some? ==> o.parsed == Some(req.body)
    ensures o.parsed.Some? ==> Verify(req.body, req.signature, w.secret, w.mac).valid == Ok(true)
    ensures HttpStatus(o.reply) in {200, 400, 401, 500}
  {
    var check := Verify(req.body, req.signature, w.secret, w.mac);
    match check.valid
    case Raised(f) => Outcome(Uncaught(f), check.macOver, None, [])
    case Ok(valid) =>
      if !valid then Outcome(Reply(401, Error("Invalid signature")), check.macOver, None, [])
      else
        var parsedOver := Some(req.body);
        match w.parse(req.body)
        case DecodeError => Outcome(Reply(400, Error("Invalid JSON")), check.macOver, parsedOver, [])
        case OtherLoadError => Outcome(Uncaught(LoadFailed), check.macOver, parsedOver, [])
        case Parsed(payload) =>
          if req.event != Some(ProtectionRuleEvent) then
            Outcome(Reply(200, Message("Event type not supported")), check.macOver, parsedOver, [])
          else
            match Extract(payload)
            case Raised(f) => Outcome(Uncaught(f), check.macOver, parsedOver, [])
            case Ok(fs) =>
              if fs.action != Str(RequestedAction) then
                Outcome(Reply(200, Message("Action not handled")), check.macOver, parsedOver, [])
              else if fs.event != Str(ScheduleTrigger) then
                Outcome(Reply(200, ManualReview(fs.event)), check.macOver, parsedOver, [])
              else
                var a := ApproveDeployment(fs.owner, fs.repo, fs.runId, fs.installationId,
                                           fs.environment, Some(ScheduledComment), w.services);
                var reply := match a.result
                  case Ok(ApprovedDict) => Reply(200, Approved)
                  case Ok(NoneReturned) => Reply(200, NullBody)
                  case Raised(f) => Reply(500, ErrorOf(f));
                Outcome(reply, check.macOver, parsedOver, a.calls)
  }
}
