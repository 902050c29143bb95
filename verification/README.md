# GitHub deployment protection rule webhook — Dafny model

This project models the decision core of a small webhook server. The server
receives GitHub `deployment_protection_rule` events and auto-approves
deployments started by a `schedule` trigger. Every other deployment is left
for a human reviewer. The model covers four parts:

- `verify_webhook_signature`: the `X-Hub-Signature-256` header validator.
  It splits the header on `=`, checks the `sha256` tag and compares the hex
  HMAC-SHA256 of the raw body. This includes the two ways it can raise: the
  tuple unpack, and `compare_digest` on non-ASCII text.
- The JWT claim dicts (`iat`, `exp`, `iss` of RFC 7519) built by the server
  and by the helper script.
- `approve_deployment`: the review request body, and how the POST's status
  code turns into a return value or an exception.
- `handle_webhook`: the ordered gates. They are signature (401), JSON
  decoding (400), event type, payload extraction, action and trigger. The
  model records the reply, the bytes the MAC and the decoder saw, and every
  API call attempted, in order. A token exchange is recorded as soon as it is
  attempted, even when signing the JWT fails before any HTTP request is sent.

The modules follow the program's parts:

- `Base`: bytes, `Option`/`Result` and the Python exception kinds.
- `Signature`: the header validator.
- `Payload`: decoded JSON and the `dict.get` chain.
- `Claims`: the JWT claim dicts.
- `Approval`: `approve_deployment`.
- `Webhook`: `handle_webhook`.
- `HandlerProperties`: all-request properties of the handler.
- `Scenarios`: concrete requests.

The collaborators are parameters:

- The MAC is `mac(secret, body)`.
- `json.loads` is `parse(body)`, together with the debug line that
  re-encodes the decoded payload with `json.dumps(payload, indent=2)`
  (webhook-server/app.py:311-317). That f-string is built on every request,
  whatever the log level, before the event-type gate. Only a JSONDecodeError
  is caught; any other exception from these lines escapes the handler, whatever
  the event type. `parse` has three outcomes:
  - a value;
  - a JSONDecodeError;
  - any other exception from those two lines. This covers a
    UnicodeDecodeError for bytes that are not text, and a ValueError for an
    integer over the digit limit. It also covers a RecursionError, either from
    `json.loads` on deeply nested input or from the pure-Python encoder that
    `indent` selects. That encoder gives up at a smaller depth than the
    decoder.
- The installation-token exchange and the review POST are given outcomes
  (`Services`).
- The clock is the reading of `time.time()`, truncated to whole seconds as
  `int(time.time())` does, plus a time-stamp string.

An exception that escapes the handler is `Uncaught`. Flask answers it with
500 (error handler at webhook-server/app.py:396-400). `HttpStatus` maps it
to that status.

Some behaviour of the code differs from what its own comments and
docstrings say. The model follows the code:

- The comment at webhook-server/app.py:118 calls the token lifetime "10
  minutes maximum". `exp` is ten minutes after `now`, but `iat` is one minute
  before it, so `exp - iat` is 660 seconds (`Claims.ServerClaims`).
- The docstring at webhook-server/app.py:73-74 promises True or False. A
  header without exactly one `=` makes the tuple unpack raise instead
  (`Signature.UnpackRaisesIff`). A digest with a non-ASCII character makes
  `compare_digest` raise (`Signature.NonAsciiDigestRaises`).
- Nothing checks the installation id before the token exchange. A payload
  without one leads to an exchange for installation `None`
  (`Scenarios.ExchangeWithoutInstallationId`).
- `approve_deployment` raises only for 4xx and 5xx answers to the approval
  POST (`raise_for_status`, webhook-server/app.py:223). Any other non-204
  status makes it return None, and the handler answers 200 with a `null`
  body (`HandlerProperties.ApprovalReplies`).
- Some inputs raise out of the handler, so the client gets 500 rather than
  401 or 400:
  - a header without exactly one `=`;
  - a non-ASCII digest;
  - a body on which `json.loads` raises anything but JSONDecodeError;
  - a payload that is not an object, or has a non-object where
    `repository`, `repository.owner`, `installation` or `deployment` should be.

## Model

| member | source | states |
|---|---|---|
| Signature.Split | webhook-server/app.py:81 | `str.split('=')` yields one more part than there are `=` in the header, and no part contains `=` |
| Signature.SplitJoin | webhook-server/app.py:81 | joining the split parts with `=` gives back the header exactly |
| Signature.SplitPair | webhook-server/app.py:81 | `a=b` with no `=` in `a` or `b` unpacks to exactly `a` and `b` |
| Signature.Verify | webhook-server/app.py:65-101 | a missing or empty header is refused with no MAC computed; when a MAC is computed it is over the raw body; `true` only when the MAC over the raw body was computed |
| Signature.UnpackRaisesIff | webhook-server/app.py:80-81 | a non-empty header raises in the tuple unpack exactly when it does not contain exactly one `=` |
| Signature.MacComputedIff | webhook-server/app.py:76-93 | the MAC of the raw body is computed exactly when the header is `sha256=` followed by text without `=` |
| Signature.WrongAlgorithmRefused | webhook-server/app.py:83-85 | a tag other than `sha256` before the only `=` is refused without computing a MAC |
| Signature.HexDigestIsPlain | webhook-server/app.py:93 | a SHA-256 `hexdigest()` holds no `=` and only ASCII characters |
| Signature.OwnSignatureAccepted | webhook-server/app.py:88-101 | round trip: when the MAC is a 64-digit lower-case hex digest, `sha256=` followed by the MAC of the raw body under the secret is accepted |
| Signature.NonAsciiDigestRaises | webhook-server/app.py:96 | a digest without `=` holding a non-ASCII character makes `compare_digest` raise TypeError, after the MAC of the raw body was computed |
| Signature.OtherDigestRefused | webhook-server/app.py:96-101 | any other ASCII digest without `=` is refused (`false`, not an exception) |
| Signature.AcceptedIff | webhook-server/app.py:76-101 | when the MAC is a 64-digit lower-case hex digest, the validator answers `true` for exactly one header: `sha256=` followed by the MAC of the raw body |
| Payload.Extract | webhook-server/app.py:325-337 | the `.get` chain raises AttributeError exactly when the payload, or the object at `repository`, `repository.owner`, `installation` or `deployment`, is present but not an object; otherwise each field is the value at its key path, or None when missing |
| Claims.WholeSeconds | webhook-server/app.py:112 | `int(time.time())` truncates toward zero: it is within one second of the clock, on the same side of zero |
| Claims.ServerClaims | webhook-server/app.py:112-121 | `iat` is 60 s before `now`, `exp` 600 s after it, so `iat < now < exp` and `exp - iat == 660`; `iss` is the app id |
| Claims.ScriptClaims | scripts/generate-jwt.py:50-58 | the script's claims satisfy the same relations: `iat < now < exp`, 60 s before and 600 s after, span 660, `iss` the app id |
| Claims.BuildersAgree | scripts/generate-jwt.py:52-57 | the script and the server build identical claims for the same clock reading and app id |
| Claims.CurrentWindow | webhook-server/app.py:116-119 | the token is issued and unexpired for a verifier clock exactly from 60 s behind the signer to just under 600 s ahead |
| Approval.ReviewBody | webhook-server/app.py:205-209 | the review body always has state `approved` and the given environment name; the comment is the supplied one unless it is None or empty, then the stamped default; never empty |
| Approval.ApproveDeployment | webhook-server/app.py:168-223 | the token exchange comes first with the server's claims; the review POST follows only if a token came back and carries it; only 204 yields the approved dict; 4xx/5xx raise HTTPError; any other status returns None; a failed POST raises; a failed exchange raises with no POST |
| Approval.ClaimsAroundClock | webhook-server/app.py:112-119 | against a non-negative `time.time()` reading, `iat` lies 60 to 61 s before it and `exp` 599 to 600 s after it |
| Approval.OnlyApprovals | webhook-server/app.py:205-215 | every review the approval client sends has state `approved` and the given environment |
| Webhook.Handle | webhook-server/app.py:287-387 | the MAC and the JSON decoder only see the raw body; the decoder only runs after the signature is accepted; the client only sees 200, 400, 401 or 500 |
| HandlerProperties.UnauthorizedIff | webhook-server/app.py:304-307 | 401 is answered exactly when the signature is refused, and then the body is not decoded and no API is called |
| HandlerProperties.NothingBeforeSignature | webhook-server/app.py:304-314 | unless the signature is accepted, nothing is decoded, no API is called, and the answer is 401 or 500 |
| HandlerProperties.BadJsonIff | webhook-server/app.py:309-322 | 400 is answered exactly when an accepted body raises JSONDecodeError, whatever the event type, and then no API is called |
| HandlerProperties.OtherEventIgnored | webhook-server/app.py:319-322 | an event type other than `deployment_protection_rule` gets 200 "Event type not supported" and no API call |
| HandlerProperties.IllShapedPayloadEscapes | webhook-server/app.py:324-337 | a protection-rule payload that fails the `.get` chain raises AttributeError out of the handler before any decision or API call |
| HandlerProperties.OtherActionIgnored | webhook-server/app.py:385-387 | an action other than `requested` gets 200 "Action not handled" and no API call |
| HandlerProperties.ManualReviewIff | webhook-server/app.py:347-383 | the manual-review reply comes exactly for a requested deployment whose trigger is not `schedule` (including none); it is 200, echoes the trigger and calls no API |
| HandlerProperties.ExchangeIff | webhook-server/app.py:347-360 | the token exchange is attempted exactly for a requested, scheduled deployment; it comes first, with the payload's installation id and the server's claims; at most two API calls are made |
| HandlerProperties.ApprovalPostIff | webhook-server/app.py:347-360 | a review is POSTed exactly when a requested, scheduled deployment got a token; every review POSTed approves the payload's environment with the scheduled-run comment under that token |
| HandlerProperties.ApprovalReplies | webhook-server/app.py:352-367 | the approved reply comes exactly when the platform answered 204; a failed exchange, a failed POST or a 4xx/5xx answer becomes 500; any other status becomes 200 with a null body |
| Scenarios.ScheduledRunApproved | webhook-server/app.py:347-363 | a correctly signed scheduled run is approved with exactly one token exchange and one `approved` review POST |
| Scenarios.DispatchedRunLeftForReview | webhook-server/app.py:369-383 | a correctly signed `workflow_dispatch` run gets the manual-review reply and no API call |
| Scenarios.CorruptedSignatureRefused | webhook-server/app.py:304-307 | a scheduled run under a different digest gets 401, with the body never decoded and no API called |
| Scenarios.FailedExchangeAnswered500 | webhook-server/app.py:365-367 | a failed token exchange gets 500 and the review is never POSTed |
| Scenarios.ExchangeWithoutInstallationId | webhook-server/app.py:330-334 | a scheduled payload without an installation id still triggers a token exchange, for installation None |
| Scenarios.HeaderWithoutSeparatorEscapes | webhook-server/app.py:81 | the header `sha256` makes the unpack raise out of the handler, so the client sees 500 rather than 401 |

## Left out

- HMAC-SHA256 and hex encoding (RFC 2104): the MAC is the parameter `mac`. The constant-time property of `hmac.compare_digest` cannot be stated; only its equality and its ASCII-only rule are modelled.
- `json.loads`: the parameter `parse`. Decoded numbers are whole numbers; floats are not distinguished because the handler only passes them along.
- The installation-token exchange (webhook-server/app.py:138-165): the PEM key loading, `jwt.encode` with RS256 and the HTTP POST form one given outcome, a token or an exception. The model records the installation id and the claims presented.
- The review POST: its outcome is a given status code or an exception. The URL and headers are not modelled. The owner, repository, run id, bearer token and JSON body are recorded.
- `reject_deployment` (webhook-server/app.py:226-274): no handler path calls it.
- Flask routing, the `/health` endpoint and the 404 handler. The 500 error handler appears only as `HttpStatus` mapping an escaping exception to 500. In debug mode Flask's debugger answers such exceptions instead, also with 500.
- `time.time()` is a real number, not a binary floating-point value; its rounding is not modelled.
- Logging, except where building a log message raises, and `datetime.utcnow()` for the default comment, which is a time-stamp parameter.
- Environment-variable validation, private-key file reading and `exit(1)` at import time (webhook-server/app.py:43-62).
- `request.data` is taken to be the raw body. Flask leaves it empty for form-encoded requests; that case is not modelled.
- The helper script's CLI: `argparse`, `load_private_key`, `test_jwt_token`, `decode_jwt_token` and `main`.
- Claims.ScriptClaims: `str(app_id)` is modelled only for a str argument, where it is the identity. The script's only caller passes the str from `argparse` (`type=str`) or the environment.
- Signature.OtherDigestRefused: stated for forged digests that are ASCII and free of `=`. A forged digest holding `=` raises in the unpack (`Signature.UnpackRaisesIff`). One holding a non-ASCII character raises in `compare_digest` (`Signature.NonAsciiDigestRaises`). Both are answered 500, not 401.
- The debug line `json.dumps(data, indent=2)` in `approve_deployment` (webhook-server/app.py:212). It runs after the token exchange and before the review POST, and it raises RecursionError when the environment name taken from the payload is nested too deeply for the encoder. The model does not track encoder depth. For such a payload it records a `PostReview` that was never sent, and it takes the reply from the POST outcome instead of answering 500.
- `X-GitHub-Delivery` is read but only logged, so it has no effect in the model.
