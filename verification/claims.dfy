/**
 The claim set of the GitHub App JSON Web Token, built by the server's
 `generate_jwt` and by the helper script's `generate_jwt_token`: `iat`
 (section 4.1.6 of RFC 7519), `exp` (section 4.1.4) and `iss` (section
 4.1.1). Signing with RS256 (section 3.3 of RFC 7518) is not modelled; the
 clock reading is a parameter.
 */
module Claims {

  datatype ClaimSet = ClaimSet(iat: int, exp: int, iss: string)

  /** Seconds `iat` is back-dated to allow for clock drift. */
  const DriftAllowance: int := 60

  /** Seconds from the signing instant to `exp`: ten minutes. */
  const Lifetime: int := 10 * 60

  /**
   `int(time.time())`: Python's `int` of a float truncates toward zero, so the
   whole-second reading never lies on the far side of zero from the clock.
   */
  function WholeSeconds(t: real): (s: int)
    ensures t >= 0.0 ==> s as real <= t < s as real + 1.0
    ensures t < 0.0 ==> s as real - 1.0 < t <= s as real
  {
    if t >= 0.0 then t.Floor else -((-t).Floor)
  }

  /** The claim dict of `generate_jwt` in the server, at whole-second time `now`. */
  function ServerClaims(now: int, appId: string): (c: ClaimSet)
    ensures c.iat < now < c.exp
    ensures now - c.iat == DriftAllowance && c.exp - now == Lifetime
    ensures c.exp - c.iat == 660
    ensures c.iss == appId
  {
    ClaimSet(now - DriftAllowance, now + Lifetime, appId)
  }

  /**
   The claim dict of `generate_jwt_token` in the helper script. Its `iss` is
   `str(app_id)`; the app id reaches it as a str, on which `str` is the
   identity.
   */
  function ScriptClaims(now: int, appId: string): (c: ClaimSet)
    ensures c.iat < now < c.exp
    ensures now - c.iat == 60 && c.exp - now == 600
    ensures c.exp - c.iat == 660
    ensures c.iss == appId
  {
    ClaimSet(now - 60, now + (10 * 60), appId)
  }

  /** The two claim builders agree on every input. */
  lemma BuildersAgree(now: int, appId: string)
    ensures ScriptClaims(now, appId) == ServerClaims(now, appId)
  {
  }

  /** A verifier at time `t` sees the token as issued and not yet expired. */
  predicate CurrentAt(c: ClaimSet, t: int) {
    c.iat <= t < c.exp
  }

  /**
   The token is current for a verifier whose clock reads anything from 60
   seconds behind the signer to just under 600 seconds ahead of it, and at no
   other time.
   */
  lemma CurrentWindow(now: int, appId: string, t: int)
    ensures CurrentAt(ServerClaims(now, appId), t) <==> now - 60 <= t < now + 600
  {
  }
}
