/**
 * JSON Web Tokens. The wire encoding and the cryptography are abstract: a
 * token records which secret signed it (the access secret, the refresh
 * secret, or one the server does not know, which stands for any forged or
 * tampered string), a serial number that makes every minted token a fresh
 * value, the subject it carries, and its issue and expiry times in seconds.
 * Verification takes the current time as a parameter.
 */
module Tokens {
  import opened Wrappers
  import opened Errors

  datatype SigningKey = AccessSecret | RefreshSecret | UnknownKey

  datatype Token<P> = Token(key: SigningKey, serial: nat, subject: P, issuedAt: int, expiresAt: int)

  /** `signToken`'s default lifetime, 15 minutes. */
  const AccessLifetime: int := 15 * 60
  /** `signRefreshToken`'s default lifetime, 7 days. */
  const RefreshLifetime: int := 7 * 24 * 60 * 60

  /** `signToken`: an access token for `subject`, verifiable until its lifetime has passed. */
  function SignToken<P>(subject: P, serial: nat, now: int): (t: Token<P>)
    ensures t.serial == serial
    ensures forall at :: VerifyToken(t, at) == if at < now + AccessLifetime then Success(subject) else Failure(TokenExpired)
    ensures forall at :: VerifyRefreshToken(t, at) == Failure(InvalidRefreshToken)
  {
    Token(AccessSecret, serial, subject, now, now + AccessLifetime)
  }

  /** `signRefreshToken`: a refresh token for `subject`, verifiable until its lifetime has passed. */
  function SignRefreshToken<P>(subject: P, serial: nat, now: int): (t: Token<P>)
    ensures t.serial == serial
    ensures forall at :: VerifyRefreshToken(t, at) == if at < now + RefreshLifetime then Success(subject) else Failure(RefreshTokenExpired)
    ensures forall at :: VerifyToken(t, at) == Failure(InvalidToken)
  {
    Token(RefreshSecret, serial, subject, now, now + RefreshLifetime)
  }

  /**
   * `verifyToken`: the subject of a token signed with the access secret and
   * not yet expired; the signature is checked before the expiry.
   */
  function VerifyToken<P>(t: Token<P>, now: int): (r: Result<P, Error>)
    ensures r.Success? <==> t.key == AccessSecret && now < t.expiresAt
    ensures r.Success? ==> r.value == t.subject
    ensures r.Failure? ==> r.error.statusCode == Some(401)
  {
    if t.key != AccessSecret then Failure(InvalidToken)
    else if now >= t.expiresAt then Failure(TokenExpired)
    else Success(t.subject)
  }

  /** `verifyRefreshToken`: the same with the refresh secret and its own messages. */
  function VerifyRefreshToken<P>(t: Token<P>, now: int): (r: Result<P, Error>)
    ensures r.Success? <==> t.key == RefreshSecret && now < t.expiresAt
    ensures r.Success? ==> r.value == t.subject
    ensures r.Failure? ==> r.error == (if t.key != RefreshSecret then InvalidRefreshToken else RefreshTokenExpired)
  {
    if t.key != RefreshSecret then Failure(InvalidRefreshToken)
    else if now >= t.expiresAt then Failure(RefreshTokenExpired)
    else Success(t.subject)
  }
}
