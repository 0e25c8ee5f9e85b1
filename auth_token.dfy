/**
 * `useAuthToken`: reads the subject, the role and the expiry out of a bearer
 * token. Decoding (`jwt.decode`) is a parameter; time is an integer number of
 * milliseconds since the epoch.
 */
module AuthToken {
  import opened Wrappers

  /** The claims `jwt.decode` yields; a claim may be missing. `exp` is in seconds. */
  datatype Payload = Payload(sub: Option<string>, role: Option<string>, exp: Option<int>)

  datatype TokenInfo = TokenInfo(sub: Option<string>, role: Option<string>, isExpired: bool)

  /** The function returns either the token's information or an error string. */
  datatype TokenResult = Decoded(info: TokenInfo) | Invalid(message: string)

  const InvalidToken: string := "Token is invalid"

  /** A `Date` holds time values of magnitude at most 8.64e15; beyond that it is an invalid date. */
  const MaxTimeValue: int := 8_640_000_000_000_000

  /** `+new Date(exp)`: the time value, or `NaN` (`None`) when `exp` is missing or out of range. */
  function DateValue(exp: Option<int>): Option<int> {
    if exp.Some? && -MaxTimeValue <= exp.value <= MaxTimeValue then exp else None
  }

  /**
   * `useAuthToken(token)` at time `nowMs`. A `null` result of `decode` makes
   * `decode.exp` throw, so a failed decode of either kind gives the error string.
   * `isExpired` compares `exp` against the current time divided by 1000; the
   * division is exact here, where JavaScript rounds it to a double.
   */
  function UseAuthToken(decode: string -> Option<Payload>, token: string, nowMs: int): (r: TokenResult)
    ensures r.Invalid? <==> decode(token).None?
    ensures r.Invalid? ==> r.message == InvalidToken
    ensures r.Decoded? ==> r.info.sub == decode(token).value.sub && r.info.role == decode(token).value.role
    ensures r.Decoded? ==> (r.info.isExpired <==> ExpiredAt(decode(token).value.exp, nowMs))
  {
    match decode(token)
    case None => Invalid(InvalidToken)
    case Some(p) =>
      var expires := DateValue(p.exp);
      Decoded(TokenInfo(p.sub, p.role, expires.Some? && expires.value as real <= nowMs as real / 1000.0))
  }

  /** The token has expired at `nowMs`: its expiry, in milliseconds, is not after `nowMs`. */
  predicate ExpiredAt(exp: Option<int>, nowMs: int) {
    exp.Some? && -MaxTimeValue <= exp.value <= MaxTimeValue && exp.value * 1000 <= nowMs
  }

  /** A token expired at some time stays expired at every later time. */
  lemma ExpiryMonotone(decode: string -> Option<Payload>, token: string, t1: int, t2: int)
    requires t1 <= t2
    requires UseAuthToken(decode, token, t1).Decoded? && UseAuthToken(decode, token, t1).info.isExpired
    ensures UseAuthToken(decode, token, t2).Decoded? && UseAuthToken(decode, token, t2).info.isExpired
  {
  }

  /** The boundary is inclusive: a token expires exactly at `exp * 1000` milliseconds. */
  lemma ExpiryBoundary(decode: string -> Option<Payload>, token: string, e: int)
    requires decode(token).Some? && decode(token).value.exp == Some(e)
    requires -MaxTimeValue <= e <= MaxTimeValue
    ensures UseAuthToken(decode, token, e * 1000).info.isExpired
    ensures !UseAuthToken(decode, token, e * 1000 - 1).info.isExpired
  {
  }

  /** A payload without `exp` never counts as expired: the comparison is against `NaN`. */
  lemma MissingExpNeverExpires(decode: string -> Option<Payload>, token: string, nowMs: int)
    requires decode(token).Some? && decode(token).value.exp.None?
    ensures !UseAuthToken(decode, token, nowMs).info.isExpired
  {
  }
}
