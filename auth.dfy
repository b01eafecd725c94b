/**
 * `getUserFromRequest`: the `Authorization: Bearer <token>` credential of
 * section 2.1 of RFC 6750, read from a request's headers and handed to the
 * token verifier.  Verifying a JSON Web Token is a call into a signing
 * library, so the verifier is a parameter: a total function that gives the
 * token's payload, or nothing for any token it rejects (`verifyToken`
 * catches every verification error and returns `null`).
 */
module Auth {
  import opened Wrappers

  /** The claims a valid token carries. */
  datatype JwtPayload = JwtPayload(userId: string, email: string)

  /** The prefix `getUserFromRequest` demands, trailing space included. */
  const BearerPrefix: string := "Bearer "

  /**
   * The credential of an `authorization` header value (`None`: the header is
   * absent): the text after the first seven characters, when the value
   * starts with `Bearer ` exactly as written.
   */
  function BearerToken(header: Option<string>): (r: Option<string>)
    ensures r.Some? <==> header.Some? && |header.value| >= 7 && header.value[..7] == BearerPrefix
    ensures r.Some? ==> header.value == BearerPrefix + r.value
  {
    if header.None? || header.value == "" then None
    else if |header.value| >= 7 && header.value[..7] == BearerPrefix then Some(header.value[7..])
    else None
  }

  /**
   * `getUserFromRequest`: no payload without a well-formed header;
   * otherwise whatever the verifier makes of the credential.
   */
  function GetUserFromRequest(header: Option<string>, verifyToken: string -> Option<JwtPayload>): (r: Option<JwtPayload>)
    ensures header.None? ==> r.None?
    ensures BearerToken(header).None? ==> r.None?
    ensures r.Some? ==> exists t :: header == Some(BearerPrefix + t) && verifyToken(t) == r
  {
    match BearerToken(header)
    case None => None
    case Some(token) => verifyToken(token)
  }

  /** A header built from a credential gives that credential back, and the verifier sees exactly it. */
  lemma BearerRoundTrip(t: string, verifyToken: string -> Option<JwtPayload>)
    ensures BearerToken(Some(BearerPrefix + t)) == Some(t)
    ensures GetUserFromRequest(Some(BearerPrefix + t), verifyToken) == verifyToken(t)
  {
    assert (BearerPrefix + t)[..7] == BearerPrefix;
    assert (BearerPrefix + t)[7..] == t;
  }

  /** The scheme is matched case-sensitively: `bearer` and `BEARER` are refused. */
  lemma SchemeIsCaseSensitive(t: string, verifyToken: string -> Option<JwtPayload>)
    ensures GetUserFromRequest(Some("bearer " + t), verifyToken).None?
    ensures GetUserFromRequest(Some("BEARER " + t), verifyToken).None?
  {
    assert ("bearer " + t)[0] == 'b';
    assert ("BEARER " + t)[1] == 'E';
  }

  /** Without the space after the scheme there is no credential: `Bearer` alone is refused. */
  lemma SchemeNeedsSpace(verifyToken: string -> Option<JwtPayload>)
    ensures GetUserFromRequest(Some("Bearer"), verifyToken).None?
    ensures GetUserFromRequest(Some(""), verifyToken).None?
  {
  }

  /** `Bearer ` followed by nothing passes the empty credential to the verifier. */
  lemma EmptyCredentialReachesVerifier(verifyToken: string -> Option<JwtPayload>)
    ensures GetUserFromRequest(Some(BearerPrefix), verifyToken) == verifyToken("")
  {
    BearerRoundTrip("", verifyToken);
    assert BearerPrefix + "" == BearerPrefix;
  }
}
