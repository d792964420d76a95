/** `JwtUtil.extractJwtToken`: the token carried by an HTTP Authorization
    header. Signing and parsing tokens is left to the JWT library and is not
    part of this model. */
module JwtUtil {
  import opened Entities

  /** The exact, case-sensitive scheme prefix, space included. */
  const BearerPrefix: string := "Bearer "

  const InvalidHeaderError: Error := IllegalArgument("Invalid or missing Authorization header")

  /** `extractJwtToken`; an absent header is `None`. */
  function ExtractJwtToken(header: Option<string>): (r: Result<string>)
    ensures r.Ok? <==> header.Some? && BearerPrefix <= header.value
    ensures r.Ok? ==> |r.value| == |header.value| - 7
    ensures r.Err? ==> r.error == InvalidHeaderError
  {
    if header.Some? && BearerPrefix <= header.value then Ok(header.value[|BearerPrefix|..])
    else Err(InvalidHeaderError)
  }

  /** Stripping the prefix undoes adding it. */
  lemma ExtractJwtTokenRoundTrip(token: string)
    ensures ExtractJwtToken(Some(BearerPrefix + token)) == Ok(token)
  {
    assert (BearerPrefix + token)[..|BearerPrefix|] == BearerPrefix;
    assert (BearerPrefix + token)[|BearerPrefix|..] == token;
  }

  /** A header that is accepted is the prefix followed by the result. */
  lemma ExtractJwtTokenSplits(header: string)
    requires ExtractJwtToken(Some(header)).Ok?
    ensures header == BearerPrefix + ExtractJwtToken(Some(header)).value
  {
    assert header == header[..|BearerPrefix|] + header[|BearerPrefix|..];
  }

  /** No header, the scheme without its space, and the scheme in another
      case are all refused. */
  lemma MalformedHeadersRejected(token: string)
    ensures ExtractJwtToken(None) == Err(InvalidHeaderError)
    ensures ExtractJwtToken(Some("Bearer")) == Err(InvalidHeaderError)
    ensures ExtractJwtToken(Some("bearer " + token)) == Err(InvalidHeaderError)
    ensures ExtractJwtToken(Some("Bearer" + token)).Ok? <==> |token| > 0 && token[0] == ' '
  {
    assert ("bearer " + token)[0] == 'b';
    if |token| > 0 && token[0] == ' ' {
      assert ("Bearer" + token)[..7] == BearerPrefix;
    } else if |token| > 0 {
      assert ("Bearer" + token)[6] == token[0];
    }
  }
}
