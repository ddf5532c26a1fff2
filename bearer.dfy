/**
 * How the flat-file backend reads the caller's identity from the
 * `Authorization` header when a route does not require it.
 */
module Bearer {
  import opened Wrappers
  import opened JsText

  /** `req.headers.authorization?.split(" ")[1]`: the second space-separated
      piece of the header, absent when the header is missing or has no space. */
  function TokenOf(authorization: Option<string>): (token: Option<string>)
    ensures token.Some? <==> authorization.Some? && ' ' in authorization.value
    ensures token.Some? ==> ' ' !in token.value
  {
    match authorization
    case None => None
    case Some(h) =>
      var parts := Split(h, ' ');
      SplitManyHasSep(h, ' ');
      if |parts| > 1 then Some(parts[1])
      else
        JoinSplit(h, ' ');
        None
  }

  /** The user id of the caller, or None for an anonymous caller: a missing or
      empty token, or one that `verify` (the JWT check) rejects. */
  function Requester(authorization: Option<string>, verify: string -> Option<string>): (user: Option<string>)
    ensures IsTruthy(TokenOf(authorization)) ==> user == verify(TokenOf(authorization).value)
    ensures !IsTruthy(TokenOf(authorization)) ==> user.None?
  {
    var token := TokenOf(authorization);
    if IsTruthy(token) then verify(token.value) else None
  }

  /** The token is the piece between the first and the second space, whatever
      the scheme word before it: `scheme + " " + token` gives back `token`, and
      so does the same header followed by a space and anything else. The
      scheme word itself is not checked, so "Basic abc" gives "abc" too. */
  lemma {:induction false} TokenOfHeader(scheme: string, token: string, rest: string)
    requires ' ' !in scheme && ' ' !in token
    ensures TokenOf(Some(scheme + " " + token)) == Some(token)
    ensures TokenOf(Some(scheme + " " + token + " " + rest)) == Some(token)
  {
    SplitAfterPiece(scheme, token, ' ');
    assert scheme + [' '] + token == scheme + " " + token;
    SplitNoSep(token, ' ');
    SplitAfterPiece(scheme, token + [' '] + rest, ' ');
    assert scheme + [' '] + (token + [' '] + rest) == scheme + " " + token + " " + rest;
    SplitAfterPiece(token, rest, ' ');
  }
}
