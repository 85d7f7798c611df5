/**
 * The two request guards of the API: `protect`, which reads a bearer credential
 * from the Authorization header, and `authorize`, which checks the caller's role.
 * Token verification belongs to a signing library and is a parameter here: it
 * maps a token to the claims it carries, or to nothing when it does not verify.
 */
module Auth {
  import opened Wrappers
  import Text

  /** The identity a verified token carries, copied onto the request. */
  datatype Claims = Claims(id: string, role: string)

  /** What a guard does with a request: pass it on with a caller, or answer it. */
  datatype Gate = Pass(user: Claims) | Deny(code: nat, message: string)

  const BearerPrefix: string := "Bearer "

  /** `auth.split(' ')[1]`: the second space-separated piece of the header. */
  function BearerToken(header: string): (token: string)
    requires Text.StartsWith(header, BearerPrefix)
    ensures Text.StartsWith(header[|BearerPrefix|..], token)
    ensures Text.NoSep(token, {' '})
    ensures |token| == |header| - |BearerPrefix| || header[|BearerPrefix| + |token|] == ' '
  {
    var rest := header[|BearerPrefix|..];
    assert header == "Bearer" + [' '] + rest;
    Text.SplitAfterWord("Bearer", ' ', rest, {' '});
    Text.SplitFirstPiece(rest, {' '});
    Text.Split(header, {' '})[1]
  }

  /** The token is the word right after "Bearer "; anything after the next blank is ignored. */
  lemma {:induction false} BearerTokenIsSecondWord(t: string, more: string)
    requires Text.NoSep(t, {' '})
    ensures BearerToken(BearerPrefix + t) == t
    ensures BearerToken(BearerPrefix + t + " " + more) == t
  {
    var h1 := BearerPrefix + t;
    var h2 := BearerPrefix + t + " " + more;
    assert h1[..|BearerPrefix|] == BearerPrefix && h1[|BearerPrefix|..] == t;
    assert h2[..|BearerPrefix|] == BearerPrefix && h2[|BearerPrefix|..] == t + [' '] + more;
    assert h1 == "Bearer" + [' '] + t;
    assert h2 == "Bearer" + [' '] + (t + [' '] + more);
    Text.SplitAfterWord("Bearer", ' ', t, {' '});
    Text.SplitAfterWord("Bearer", ' ', t + [' '] + more, {' '});
    Text.SplitNoSep(t, {' '});
    Text.SplitAfterWord(t, ' ', more, {' '});
  }

  /**
   * `protect`: no header, or one not starting with "Bearer ", is answered 401
   * "Not authorized"; a token that does not verify is answered 401 "Token invalid";
   * otherwise the request goes on with exactly the token's id and role.
   */
  function Protect(header: Option<string>, verify: string -> Option<Claims>): (g: Gate)
    ensures g.Deny? ==> g.code == 401
    ensures header.None? || !Text.StartsWith(header.value, BearerPrefix) ==> g == Deny(401, "Not authorized")
    ensures g.Pass? <==>
      header.Some? && Text.StartsWith(header.value, BearerPrefix) && verify(BearerToken(header.value)).Some?
    ensures g.Pass? ==> g.user == verify(BearerToken(header.value)).value
    ensures header.Some? && Text.StartsWith(header.value, BearerPrefix) && verify(BearerToken(header.value)).None? ==>
      g == Deny(401, "Token invalid")
  {
    if header.None? || !Text.StartsWith(header.value, BearerPrefix) then Deny(401, "Not authorized")
    else
      match verify(BearerToken(header.value))
      case None => Deny(401, "Token invalid")
      case Some(decoded) => Pass(Claims(decoded.id, decoded.role))
  }

  /**
   * `authorize(...allowedRoles)`: 401 without a caller, 403 when the caller's role
   * is not allowed, otherwise the request goes on with the caller untouched.
   */
  function Authorize(user: Option<Claims>, allowedRoles: seq<string>): (g: Gate)
    ensures g.Pass? <==> user.Some? && user.value.role in allowedRoles
    ensures g.Pass? ==> g.user == user.value
    ensures user.None? ==> g == Deny(401, "Not authorized")
    ensures user.Some? && user.value.role !in allowedRoles ==> g == Deny(403, "Forbidden")
  {
    if user.None? then Deny(401, "Not authorized")
    else if user.value.role !in allowedRoles then Deny(403, "Forbidden")
    else Pass(user.value)
  }
}
