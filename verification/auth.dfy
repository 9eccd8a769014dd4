/**
 * The authentication middleware of server/middleware/auth.ts. Signing and verifying tokens is
 * not modelled: verification is a parameter that either decodes a token into its claims or
 * fails.
 */
module Auth {
  import opened Wrappers
  import opened Text
  import opened Schema

  /** What a token carries: the user's id, role and department, nothing else. */
  datatype Claims = Claims(id: int, role: string, department: Option<string>)

  /**
   * What a middleware does with a request: hand it on, answer it with an error status, or
   * throw (Express then answers with its default error handler).
   */
  datatype Outcome = Next | Reject(status: int, message: string) | Throws

  const MissingToken: string := "Token manquant ou invalide"
  const InvalidToken: string := "Token invalide ou expir\U{00E9}"
  const Forbidden: string := "Acc\U{00E8}s interdit"

  /** The payload `generateToken` signs. */
  function TokenPayload(u: UserRow): Claims {
    Claims(u.id, u.role, u.department)
  }

  predicate StartsWith(s: string, prefix: string) {
    prefix <= s
  }

  /** `authHeader.split(" ")[1]`, for a header that starts with "Bearer ". */
  function BearerToken(header: string): string
    requires StartsWith(header, "Bearer ")
  {
    assert header == "Bearer" + [' '] + header[7..];
    SplitAtSeparator("Bearer", ' ', header[7..]);
    Split(header, ' ')[1]
  }

  /** The decision of `requireAuth`: the decoded claims, or the 401 it answers with. */
  function Authenticate(header: Option<string>, verify: string -> Option<Claims>): Result<Claims, Outcome> {
    if header.None? || header.value == "" || !StartsWith(header.value, "Bearer ") then
      Err(Reject(401, MissingToken))
    else
      var decoded := verify(BearerToken(header.value));
      if decoded.None? then Err(Reject(401, InvalidToken)) else Ok(decoded.value)
  }

  /** A request as the middleware sees it; `user` is set by `requireAuth`. */
  class AuthRequest {
    const authorization: Option<string>
    const userIdParam: string
    var user: Option<Claims>

    constructor (authorization: Option<string>, userIdParam: string)
      ensures this.authorization == authorization && this.userIdParam == userIdParam
      ensures user == None
    {
      this.authorization := authorization;
      this.userIdParam := userIdParam;
      user := None;
    }
  }

  /**
   * `requireAuth`: on success the decoded claims become `req.user` and the request goes on;
   * otherwise the 401 answer and `req.user` is untouched.
   */
  method RequireAuth(req: AuthRequest, verify: string -> Option<Claims>) returns (out: Outcome)
    modifies req
    ensures Authenticate(req.authorization, verify).Ok? ==>
      out == Next && req.user == Some(Authenticate(req.authorization, verify).value)
    ensures Authenticate(req.authorization, verify).Err? ==>
      out == Authenticate(req.authorization, verify).error && req.user == old(req.user)
  {
    var header := req.authorization;
    if header.None? || header.value == "" || !StartsWith(header.value, "Bearer ") {
      return Reject(401, MissingToken);
    }
    var token := BearerToken(header.value);
    var decoded := verify(token);
    if decoded.None? {
      return Reject(401, InvalidToken);
    }
    req.user := Some(decoded.value);
    out := Next;
  }

  /** `requireRole(...roles)`: exact, case-sensitive membership of the role. */
  function RequireRole(roles: seq<string>, user: Option<Claims>): Outcome {
    if user.None? || user.value.role !in roles then Reject(403, Forbidden) else Next
  }

  /**
   * `requireSelfOrAdmin`: admins and superusers pass, others only for their own id in the
   * route; it reads `req.user` without checking it, so without a user it throws.
   */
  function RequireSelfOrAdmin(user: Option<Claims>, userIdParam: string): Outcome {
    if user.None? then Throws
    else if user.value.role == "admin" || user.value.role == "superuser"
         || ParseNumber(userIdParam) == Some(user.value.id) then Next
    else Reject(403, Forbidden)
  }

  /** The token is the text after "Bearer " up to the next space, all of it if there is none. */
  lemma BearerTokenSpec(rest: string)
    ensures BearerToken("Bearer " + rest) == Split(rest, ' ')[0]
    ensures ' ' !in rest ==> BearerToken("Bearer " + rest) == rest
    ensures BearerToken("Bearer ") == ""
  {
    BearerTokenOf(rest);
    if ' ' !in rest {
      SplitWithoutSeparator(rest, ' ');
    }
    BearerTokenOf("");
    assert "Bearer " + "" == "Bearer ";
  }

  lemma BearerTokenOf(rest: string)
    ensures BearerToken("Bearer " + rest) == Split(rest, ' ')[0]
  {
    var h := "Bearer " + rest;
    assert h == "Bearer" + [' '] + rest;
    SplitAtSeparator("Bearer", ' ', rest);
    SplitWithoutSeparator("Bearer", ' ');
  }

  /**
   * `requireAuth` refuses a missing header or one without the "Bearer " prefix, refuses a
   * token that does not verify, and otherwise yields exactly what verification decoded.
   */
  lemma AuthenticateSpec(header: Option<string>, verify: string -> Option<Claims>)
    ensures (header.None? || !StartsWith(header.value, "Bearer ")) ==>
      Authenticate(header, verify) == Err(Reject(401, MissingToken))
    ensures header.Some? && StartsWith(header.value, "Bearer ") ==>
      (Authenticate(header, verify).Ok? <==> verify(BearerToken(header.value)).Some?)
    ensures header.Some? && StartsWith(header.value, "Bearer ") && verify(BearerToken(header.value)).None? ==>
      Authenticate(header, verify) == Err(Reject(401, InvalidToken))
    ensures Authenticate(header, verify).Ok? ==>
      header.Some? && Some(Authenticate(header, verify).value) == verify(BearerToken(header.value))
  {
  }

  /**
   * A token without spaces sent as "Bearer <token>" authenticates as the claims it decodes
   * to; in particular a token signed for a user yields that user's id, role and department.
   */
  lemma BearerRoundTrip(token: string, u: UserRow, verify: string -> Option<Claims>)
    requires ' ' !in token
    requires verify(token) == Some(TokenPayload(u))
    ensures Authenticate(Some("Bearer " + token), verify) == Ok(Claims(u.id, u.role, u.department))
  {
    BearerTokenSpec(token);
    assert StartsWith("Bearer " + token, "Bearer ");
  }

  /** Two users with the same id, role and department get the same token payload. */
  lemma PayloadCarriesOnlyThreeFields(u: UserRow, v: UserRow)
    ensures TokenPayload(u) == TokenPayload(v) <==> u.id == v.id && u.role == v.role && u.department == v.department
  {
  }

  /** `requireRole` lets a request through exactly when its role is listed, letter for letter. */
  lemma RequireRoleSpec(roles: seq<string>, c: Claims)
    ensures RequireRole(roles, None) == Reject(403, Forbidden)
    ensures RequireRole(roles, Some(c)) == Next <==> c.role in roles
    ensures c.role == "ADMIN" ==> RequireRole(["admin"], Some(c)) == Reject(403, Forbidden)
  {
  }

  /**
   * Admins and superusers always pass; anyone else exactly when the route's user id, read as
   * a number, is their own (so "007" and " 7 " name user 7).
   */
  lemma SelfOrAdminSpec(c: Claims, param: string)
    ensures c.role in {"admin", "superuser"} ==> RequireSelfOrAdmin(Some(c), param) == Next
    ensures c.role !in {"admin", "superuser"} ==>
      (RequireSelfOrAdmin(Some(c), param) == Next <==> ParseNumber(param) == Some(c.id))
    ensures RequireSelfOrAdmin(Some(c), IntToString(c.id)) == Next
    ensures RequireSelfOrAdmin(Some(c), param) != Throws
  {
    ParseNumberRoundTrip(c.id);
  }
}
