/**
 * Request authentication and role gates (server/middleware/authMiddleware.js).
 * `auth` finds a token in the `Authorization: Bearer <t>` header or, failing
 * that, in the `?token=` query parameter, verifies it and stores its payload
 * on the request; `admin` and `authorization` are role gates run after it.
 */
module AuthMiddleware {
  import opened Wrappers
  import opened Text
  import opened Models

  const BearerPrefix: string := "Bearer "
  const NoTokenMessage: string := "No token, authorization denied"
  const InvalidTokenMessage: string := "Token is not valid"
  const AdminsOnlyMessage: string := "Access denied. Admins only."
  const NotAllowedMessage: string := "your are not allowed"

  /** What a middleware does with a request: pass it on to `next`, or answer it with a status and message. */
  datatype Gate = Next | Deny(status: nat, message: string)

  /** What `auth` decides: the verified payload, or the rejection it answers with. */
  datatype AuthResult = Authenticated(user: Claims) | Rejected(status: nat, message: string)

  lemma BearerHeaderHasSpace(header: string)
    requires StartsWith(header, BearerPrefix)
    ensures |Split(header, ' ')| >= 2
  {
    assert header[6] == ' ';
    OccursPositive(header, ' ');
  }

  /**
   * The token the `Authorization` header offers: the second space-separated
   * piece of a header starting with "Bearer ", and "" when the header is
   * missing, empty or of another form.
   */
  function HeaderToken(authorization: Option<string>): (t: string)
    ensures ' ' !in t
    ensures t != "" ==> Truthy(authorization) && StartsWith(authorization.value, BearerPrefix)
  {
    if Truthy(authorization) && StartsWith(authorization.value, BearerPrefix) then
      BearerHeaderHasSpace(authorization.value);
      Split(authorization.value, ' ')[1]
    else ""
  }

  /** The header token is the word right after "Bearer ": everything up to the next space or the end. */
  lemma HeaderTokenIsNextWord(header: string)
    requires StartsWith(header, BearerPrefix)
    ensures var rest := header[|BearerPrefix|..];
      var t := HeaderToken(Some(header));
      |t| <= |rest| && t == rest[..|t|] && (|t| < |rest| ==> rest[|t|] == ' ')
  {
    var rest := header[|BearerPrefix|..];
    assert header == "Bearer" + [' '] + rest;
    SplitAfterWord("Bearer", ' ', rest);
    SplitFirstPiece(rest, ' ');
  }

  /**
   * The value `auth` holds in `token` once it has looked at the header and
   * then at the query: the header's token when that is non-empty, otherwise
   * the query's `token` when that is present and non-empty.
   */
  function ExtractToken(authorization: Option<string>, query: Option<string>): (t: Option<string>)
    ensures HeaderToken(authorization) != "" ==> t == Some(HeaderToken(authorization))
    ensures HeaderToken(authorization) == "" && Truthy(query) ==> t == query
    ensures Truthy(t) <==> HeaderToken(authorization) != "" || Truthy(query)
  {
    var fromHeader :=
      if Truthy(authorization) && StartsWith(authorization.value, BearerPrefix)
      then Some(HeaderToken(authorization)) else None;
    if !Truthy(fromHeader) && Truthy(query) then query else fromHeader
  }

  /** The decision of `auth`: 401 without a token, 401 for a token that fails verification, else its payload. */
  function Authenticate(authorization: Option<string>, query: Option<string>, verify: string -> Option<Claims>): (r: AuthResult)
    ensures r.Rejected? ==> r.status == 401
    ensures r == Rejected(401, NoTokenMessage) <==> !Truthy(ExtractToken(authorization, query))
    ensures r == Rejected(401, InvalidTokenMessage)
      <==> Truthy(ExtractToken(authorization, query)) && verify(ExtractToken(authorization, query).value).None?
    ensures r.Authenticated? ==> Some(r.user) == verify(ExtractToken(authorization, query).value)
  {
    var token := ExtractToken(authorization, query);
    if !Truthy(token) then Rejected(401, NoTokenMessage)
    else match verify(token.value)
      case None => Rejected(401, InvalidTokenMessage)
      case Some(decoded) => Authenticated(decoded)
  }

  /** A usable header token makes the query parameter irrelevant. */
  lemma HeaderTokenWins(authorization: Option<string>, q1: Option<string>, q2: Option<string>, verify: string -> Option<Claims>)
    requires HeaderToken(authorization) != ""
    ensures Authenticate(authorization, q1, verify) == Authenticate(authorization, q2, verify)
  {
  }

  /** Without a usable header token, the request is judged by its query parameter alone. */
  lemma QueryIsFallback(authorization: Option<string>, query: Option<string>, verify: string -> Option<Claims>)
    requires HeaderToken(authorization) == ""
    ensures Authenticate(authorization, query, verify) == Authenticate(None, query, verify)
  {
  }

  /** The request object as the middleware sees it; `nextCalls` counts the calls to `next`. */
  class Request {
    var authorization: Option<string>
    var queryToken: Option<string>
    var user: Option<Claims>
    var nextCalls: nat

    constructor (authorization: Option<string>, queryToken: Option<string>)
      ensures this.authorization == authorization && this.queryToken == queryToken
      ensures user == None && nextCalls == 0
    {
      this.authorization := authorization;
      this.queryToken := queryToken;
      user := None;
      nextCalls := 0;
    }
  }

  /**
   * `auth`: answers 401 and stops, or stores the verified payload in
   * `req.user` and calls `next` exactly once.
   */
  method Auth(req: Request, verify: string -> Option<Claims>) returns (g: Gate)
    modifies req`user, req`nextCalls
    ensures var r := Authenticate(req.authorization, req.queryToken, verify);
      match r
      case Rejected(status, message) =>
        g == Deny(status, message) && req.user == old(req.user) && req.nextCalls == old(req.nextCalls)
      case Authenticated(claims) =>
        g == Next && req.user == Some(claims) && req.nextCalls == old(req.nextCalls) + 1
  {
    var token: Option<string> := None;
    if Truthy(req.authorization) {
      var authHeader := req.authorization.value;
      if StartsWith(authHeader, BearerPrefix) {
        BearerHeaderHasSpace(authHeader);
        token := Some(Split(authHeader, ' ')[1]);
      }
    }
    if !Truthy(token) && Truthy(req.queryToken) {
      token := req.queryToken;
    }
    if !Truthy(token) {
      return Deny(401, NoTokenMessage);
    }
    var decoded := verify(token.value);
    if decoded.None? {
      return Deny(401, InvalidTokenMessage);
    }
    req.user := decoded;
    req.nextCalls := req.nextCalls + 1;
    g := Next;
  }

  /** `admin`: passes exactly the callers whose role is "admin"; everyone else gets 403. */
  function AdminGate(role: string): (g: Gate)
    ensures g.Next? <==> role == "admin"
    ensures g.Deny? ==> g == Deny(403, AdminsOnlyMessage)
  {
    if role != "admin" then Deny(403, AdminsOnlyMessage) else Next
  }

  /** `authorization(allowedRoles)`: passes exactly the callers whose role is listed; everyone else gets 409. */
  function AuthorizationGate(allowedRoles: seq<string>, role: string): (g: Gate)
    ensures g.Next? <==> role in allowedRoles
    ensures g.Deny? ==> g == Deny(409, NotAllowedMessage)
  {
    if role !in allowedRoles then Deny(409, NotAllowedMessage) else Next
  }

  /** `admin` lets through the same callers as `authorization(["admin"])`; only the refusal status differs. */
  lemma AdminGateIsAdminOnlyAuthorization(role: string)
    ensures AdminGate(role).Next? == AuthorizationGate(["admin"], role).Next?
    ensures AdminGate(role).Deny? ==> AdminGate(role).status == 403 && AuthorizationGate(["admin"], role).status == 409
  {
  }
}
