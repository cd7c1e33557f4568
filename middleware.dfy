/**
  * The bearer-token middleware: it reads the Authorization header, takes
  * the token after "Bearer ", has it verified, and on success attaches the
  * caller's identity to the request. Token verification (signature and
  * expiry) is a parameter.
  */
module AuthMiddleware {
  import opened Wrappers
  import opened Text

  /** The payload a verified token carries: the claims login signed plus the issue and expiry times (seconds). */
  datatype TokenPayload = TokenPayload(userId: int, role: string, issuedAt: int, expiresAt: int)

  /** `req.user`: who is calling, as downstream handlers see it. */
  datatype Identity = Identity(userId: int, role: string)

  /** What a middleware does with a request: call `next`, or answer it itself. */
  datatype Outcome = Next | Respond(status: int, error: string)

  /** The part of an Express request the middlewares read and write. */
  class Request {
    /** `req.headers.authorization`, absent when the header was not sent. */
    var authorization: Option<string>
    /** `req.user`, absent until authentication succeeds. */
    var user: Option<Identity>

    constructor (authorization: Option<string>)
      ensures this.authorization == authorization && user == None
    {
      this.authorization := authorization;
      user := None;
    }
  }

  /**
    * The token of an Authorization header: `header.split(" ")[1]` when the
    * header starts with "Bearer " and that segment is not empty.
    */
  function BearerToken(header: string): (t: Option<string>)
    ensures t.Some? <==> StartsWith(header, "Bearer ") && |header| > 7 && header[7] != ' '
    ensures t.Some? ==> t.value != "" && ' ' !in t.value && StartsWith(header[7..], t.value)
    ensures t.Some? ==> 7 + |t.value| == |header| || header[7 + |t.value|] == ' '
  {
    if !StartsWith(header, "Bearer ") then None
    else
      var rest := header[7..];
      assert header == "Bearer" + [' '] + rest;
      SplitAfterPiece("Bearer", ' ', rest);
      SplitFirstPiece(rest, ' ');
      var token := Split(header, ' ')[1];
      assert token == Split(rest, ' ')[0];
      if token == "" then None else Some(token)
  }

  /** The middleware: 401 without a usable bearer token or when verification fails; otherwise `req.user` is set and `next` runs. */
  method Authenticate(req: Request, verify: string -> Option<TokenPayload>) returns (out: Outcome)
    modifies req
    ensures req.authorization == old(req.authorization)
    ensures var token := BearerToken(req.authorization.GetOr(""));
      && (token.None? ==> out == Respond(401, "No token provided") && req.user == old(req.user))
      && (token.Some? && verify(token.value).None? ==>
            out == Respond(401, "Invalid or expired token") && req.user == old(req.user))
      && (token.Some? && verify(token.value).Some? ==>
            var p := verify(token.value).value;
            out == Next && req.user == Some(Identity(p.userId, p.role)))
  {
    var header := req.authorization.GetOr("");
    if !StartsWith(header, "Bearer ") {
      return Respond(401, "No token provided");
    }
    var token := BearerToken(header);
    if token.None? {
      return Respond(401, "No token provided");
    }
    match verify(token.value) {
      case None =>
        out := Respond(401, "Invalid or expired token");
      case Some(decoded) =>
        req.user := Some(Identity(decoded.userId, decoded.role));
        out := Next;
    }
  }
}

/** The admin guard that runs after authentication on admin-only routes. */
module AdminMiddleware {
  import opened Wrappers
  import opened AuthMiddleware

  /** `adminOnly`: `next` exactly when `req.user` is present with the role "admin" (case-sensitive); otherwise 403. */
  function AdminOnly(req: Request): (out: Outcome)
    reads req
    ensures out == Next <==> req.user.Some? && req.user.value.role == "admin"
    ensures out != Next ==> out == Respond(403, "Admin access only")
  {
    if req.user.None? || req.user.value.role != "admin" then Respond(403, "Admin access only")
    else Next
  }

  /**
    * The chain `authMiddleware, adminOnly` that guards the admin routes: the
    * handler runs exactly when the bearer token verifies to an admin.
    */
  method AdminRoute(req: Request, verify: string -> Option<TokenPayload>) returns (out: Outcome)
    modifies req
    ensures var token := BearerToken(req.authorization.GetOr(""));
      out == Next <==> token.Some? && verify(token.value).Some? && verify(token.value).value.role == "admin"
    ensures out != Next ==> out.status in {401, 403}
  {
    out := Authenticate(req, verify);
    if out == Next {
      out := AdminOnly(req);
    }
  }
}
