/** The request guards: the bearer-token middleware and the admin role gate. Each guard is
    a function from the request to either the identity the next handler receives or the
    error response that stops the request (the next handler is then not called).
    Verifying the JWT signature and expiry is an oracle. */
module Middleware {
  import opened Models

  /** Position of the first `c` in `s`. */
  function IndexOf(s: string, c: char): (i: nat)
    requires c in s
    ensures i < |s| && s[i] == c && c !in s[..i]
  {
    if s[0] == c then 0 else 1 + IndexOf(s[1..], c)
  }

  /** The pieces joined back with the separator between them. */
  function Join(parts: seq<string>, sep: char): string
    requires |parts| >= 1
  {
    if |parts| == 1 then parts[0] else parts[0] + [sep] + Join(parts[1..], sep)
  }

  /** strings.Split with a one-character separator: the maximal separator-free pieces,
      including empty ones, that joined with the separator give back `s`. */
  function Split(s: string, sep: char): (parts: seq<string>)
    ensures |parts| >= 1
    ensures forall i :: 0 <= i < |parts| ==> sep !in parts[i]
    ensures Join(parts, sep) == s
    decreases |s|
  {
    if sep !in s then [s]
    else
      var i := IndexOf(s, sep);
      var rest := Split(s[i + 1..], sep);
      assert ([s[..i]] + rest)[1..] == rest;
      assert s == s[..i] + [sep] + s[i + 1..];
      [s[..i]] + rest
  }

  /** The Authorization header check: present, and split on " " into exactly two parts
      of which the first is exactly "Bearer". The result is the second part. */
  function BearerToken(header: string): (r: Result<string>)
    ensures r.Err? ==> r.status == StatusUnauthorized
    ensures header == "" ==> r == Err(StatusUnauthorized, "Authorization header required")
  {
    if header == "" then Err(StatusUnauthorized, "Authorization header required")
    else
      var parts := Split(header, ' ');
      if |parts| != 2 || parts[0] != "Bearer" then
        Err(StatusUnauthorized, "Invalid authorization header format")
      else Ok(parts[1])
  }

  /** A header is accepted exactly when it is "Bearer", one space, and a token without
      spaces; the token extracted is that suffix. */
  lemma BearerTokenExactly(header: string, token: string)
    ensures BearerToken(header) == Ok(token) <==> header == "Bearer " + token && ' ' !in token
  {
    if header == "Bearer " + token && ' ' !in token {
      assert ' ' !in "Bearer";
      assert IndexOf(header, ' ') == 6 by {
        var i := IndexOf(header, ' ');
        assert header[6] == ' ';
      }
      assert header[..6] == "Bearer";
      assert header[7..] == token;
      assert Split(token, ' ') == [token];
    }
    if BearerToken(header) == Ok(token) {
      var parts := Split(header, ' ');
      assert |parts| == 2 && parts[0] == "Bearer" && parts[1] == token;
      assert Join(parts, ' ') == parts[0] + [' '] + Join(parts[1..], ' ');
      assert parts[1..] == [token];
    }
  }

  /** No token after the scheme is refused. */
  lemma BearerTokenRefusesSchemeAlone()
    ensures BearerToken("Bearer").Err?
  {
    forall t ensures BearerToken("Bearer") != Ok(t) {
      BearerTokenExactly("Bearer", t);
    }
  }

  /** The scheme is compared case-sensitively. */
  lemma BearerTokenRefusesLowerCase()
    ensures BearerToken("bearer abc").Err?
  {
    forall t ensures BearerToken("bearer abc") != Ok(t) {
      BearerTokenExactly("bearer abc", t);
    }
  }

  /** A third part is refused. */
  lemma BearerTokenRefusesThreeParts()
    ensures BearerToken("Bearer a b").Err?
  {
    forall t ensures BearerToken("Bearer a b") != Ok(t) {
      BearerTokenExactly("Bearer a b", t);
      if "Bearer a b" == "Bearer " + t {
        assert t == "Bearer a b"[7..];
        assert t[1] == ' ';
      }
    }
  }

  /** A double space yields an empty middle part and is refused. */
  lemma BearerTokenRefusesDoubleSpace()
    ensures BearerToken("Bearer  abc").Err?
  {
    forall t ensures BearerToken("Bearer  abc") != Ok(t) {
      BearerTokenExactly("Bearer  abc", t);
      if "Bearer  abc" == "Bearer " + t {
        assert t == "Bearer  abc"[7..];
        assert t[0] == ' ';
      }
    }
  }

  /** What the JWT library reports about a token string: a parse or signature error,
      a parsed token that is not valid, or valid claims. */
  datatype TokenCheck = ParseFailed | ClaimsInvalid | Verified(claims: Claims)

  /** AuthMiddleware: the identity (user id and role from the claims) the next handler
      receives, or the 401 response that ends the request. */
  function Authenticate(header: string, checkToken: string -> TokenCheck): (r: Result<Claims>)
    ensures r.Ok? <==> BearerToken(header).Ok? && checkToken(BearerToken(header).value).Verified?
    ensures r.Ok? ==> r.value == checkToken(BearerToken(header).value).claims
    ensures r.Err? ==> r.status == StatusUnauthorized
  {
    match BearerToken(header)
    case Err(status, message) => Err(status, message)
    case Ok(token) =>
      match checkToken(token)
      case ParseFailed => Err(StatusUnauthorized, "Invalid token")
      case ClaimsInvalid => Err(StatusUnauthorized, "Invalid token claims")
      case Verified(claims) => Ok(claims)
  }

  /** A request gets through exactly when its header carries, after "Bearer ", a token
      the JWT check verifies; the identity passed on is that token's claims. */
  lemma AuthenticatedExactly(header: string, checkToken: string -> TokenCheck, claims: Claims)
    ensures Authenticate(header, checkToken) == Ok(claims) <==>
            exists token :: header == "Bearer " + token && ' ' !in token && checkToken(token) == Verified(claims)
  {
    if Authenticate(header, checkToken) == Ok(claims) {
      var token := BearerToken(header).value;
      BearerTokenExactly(header, token);
    }
    if exists token :: header == "Bearer " + token && ' ' !in token && checkToken(token) == Verified(claims) {
      var token :| header == "Bearer " + token && ' ' !in token && checkToken(token) == Verified(claims);
      BearerTokenExactly(header, token);
    }
  }

  /** AdminMiddleware: role "admin" passes the identity through unchanged; any other role
      is refused with 403. */
  function AdminGate(caller: Claims): (r: Result<Claims>)
    ensures r.Ok? <==> caller.role == RoleAdmin
    ensures r.Ok? ==> r.value == caller
    ensures r.Err? ==> r == Err(StatusForbidden, "Admin access required")
  {
    if caller.role != RoleAdmin then Err(StatusForbidden, "Admin access required") else Ok(caller)
  }
}
