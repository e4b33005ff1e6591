/** The HTTP authentication middleware (middleware/auth.middleware.js):
    bearer-token extraction, the strict and the optional user lookup, and
    the admin gate. `jwt.verify` with the server secret and the `users`
    lookup by ObjectId are parameters: the model says what the middleware
    does with each of their outcomes, not how they arrive at them. */
module Auth {
  import opened Base
  import opened Users

  /** `s.split(' ')`: the pieces between single spaces, empty ones
      included; there is always at least one. */
  function Split(s: string): (fields: seq<string>)
    ensures |fields| >= 1
    ensures forall i :: 0 <= i < |fields| ==> ' ' !in fields[i]
    ensures |fields| == 1 <==> ' ' !in s
  {
    if s == [] then [""]
    else
      var rest := Split(s[1..]);
      if s[0] == ' ' then [""] + rest
      else [[s[0]] + rest[0]] + rest[1..]
  }

  /** `fields.join(' ')`. */
  function Join(fields: seq<string>): string
    requires |fields| >= 1
  {
    if |fields| == 1 then fields[0] else fields[0] + " " + Join(fields[1..])
  }

  lemma JoinConsChar(c: char, fields: seq<string>)
    requires |fields| >= 1
    ensures Join([[c] + fields[0]] + fields[1..]) == [c] + Join(fields)
  {
    var g := [[c] + fields[0]] + fields[1..];
    assert g[1..] == fields[1..];
  }

  /** Joining the pieces with single spaces gives back the string. */
  lemma {:induction false} JoinSplit(s: string)
    ensures Join(Split(s)) == s
  {
    if s != [] {
      var rest := Split(s[1..]);
      JoinSplit(s[1..]);
      if s[0] == ' ' {
        assert ([""] + rest)[1..] == rest;
        assert s == " " + s[1..];
      } else {
        JoinConsChar(s[0], rest);
        assert s == [s[0]] + s[1..];
      }
    }
  }

  /** Splitting a space-free prefix onto the rest glues it to the first
      piece of the rest. */
  lemma {:induction false} SplitSpaceFreePrefix(a: string, b: string)
    requires ' ' !in a
    ensures Split(a + b) == [a + Split(b)[0]] + Split(b)[1..]
  {
    if a == [] {
      var f := Split(b);
      assert a + b == b && a + f[0] == f[0];
      assert f == [f[0]] + f[1..];
    } else {
      assert (a + b)[0] == a[0] && (a + b)[1..] == a[1..] + b;
      assert a[0] in a;
      assert forall c :: c in a[1..] ==> c in a;
      SplitSpaceFreePrefix(a[1..], b);
      assert [a[0]] + (a[1..] + Split(b)[0]) == a + Split(b)[0];
    }
  }

  /** `header && header.startsWith('Bearer')`, then `header.split(' ')[1]`
      (middleware/auth.middleware.js:11-13, 55-57): `None` for no header,
      another scheme, or no second piece. */
  function ExtractBearer(header: Option<string>): (token: Option<string>)
    ensures token.Some? <==> Truthy(header) && "Bearer" <= header.value && ' ' in header.value
    ensures token.Some? ==> ' ' !in token.value && token.value == Split(header.value)[1]
  {
    if Truthy(header) && "Bearer" <= header.value then
      var fields := Split(header.value);
      if |fields| > 1 then Some(fields[1]) else None
    else None
  }

  /** The token is the text between the first and second space, whatever
      follows the word `Bearer` in the first piece. */
  lemma BearerTokenIsSecondPiece(scheme: string, t: string, rest: string)
    requires "Bearer" <= scheme && ' ' !in scheme && ' ' !in t
    requires rest == [] || rest[0] == ' '
    ensures ExtractBearer(Some(scheme + " " + t + rest)) == Some(t)
  {
    var x := t + rest;
    var h := scheme + (" " + x);
    assert scheme + " " + t + rest == h;
    assert Split(rest)[0] == "";
    SplitSpaceFreePrefix(t, rest);
    assert Split(x)[0] == t;
    assert Split(" " + x) == [""] + Split(x) by {
      assert (" " + x)[0] == ' ' && (" " + x)[1..] == x;
    }
    SplitSpaceFreePrefix(scheme, " " + x);
    assert Split(h)[1] == t;
    assert h[..|"Bearer"|] == scheme[..|"Bearer"|];
    assert "Bearer" <= h;
  }

  /** What `jwt.verify` does with a token: return an object payload (with
      or without a usable `id`), return a string, throw a
      `JsonWebTokenError`, or throw another error such as an expiry. */
  datatype Verified = PayloadObject(id: Option<string>) | PayloadString | InvalidSignature | OtherFailure

  /** What the `users` lookup does: find a user, find none, or throw (an id
      that is not an ObjectId, a database error). */
  datatype Lookup = Found(user: UserDoc) | NoUser | LookupThrows

  /** The message of each 401 the strict middleware passes on. */
  datatype Rejection = NotLoggedIn | InvalidPayload | UserGone | InvalidToken | AuthenticationFailed

  /** The strict middleware either attaches a user or passes a 401 on. */
  datatype AuthOutcome = Attach(user: UserDoc) | Reject(reason: Rejection)

  /** `authMiddleware` (middleware/auth.middleware.js:8-42). */
  function Authenticate(header: Option<string>, verify: string -> Verified, lookup: string -> Lookup): (r: AuthOutcome)
    ensures var token := ExtractBearer(header);
      r.Attach? <==>
        && Truthy(token)
        && verify(token.value).PayloadObject?
        && Truthy(verify(token.value).id)
        && lookup(verify(token.value).id.value).Found?
    ensures r.Attach? ==> r.user == lookup(verify(ExtractBearer(header).value).id.value).user
    ensures !Truthy(ExtractBearer(header)) ==> r == Reject(NotLoggedIn)
    ensures r == Reject(InvalidToken) <==> Truthy(ExtractBearer(header)) && verify(ExtractBearer(header).value) == InvalidSignature
  {
    var token := ExtractBearer(header);
    if !Truthy(token) then Reject(NotLoggedIn)
    else match verify(token.value)
      case InvalidSignature => Reject(InvalidToken)
      case OtherFailure => Reject(AuthenticationFailed)
      case PayloadString => Reject(InvalidPayload)
      case PayloadObject(id) =>
        if !Truthy(id) then Reject(InvalidPayload)
        else match lookup(id.value)
          case Found(user) => Attach(user)
          case NoUser => Reject(UserGone)
          case LookupThrows => Reject(AuthenticationFailed)
  }

  /** A well-formed header whose token verifies to a payload naming an
      existing user gets that user attached. */
  lemma BearerAuthenticates(t: string, verify: string -> Verified, lookup: string -> Lookup, id: string, user: UserDoc)
    requires t != "" && ' ' !in t && id != ""
    requires verify(t) == PayloadObject(Some(id)) && lookup(id) == Found(user)
    ensures Authenticate(Some("Bearer " + t), verify, lookup) == Attach(user)
  {
    BearerTokenIsSecondPiece("Bearer", t, "");
    assert "Bearer" + " " + t + "" == "Bearer " + t;
  }

  /** `optionalAuthMiddleware` (middleware/auth.middleware.js:52-91): the same
      chain, but every failure leaves `req.user` null and continues; it
      never passes an error on. */
  function OptionalAuthenticate(header: Option<string>, verify: string -> Verified, lookup: string -> Lookup): (user: Option<UserDoc>)
    ensures user.Some? <==> Authenticate(header, verify, lookup).Attach?
    ensures user.Some? ==> user.value == Authenticate(header, verify, lookup).user
  {
    var token := ExtractBearer(header);
    if !Truthy(token) then None
    else match verify(token.value)
      case PayloadObject(id) =>
        if !Truthy(id) then None
        else (match lookup(id.value)
          case Found(user) => Some(user)
          case _ => None)
      case _ => None
  }

  /** The user's role is `Admin` or `Super-Admin`. */
  predicate HoldsAdminRole(user: UserDoc) {
    "role" in user && user["role"].Text? && IsAdminRole(user["role"].text)
  }

  /** `adminOnly` (middleware/auth.middleware.js:44-49): `None` lets the
      request through, otherwise the error passed on. */
  function AdminOnly(user: Option<UserDoc>): (r: Option<Failure>)
    ensures r.None? <==> user.Some? && HoldsAdminRole(user.value)
    ensures r.Some? ==> r.value == Forbidden
  {
    if user.None? || !HoldsAdminRole(user.value) then Some(Forbidden) else None
  }

  /** An admin route (`authMiddleware` then `adminOnly`) admits a request
      exactly when its bearer token names an existing admin. */
  lemma AdminRouteGate(header: Option<string>, verify: string -> Verified, lookup: string -> Lookup)
    ensures var a := Authenticate(header, verify, lookup);
      a.Attach? && AdminOnly(Some(a.user)).None? <==>
        && Truthy(ExtractBearer(header))
        && verify(ExtractBearer(header).value).PayloadObject?
        && Truthy(verify(ExtractBearer(header).value).id)
        && lookup(verify(ExtractBearer(header).value).id.value).Found?
        && HoldsAdminRole(lookup(verify(ExtractBearer(header).value).id.value).user)
  {
  }
}
