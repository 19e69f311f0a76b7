/** The bearer-token middleware (validateUserToken) and the wrapper the token
    helper puts around the JWT library's verify.

    Pulling the token out of the Authorization header is pure string work
    (startsWith, then split(" ")[1]) and is modelled by functions.  The
    decision the middleware takes is the function Authenticate; the method
    Exchange.ValidateUserToken carries it out step by step against the
    request/response pair it is handed.  The JWT library itself is a
    parameter: whatever verifyToken returns or throws. */
module AuthMiddleware {
  import opened Http

  /** The identity a signed token carries (the token helper signs its id and
      email). */
  datatype Claims = Claims(id: string, email: string)

  /** What verifyToken hands back when it does not throw: a falsy value, or a
      decoded identity. */
  datatype Decoded = Falsy | Truthy(claims: Claims)

  /** What the middleware's catch block receives: any thrown value, whose
      statusCode and message may be missing. */
  datatype Caught = Caught(message: Option<string>, statusCode: Option<nat>)

  /** An HttpException as seen by a catch block: both fields present. */
  function Thrown(e: HttpException): Caught
  {
    Caught(Some(e.message), Some(e.statusCode))
  }

  /** The JSON error response the middleware writes: {success, message}. */
  datatype ErrorResponse = ErrorResponse(status: nat, success: bool, message: string)

  /** The catch block: the thrown status, else 401; the thrown message, else
      UNAUTHORIZED_ACCESS; always success = false. */
  function Respond(err: Caught): (r: ErrorResponse)
    ensures !r.success
    ensures err.statusCode.None? ==> r.status == UNAUTHORIZED
    ensures err.statusCode.Some? ==> r.status == err.statusCode.value
    ensures err.message.None? ==> r.message == UNAUTHORIZED_ACCESS
    ensures err.message.Some? ==> r.message == err.message.value
  {
    var status := match err.statusCode case Some(c) => c case None => UNAUTHORIZED;
    var message := match err.message case Some(m) => m case None => UNAUTHORIZED_ACCESS;
    ErrorResponse(status, false, message)
  }

  // ---------------------------------------------------------------------
  // Header parsing

  const BEARER: string := "Bearer"

  /** JavaScript's s.split(sep) for a one-character separator: the pieces
      between separators, including empty ones. */
  function Split(s: string, sep: char): (fields: seq<string>)
    ensures |fields| >= 1
    ensures forall i :: 0 <= i < |fields| ==> sep !in fields[i]
    decreases |s|
  {
    if s == [] then [""]
    else
      var rest := Split(s[1..], sep);
      if s[0] == sep then [""] + rest
      else [[s[0]] + rest[0]] + rest[1..]
  }

  /** fields.join(sep): the inverse of Split. */
  function Join(fields: seq<string>, sep: char): string
    requires |fields| >= 1
    decreases |fields|
  {
    if |fields| == 1 then fields[0] else fields[0] + [sep] + Join(fields[1..], sep)
  }

  /** Splitting a string that starts with a separator-free prefix `a` puts `a`
      in front of the first field. */
  lemma {:induction false} SplitPrefix(a: string, rest: string, sep: char)
    requires sep !in a
    ensures Split(a + rest, sep) == [a + Split(rest, sep)[0]] + Split(rest, sep)[1..]
    decreases |a|
  {
    if a == [] {
      assert a + rest == rest;
      var fields := Split(rest, sep);
      assert a + fields[0] == fields[0];
      assert [fields[0]] + fields[1..] == fields;
    } else {
      assert (a + rest)[1..] == a[1..] + rest;
      SplitPrefix(a[1..], rest, sep);
      assert [a[0]] + (a[1..] + Split(rest, sep)[0]) == a + Split(rest, sep)[0];
    }
  }

  /** Joining the pieces of a split gives the string back. */
  lemma {:induction false} JoinSplit(s: string, sep: char)
    ensures Join(Split(s, sep), sep) == s
    decreases |s|
  {
    if s != [] {
      JoinSplit(s[1..], sep);
      var rest := Split(s[1..], sep);
      if s[0] != sep {
        if |rest| > 1 {
          assert (Split(s, sep))[1..] == rest[1..];
        }
      }
    }
  }

  /** Splitting the join of separator-free pieces gives the pieces back. */
  lemma {:induction false} SplitJoin(fields: seq<string>, sep: char)
    requires |fields| >= 1
    requires forall i :: 0 <= i < |fields| ==> sep !in fields[i]
    ensures Split(Join(fields, sep), sep) == fields
    decreases |fields|
  {
    if |fields| == 1 {
      SplitPrefix(fields[0], "", sep);
      assert fields[0] + "" == fields[0];
    } else {
      var tail := Join(fields[1..], sep);
      SplitJoin(fields[1..], sep);
      SplitPrefix(fields[0], [sep] + tail, sep);
      assert fields[0] + [sep] + tail == fields[0] + ([sep] + tail);
      assert ([sep] + tail)[1..] == tail;
      assert Split([sep] + tail, sep) == [""] + Split(tail, sep);
      assert fields[0] + "" == fields[0];
      assert fields == [fields[0]] + fields[1..];
    }
  }

  /** A string splits into more than one field exactly when it holds the
      separator. */
  lemma {:induction false} SplitHasSecondField(s: string, sep: char)
    ensures |Split(s, sep)| >= 2 <==> sep in s
    decreases |s|
  {
    if s != [] {
      SplitHasSecondField(s[1..], sep);
      assert sep in s <==> s[0] == sep || sep in s[1..];
    }
  }

  /** split(" ")[1]: the second space-separated field, if there is one. */
  function SecondField(s: string): (r: Option<string>)
    ensures r.Some? <==> ' ' in s
    ensures r.Some? ==> ' ' !in r.value
  {
    SplitHasSecondField(s, ' ');
    var fields := Split(s, ' ');
    if |fields| >= 2 then Some(fields[1]) else None
  }

  /** The second field of w + " " + t + rest is t, when neither w nor t holds
      a space and rest is empty or starts with one. */
  lemma SecondFieldOf(w: string, t: string, rest: string)
    requires ' ' !in w && ' ' !in t
    requires rest == [] || rest[0] == ' '
    ensures SecondField(w + " " + t + rest) == Some(t)
  {
    assert w + " " + t + rest == w + (" " + (t + rest));
    SplitPrefix(w, " " + (t + rest), ' ');
    assert (" " + (t + rest))[1..] == t + rest;
    SplitPrefix(t, rest, ' ');
    assert Split(rest, ' ')[0] == "";
    assert t + "" == t;
  }

  predicate StartsWith(s: string, prefix: string)
  {
    prefix <= s
  }

  /** The token the middleware pulls out of the Authorization header: only
      when the header is present, non-empty and starts with "Bearer" (no
      trailing space is demanded), and then the second space-separated
      field, which may be empty. */
  function ExtractToken(header: Option<string>): (token: Option<string>)
    ensures token.Some? <==> header.Some? && StartsWith(header.value, BEARER) && ' ' in header.value
    ensures token.Some? ==> ' ' !in token.value
  {
    if header.Some? && header.value != "" && StartsWith(header.value, BEARER) then SecondField(header.value)
    else None
  }

  /** A well-formed header "Bearer<w> <t><rest>" yields exactly t. */
  lemma ExtractsSecondField(w: string, t: string, rest: string)
    requires ' ' !in w && ' ' !in t
    requires rest == [] || rest[0] == ' '
    ensures ExtractToken(Some(BEARER + w + " " + t + rest)) == Some(t)
  {
    assert BEARER + w + " " + t + rest == (BEARER + w) + " " + t + rest;
    SecondFieldOf(BEARER + w, t, rest);
    assert StartsWith(BEARER + w + " " + t + rest, BEARER);
  }

  // ---------------------------------------------------------------------
  // The decision

  datatype AuthOutcome = Proceed(user: Claims) | Reject(response: ErrorResponse)

  /** A present, non-empty token (`!accessToken` is false). */
  predicate HasToken(header: Option<string>)
  {
    ExtractToken(header).Some? && ExtractToken(header).value != ""
  }

  const Unauthenticated: ErrorResponse := ErrorResponse(UNAUTHORIZED, false, UNAUTHENTICATED_USER)
  const InvalidToken: ErrorResponse := ErrorResponse(FORBIDDEN, false, INVALID_TOKEN)

  /** validateUserToken: either proceed with the decoded identity or answer
      with an error response. */
  function Authenticate(header: Option<string>, verifyToken: string -> Result<Decoded, Caught>): (o: AuthOutcome)
    ensures !HasToken(header) ==> o == Reject(Unauthenticated)
    ensures o.Proceed? ==> HasToken(header) && verifyToken(ExtractToken(header).value) == Ok(Truthy(o.user))
    ensures HasToken(header) && verifyToken(ExtractToken(header).value).Ok? && verifyToken(ExtractToken(header).value).value.Truthy? ==>
              o == Proceed(verifyToken(ExtractToken(header).value).value.claims)
    ensures HasToken(header) && verifyToken(ExtractToken(header).value) == Ok(Falsy) ==> o == Reject(InvalidToken)
    ensures HasToken(header) && verifyToken(ExtractToken(header).value).Err? ==>
              o == Reject(Respond(verifyToken(ExtractToken(header).value).error))
    ensures o.Reject? ==> !o.response.success
  {
    var accessToken := ExtractToken(header);
    if accessToken.None? || accessToken.value == "" then
      Reject(Respond(Thrown(HttpException(UNAUTHENTICATED_USER, UNAUTHORIZED))))
    else
      match verifyToken(accessToken.value)
      case Err(caught) => Reject(Respond(caught))
      case Ok(Falsy) => Reject(Respond(Thrown(HttpException(INVALID_TOKEN, FORBIDDEN))))
      case Ok(Truthy(claims)) => Proceed(claims)
  }

  /** A missing header, or one not starting with "Bearer", is answered 401
      UNAUTHENTICATED_USER whatever verifyToken would do. */
  lemma MissingOrForeignHeaderIs401(header: Option<string>, verifyToken: string -> Result<Decoded, Caught>)
    requires header.None? || !StartsWith(header.value, BEARER)
    ensures Authenticate(header, verifyToken) == Reject(ErrorResponse(401, false, UNAUTHENTICATED_USER))
  {
  }

  /** "Bearer", "BearerX" and "Bearer  x" give no token or an empty one, and
      so a 401; "Bearer abc" and, since no space is demanded after the
      prefix, "BearerX abc" give the token "abc". */
  lemma BearerEdgeCases(verifyToken: string -> Result<Decoded, Caught>)
    ensures ExtractToken(Some("Bearer")) == None
    ensures ExtractToken(Some("BearerX")) == None
    ensures ExtractToken(Some("Bearer  x")) == Some("")
    ensures ExtractToken(Some("Bearer abc")) == Some("abc")
    ensures ExtractToken(Some("BearerX abc")) == Some("abc")
    ensures Authenticate(Some("Bearer"), verifyToken) == Reject(Unauthenticated)
    ensures Authenticate(Some("BearerX"), verifyToken) == Reject(Unauthenticated)
    ensures Authenticate(Some("Bearer  x"), verifyToken) == Reject(Unauthenticated)
  {
    assert ' ' !in "Bearer";
    assert ' ' !in "BearerX";
    assert "Bearer  x" == BEARER + "" + " " + "" + " x";
    ExtractsSecondField("", "", " x");
    assert "Bearer abc" == BEARER + "" + " " + "abc" + "";
    ExtractsSecondField("", "abc", "");
    assert "BearerX abc" == BEARER + "X" + " " + "abc" + "";
    ExtractsSecondField("X", "abc", "");
  }

  // ---------------------------------------------------------------------
  // The token helper's verify

  /** verifyToken: the library's verify either returns a value or throws, and
      a throw becomes INVALID_TOKEN / 403. */
  function VerifyToken(jwtVerify: string -> Option<Decoded>, token: string): (r: Result<Decoded, Caught>)
    ensures r.Err? <==> jwtVerify(token).None?
    ensures r.Err? ==> r.error == Thrown(HttpException(INVALID_TOKEN, FORBIDDEN))
    ensures r.Ok? ==> r.value == jwtVerify(token).value
  {
    match jwtVerify(token)
    case Some(decoded) => Ok(decoded)
    case None => Err(Thrown(HttpException(INVALID_TOKEN, FORBIDDEN)))
  }

  /** With the token helper in place, a token the library rejects, or one it
      decodes to a falsy value, is answered 403 INVALID_TOKEN. */
  lemma RejectedTokenIs403(header: Option<string>, jwtVerify: string -> Option<Decoded>)
    requires HasToken(header)
    requires jwtVerify(ExtractToken(header).value) in {None, Some(Falsy)}
    ensures Authenticate(header, token => VerifyToken(jwtVerify, token)) == Reject(ErrorResponse(403, false, INVALID_TOKEN))
  {
    var token := ExtractToken(header).value;
    var verify := (t: string) => VerifyToken(jwtVerify, t);
    assert verify(token) == VerifyToken(jwtVerify, token);
  }

  /** With the token helper in place, an accepted token proceeds with exactly
      the identity the library decoded. */
  lemma AcceptedTokenProceeds(header: Option<string>, jwtVerify: string -> Option<Decoded>, claims: Claims)
    requires HasToken(header)
    requires jwtVerify(ExtractToken(header).value) == Some(Truthy(claims))
    ensures Authenticate(header, token => VerifyToken(jwtVerify, token)) == Proceed(claims)
  {
    var token := ExtractToken(header).value;
    var verify := (t: string) => VerifyToken(jwtVerify, t);
    assert verify(token) == VerifyToken(jwtVerify, token);
  }

  // ---------------------------------------------------------------------
  // The middleware, acting on one request/response pair

  /** The parts of one request/response exchange the middleware touches: the
      Authorization header, res.locals.user, the response written, and how
      often next() was called. */
  class Exchange {
    const authorization: Option<string>
    var user: Option<Claims>
    var response: Option<ErrorResponse>
    var nextCalls: nat

    constructor (authorization: Option<string>)
      ensures this.authorization == authorization
      ensures user == None && response == None && nextCalls == 0
    {
      this.authorization := authorization;
      user := None;
      response := None;
      nextCalls := 0;
    }

    /** validateUserToken: on success binds res.locals.user and calls next()
        once without writing a response; otherwise writes the error response
        and does not call next(). */
    method ValidateUserToken(verifyToken: string -> Result<Decoded, Caught>)
      modifies this
      ensures match Authenticate(authorization, verifyToken)
              case Proceed(claims) =>
                user == Some(claims) && nextCalls == old(nextCalls) + 1 && response == old(response)
              case Reject(r) =>
                response == Some(r) && user == old(user) && nextCalls == old(nextCalls)
    {
      var accessToken: Option<string> := None;
      if authorization.Some? && authorization.value != "" && StartsWith(authorization.value, BEARER) {
        accessToken := SecondField(authorization.value);
      }
      if accessToken.None? || accessToken.value == "" {
        response := Some(Respond(Thrown(HttpException(UNAUTHENTICATED_USER, UNAUTHORIZED))));
        return;
      }
      var userData := verifyToken(accessToken.value);
      if userData.Err? {
        response := Some(Respond(userData.error));
        return;
      }
      if userData.value.Falsy? {
        response := Some(Respond(Thrown(HttpException(INVALID_TOKEN, FORBIDDEN))));
        return;
      }
      user := Some(userData.value.claims);
      nextCalls := nextCalls + 1;
    }
  }
}
