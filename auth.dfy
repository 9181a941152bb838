/** The authentication middleware: `protect` reads the bearer token from the
    Authorization header, verifies it and loads the user it names; `authorize`
    lets through only callers whose role is one of the allowed roles. */
module Auth {
  import opened Common
  import opened Store

  const Scheme := "Bearer"
  const NoToken := "No token, authorization denied"
  const InvalidToken := "Token is not valid"
  const UserNotFound := "User not found"
  const AccessDenied := "Access denied. You do not have permission."

  /** What a middleware does with a request: hand it on with `req.user` set,
      or answer it with an error. */
  datatype Verdict = Pass(caller: Caller) | Reject(status: nat, message: string)

  /** The pieces joined back together with single spaces. */
  function Join(pieces: seq<string>): string
    requires |pieces| >= 1
  {
    if |pieces| == 1 then pieces[0] else pieces[0] + " " + Join(pieces[1..])
  }

  /** `s.split(" ")`: the maximal space-free pieces between single spaces, so
      that two spaces in a row leave an empty piece between them. */
  function Split(s: string): (pieces: seq<string>)
    ensures |pieces| >= 1
    ensures forall i :: 0 <= i < |pieces| ==> ' ' !in pieces[i]
    ensures Join(pieces) == s
  {
    if |s| == 0 then [""]
    else
      var rest := Split(s[1..]);
      if s[0] == ' ' then
        assert ([""] + rest)[1..] == rest;
        [""] + rest
      else
        var pieces := [[s[0]] + rest[0]] + rest[1..];
        assert pieces[1..] == rest[1..];
        assert Join(pieces) == [s[0]] + Join(rest) by {
          if |rest| > 1 {
            assert Join(rest) == rest[0] + " " + Join(rest[1..]);
            assert Join(pieces) == ([s[0]] + rest[0]) + " " + Join(rest[1..]);
          }
        }
        assert s == [s[0]] + s[1..];
        pieces
  }

  /** The token `protect` goes on with: the second piece of the header when
      the header starts with "Bearer" and that piece is not empty. */
  function ExtractToken(authorization: Option<string>): (token: Option<string>)
    ensures token.Some? ==> authorization.Some? && Scheme <= authorization.value
    ensures token.Some? ==> token.value != "" && ' ' !in token.value
  {
    if authorization.Some? && Scheme <= authorization.value then
      var pieces := Split(authorization.value);
      if |pieces| > 1 && pieces[1] != "" then Some(pieces[1]) else None
    else None
  }

  /** `protect`: 401 when no token can be read from the header, 401 when the
      token does not verify, 404 when it names no stored user, and otherwise
      the request goes on with that user attached. `verify` stands for
      `jwt.verify` with the process's secret, giving the `userId` a valid
      token carries. */
  method Protect(authorization: Option<string>, verify: string -> Option<Id>, users: map<Id, User>)
    returns (r: Verdict)
    ensures ExtractToken(authorization).None? ==> r == Reject(401, NoToken)
    ensures ExtractToken(authorization).Some? && verify(ExtractToken(authorization).value).None? ==>
      r == Reject(401, InvalidToken)
    ensures ExtractToken(authorization).Some? && verify(ExtractToken(authorization).value).Some? ==>
      var id := verify(ExtractToken(authorization).value).value;
      r == if id in users then Pass(Caller(id, users[id])) else Reject(404, UserNotFound)
  {
    var token: Option<string> := None;
    if authorization.Some? && Scheme <= authorization.value {
      var pieces := Split(authorization.value);
      token := if |pieces| > 1 then Some(pieces[1]) else None;
    }
    if !TruthyString(token) {
      return Reject(401, NoToken);
    }
    var decoded := verify(token.value);
    if decoded.None? {
      return Reject(401, InvalidToken);
    }
    var id := decoded.value;
    if id !in users {
      return Reject(404, UserNotFound);
    }
    r := Pass(Caller(id, users[id]));
  }

  /** `roles.includes(role)`: a scan of the allowed roles. */
  function Includes(roles: seq<string>, role: string): (found: bool)
    ensures found <==> role in roles
  {
    if |roles| == 0 then false
    else roles[0] == role || Includes(roles[1..], role)
  }

  /** `authorize(...roles)`: 403 exactly when the caller's role is not one of
      `roles`; otherwise the request goes on unchanged. */
  function Authorize(roles: seq<string>, caller: Caller): (v: Verdict)
    ensures v == Pass(caller) <==> caller.user.role in roles
    ensures v != Pass(caller) ==> v == Reject(403, AccessDenied)
  {
    if !Includes(roles, caller.user.role) then Reject(403, AccessDenied) else Pass(caller)
  }

  /** Splitting after a space-free first word gives that word, then the
      pieces of what follows the space. */
  lemma {:induction false} SplitAfterWord(p: string, q: string)
    requires ' ' !in p
    ensures Split(p + " " + q) == [p] + Split(q)
  {
    if p == "" {
      assert p + " " + q == " " + q;
      assert (" " + q)[1..] == q;
    } else {
      SplitAfterWord(p[1..], q);
      assert (p + " " + q)[1..] == p[1..] + " " + q;
      assert [p[0]] + p[1..] == p;
    }
  }

  /** The first piece of a string is its space-free start up to the first
      space. */
  lemma {:induction false} SplitFirstPiece(t: string, rest: string)
    requires ' ' !in t
    requires rest == "" || rest[0] == ' '
    ensures Split(t + rest)[0] == t
  {
    if t == "" {
      assert t + rest == rest;
    } else {
      SplitFirstPiece(t[1..], rest);
      assert (t + rest)[1..] == t[1..] + rest;
      assert [t[0]] + t[1..] == t;
    }
  }

  /** A space-free start of a string is the start of its first piece. */
  lemma {:induction false} SplitAfterPrefix(a: string, x: string)
    requires ' ' !in a
    ensures Split(a + x)[0] == a + Split(x)[0]
  {
    if a == "" {
      assert a + x == x;
    } else {
      SplitAfterPrefix(a[1..], x);
      assert (a + x)[1..] == a[1..] + x;
      assert [a[0]] + (a[1..] + Split(x)[0]) == a + Split(x)[0];
    }
  }

  /** A header made of a first word starting with "Bearer", a space, a
      space-free word and either nothing or a space and more yields that second
      word as the token, or no token when the word is empty. */
  lemma TokenIsSecondWord(p: string, t: string, rest: string)
    requires Scheme <= p && ' ' !in p && ' ' !in t
    requires rest == "" || rest[0] == ' '
    ensures ExtractToken(Some(p + " " + t + rest)) == if t == "" then None else Some(t)
  {
    var h := p + " " + t + rest;
    assert h == p + " " + (t + rest);
    assert h[..|Scheme|] == p[..|Scheme|];
    SplitAfterWord(p, t + rest);
    SplitFirstPiece(t, rest);
  }

  /** Conversely, every token `protect` reads is such a second word. */
  lemma TokenLocated(h: string)
    requires ExtractToken(Some(h)).Some?
    ensures var t := ExtractToken(Some(h)).value;
      exists p, rest :: h == p + " " + t + rest && Scheme <= p && ' ' !in p && (rest == "" || rest[0] == ' ')
  {
    var pieces := Split(h);
    var p, t := pieces[0], pieces[1];
    var rest := if |pieces| > 2 then " " + Join(pieces[2..]) else "";
    assert Join(pieces[1..]) == t + rest by {
      assert pieces[1..][1..] == pieces[2..];
    }
    assert h == p + " " + t + rest;
    var x := h[|Scheme|..];
    assert h == Scheme + x;
    SplitAfterPrefix(Scheme, x);
    assert p == Scheme + Split(x)[0];
    assert h == p + " " + t + rest && Scheme <= p && ' ' !in p && (rest == "" || rest[0] == ' ');
  }

  /** A header with no space in it yields no token. */
  lemma NoSpaceNoToken(h: string)
    requires ' ' !in h
    ensures ExtractToken(Some(h)) == None
  {
  }

  /** "Bearer" alone has no second piece, so it gives no token. */
  lemma SchemeAloneNoToken()
    ensures ExtractToken(Some("Bearer")) == None
  {
    NoSpaceNoToken("Bearer");
  }

  /** Two spaces after the scheme leave an empty second piece: no token. */
  lemma DoubleSpaceNoToken()
    ensures ExtractToken(Some("Bearer  x")) == None
  {
    TokenIsSecondWord("Bearer", "", " x");
    assert "Bearer" + " " + "" + " x" == "Bearer  x";
  }

  /** The token ends at the next space. */
  lemma TokenStopsAtSpace()
    ensures ExtractToken(Some("Bearer abc def")) == Some("abc")
  {
    TokenIsSecondWord("Bearer", "abc", " def");
    assert "Bearer" + " " + "abc" + " def" == "Bearer abc def";
  }

  /** The scheme is matched without its trailing space. */
  lemma SchemeWithoutSpace()
    ensures ExtractToken(Some("BearerX tok")) == Some("tok")
  {
    TokenIsSecondWord("BearerX", "tok", "");
    assert "BearerX" + " " + "tok" + "" == "BearerX tok";
  }

  /** The scheme is matched case-sensitively, and other schemes give no token. */
  lemma OtherSchemesNoToken()
    ensures ExtractToken(Some("bearer abc")) == None
    ensures ExtractToken(Some("Basic abc")) == None
  {
    assert "bearer abc"[0] != Scheme[0];
    assert "Basic abc"[1] != Scheme[1];
  }

  /** An admin-only route: a caller whose role is not "admin" is answered 403
      before any handler runs. */
  lemma AdminOnly(caller: Caller)
    ensures Authorize(["admin"], caller).Pass? <==> caller.user.role == "admin"
    ensures caller.user.role != "admin" ==> Authorize(["admin"], caller) == Reject(403, AccessDenied)
  {
  }
}
