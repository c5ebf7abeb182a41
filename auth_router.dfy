/**
 * The alternative auth router (routes/auth.js), over the user collection and the typed
 * Token collection: register with an e-mail verification token, verify-email, login with
 * the optional verification gate, forgot-password and reset-password with reset tokens.
 * Token values are `genTokenHex` of the given random bytes; the clock is `now` in
 * milliseconds; hashing, comparison and mail delivery are inputs.
 */
module AuthRouter {
  import opened Wrappers
  import opened JsStrings
  import opened Codes
  import opened Records
  import opened Stores
  import opened LoginHelpers

  /** One hour, in milliseconds: the lifetime of both kinds of token. */
  const TokenLifetime := 1000 * 60 * 60
  const InvalidCredentials := Response(400, "Invalid credentials")
  const ServerError := Response(500, "Server error")
  const BadToken := Response(400, "Invalid or expired token")
  const NoSuchUser := Response(404, "User not found")
  const ResetLinkReply := Response(200, "If the email exists we sent a reset link")

  /** Every token belongs to an id the user collection has already handed out. */
  ghost predicate TokensOfIssuedIds(users: UserStore, tokens: TokenStore)
    reads users, tokens
  {
    forall k :: 0 <= k < |tokens.tokens| ==> tokens.tokens[k].userId < users.nextId
  }

  ghost predicate Valid(users: UserStore, tokens: TokenStore)
    reads users, tokens
  {
    users.Valid() && tokens.Valid() && TokensOfIssuedIds(users, tokens)
  }

  /**
   * POST /register. Both fields are required and the lower-cased e-mail must be new; then
   * one user and one verify token for that user (valid for an hour) are created. A failed
   * verification mail is a 500, but the user and the token stay.
   */
  method Register(users: UserStore, tokens: TokenStore, email: Option<string>, password: Option<string>,
                  name: Option<string>, now: int, randomBytes: seq<Byte>, mailSent: bool, hash: string -> string)
    returns (resp: Response)
    requires Valid(users, tokens) && |randomBytes| == 16
    modifies users, tokens
    ensures Valid(users, tokens)
    ensures !Truthy(email) || !Truthy(password) ==>
      resp == Response(400, "Email and password required") && unchanged(users) && unchanged(tokens)
    ensures Truthy(email) && Truthy(password) && FindUserByEmail(old(users.users), ToLower(email.value)).Some? ==>
      resp == Response(400, "User already exists") && unchanged(users) && unchanged(tokens)
    ensures Truthy(email) && Truthy(password) && FindUserByEmail(old(users.users), ToLower(email.value)).None? ==>
      var id := old(users.nextId);
      && users.users == old(users.users) + [NewUser(id, email.value, hash(password.value), Or(name, ""))]
      && users.nextId == id + 1
      && tokens.tokens == old(tokens.tokens) + [Token(id, TokenHex(randomBytes), Verify, now + TokenLifetime)]
      && resp == if mailSent then Response(201, "User registered successfully. Verification email sent.") else ServerError
  {
    if !Truthy(email) || !Truthy(password) {
      return Response(400, "Email and password required");
    }
    if FindUserByEmail(users.users, ToLower(email.value)).Some? {
      return Response(400, "User already exists");
    }
    var id := users.Add(email.value, hash(password.value), Or(name, ""));
    assert forall k :: 0 <= k < |tokens.tokens| ==> tokens.tokens[k].userId < id;
    tokens.Create(Token(id, TokenHex(randomBytes), Verify, now + TokenLifetime));
    assert TokensOfIssuedIds(users, tokens);
    resp := if mailSent then Response(201, "User registered successfully. Verification email sent.") else ServerError;
  }

  /**
   * POST /verify-email. Only a verify token is looked up. A missing or expired one is a
   * 400 (the expired one is deleted); a token whose user is gone is a 404 and stays; on
   * success the owner becomes verified and the token is consumed, so the owner has no
   * verify token left.
   */
  method VerifyEmail(users: UserStore, tokens: TokenStore, token: Option<string>, now: int)
    returns (resp: Response)
    requires Valid(users, tokens)
    modifies users, tokens
    ensures Valid(users, tokens)
    ensures !Truthy(token) ==> resp == Response(400, "Token required") && unchanged(users) && unchanged(tokens)
    ensures Truthy(token) ==>
      var found := FindToken(old(tokens.tokens), token.value, Verify);
      && (found.None? ==> resp == BadToken && unchanged(users) && unchanged(tokens))
      && (found.Some? && old(tokens.tokens)[found.value].expiresAt < now ==>
            resp == BadToken && unchanged(users) && tokens.tokens == RemoveAt(old(tokens.tokens), found.value))
      && (found.Some? && !(old(tokens.tokens)[found.value].expiresAt < now) ==>
            var t := old(tokens.tokens)[found.value];
            var owner := FindUserById(old(users.users), Some(t.userId));
            && (owner.None? ==> resp == NoSuchUser && unchanged(users) && unchanged(tokens))
            && (owner.Some? ==>
                  && resp == Response(200, "Email verified")
                  && users.users == old(users.users)[owner.value := old(users.users)[owner.value].(isVerified := true)]
                  && users.nextId == old(users.nextId)
                  && tokens.tokens == RemoveAt(old(tokens.tokens), found.value)
                  && forall k :: 0 <= k < |tokens.tokens| ==> !(tokens.tokens[k].userId == t.userId && tokens.tokens[k].kind == Verify)))
  {
    if !Truthy(token) {
      return Response(400, "Token required");
    }
    var found := FindToken(tokens.tokens, token.value, Verify);
    if found.None? {
      return BadToken;
    }
    var t := tokens.tokens[found.value];
    if t.expiresAt < now {
      tokens.DeleteAt(found.value);
      return BadToken;
    }
    var owner := FindUserById(users.users, Some(t.userId));
    if owner.None? {
      return NoSuchUser;
    }
    users.Replace(owner.value, users.users[owner.value].(isVerified := true));
    NoTokenLeftAfterDelete(tokens.tokens, found.value);
    tokens.DeleteAt(found.value);
    resp := Response(200, "Email verified");
  }

  /** Deleting a user's token of some kind leaves that user none of that kind. */
  lemma NoTokenLeftAfterDelete(tokens: seq<Token>, i: nat)
    requires OnePerUserAndKind(tokens) && i < |tokens|
    ensures forall k :: 0 <= k < |RemoveAt(tokens, i)| ==>
      !(RemoveAt(tokens, i)[k].userId == tokens[i].userId && RemoveAt(tokens, i)[k].kind == tokens[i].kind)
  {
    var rest := RemoveAt(tokens, i);
    forall k | 0 <= k < |rest| ensures !(rest[k].userId == tokens[i].userId && rest[k].kind == tokens[i].kind) {
      if k < i {
        assert rest[k] == tokens[k];
      } else {
        assert rest[k] == tokens[k + 1];
      }
    }
  }

  /** What this router's login replies with; the token is represented by the claim it signs. */
  datatype LoginReply = Session(claim: Claim, role: string, location: string) | Refused(response: Response)

  /**
   * POST /login. No admin shortcut. With REQUIRE_EMAIL_VERIFICATION set to "true" an
   * unverified user is refused before the password is checked; an unknown e-mail and a
   * wrong password get the same reply; success records the address and location.
   */
  method Login(users: UserStore, requireVerification: Option<string>, email: Option<string>, password: Option<string>,
               origin: Origin, geo: Option<Geo>, compare: (string, string) -> bool)
    returns (r: LoginReply)
    requires users.Valid()
    modifies users
    ensures users.Valid() && users.nextId == old(users.nextId)
    ensures email.None? ==> r == Refused(ServerError) && unchanged(users)
    ensures email.Some? ==>
      var found := FindUserByEmail(old(users.users), ToLower(email.value));
      && (found.None? ==> r == Refused(InvalidCredentials) && unchanged(users))
      && (found.Some? ==>
            var u := old(users.users)[found.value];
            var gated := requireVerification == Some("true") && !u.isVerified;
            && (gated ==> r == Refused(Response(403, "Please verify your email before logging in")) && unchanged(users))
            && (!gated && password.None? ==> r == Refused(ServerError) && unchanged(users))
            && (!gated && password.Some? && !compare(password.value, u.password) ==>
                  r == Refused(InvalidCredentials) && unchanged(users))
            && (!gated && password.Some? && compare(password.value, u.password) ==>
                  var ip := RouterClientIp(origin);
                  && r == Session(Claim(Some(u.id), Some(u.email), None), Or(Some(u.role), "user"), RouterLocation(geo))
                  && users.users == old(users.users)[found.value := u.(lastIp := ip, location := Some(RouterLocation(geo)))]))
  {
    if email.None? {
      return Refused(ServerError);
    }
    var found := FindUserByEmail(users.users, ToLower(email.value));
    if found.None? {
      return Refused(InvalidCredentials);
    }
    var u := users.users[found.value];
    if requireVerification == Some("true") && !u.isVerified {
      return Refused(Response(403, "Please verify your email before logging in"));
    }
    if password.None? {
      return Refused(ServerError);
    }
    if !compare(password.value, u.password) {
      return Refused(InvalidCredentials);
    }
    var ip := RouterClientIp(origin);
    var location := RouterLocation(geo);
    users.Replace(found.value, u.(lastIp := ip, location := Some(location)));
    r := Session(Claim(Some(u.id), Some(u.email), None), Or(Some(u.role), "user"), location);
  }

  /**
   * POST /forgot-password. An unknown e-mail gets the same 200 as a known one and changes
   * nothing; for a known user every reset token of that user is replaced by one new token
   * valid for an hour (kept even when the mail fails).
   */
  method ForgotPassword(users: UserStore, tokens: TokenStore, email: Option<string>, now: int,
                        randomBytes: seq<Byte>, mailSent: bool)
    returns (resp: Response)
    requires Valid(users, tokens) && |randomBytes| == 20
    modifies tokens
    ensures Valid(users, tokens)
    ensures !Truthy(email) ==> resp == Response(400, "Email required") && unchanged(tokens)
    ensures Truthy(email) && FindUserByEmail(users.users, ToLower(email.value)).None? ==>
      resp == ResetLinkReply && unchanged(tokens)
    ensures Truthy(email) && FindUserByEmail(users.users, ToLower(email.value)).Some? ==>
      var id := users.users[FindUserByEmail(users.users, ToLower(email.value)).value].id;
      && tokens.tokens == DropTokensOf(old(tokens.tokens), id, Reset) + [Token(id, TokenHex(randomBytes), Reset, now + TokenLifetime)]
      && resp == if mailSent then ResetLinkReply else ServerError
  {
    if !Truthy(email) {
      return Response(400, "Email required");
    }
    var found := FindUserByEmail(users.users, ToLower(email.value));
    if found.None? {
      return ResetLinkReply;
    }
    var id := users.users[found.value].id;
    tokens.DeleteAllOf(id, Reset);
    tokens.Create(Token(id, TokenHex(randomBytes), Reset, now + TokenLifetime));
    resp := if mailSent then ResetLinkReply else ServerError;
  }

  /**
   * POST /reset-password. Both fields are required; only a reset token is looked up; an
   * absent or expired one is a 400 (the expired one is deleted); a token whose user is gone
   * is a 404; on success the password becomes the digest of the new one and the token is
   * consumed, so the owner has no reset token left.
   */
  method ResetPassword(users: UserStore, tokens: TokenStore, token: Option<string>, newPassword: Option<string>,
                       now: int, hash: string -> string)
    returns (resp: Response)
    requires Valid(users, tokens)
    modifies users, tokens
    ensures Valid(users, tokens)
    ensures !Truthy(token) || !Truthy(newPassword) ==>
      resp == Response(400, "Token and newPassword required") && unchanged(users) && unchanged(tokens)
    ensures Truthy(token) && Truthy(newPassword) ==>
      var found := FindToken(old(tokens.tokens), token.value, Reset);
      && (found.None? ==> resp == BadToken && unchanged(users) && unchanged(tokens))
      && (found.Some? && old(tokens.tokens)[found.value].expiresAt < now ==>
            resp == BadToken && unchanged(users) && tokens.tokens == RemoveAt(old(tokens.tokens), found.value))
      && (found.Some? && !(old(tokens.tokens)[found.value].expiresAt < now) ==>
            var t := old(tokens.tokens)[found.value];
            var owner := FindUserById(old(users.users), Some(t.userId));
            && (owner.None? ==> resp == NoSuchUser && unchanged(users) && unchanged(tokens))
            && (owner.Some? ==>
                  && resp == Response(200, "Password has been reset")
                  && users.users == old(users.users)[owner.value := old(users.users)[owner.value].(password := hash(newPassword.value))]
                  && users.nextId == old(users.nextId)
                  && tokens.tokens == RemoveAt(old(tokens.tokens), found.value)
                  && forall k :: 0 <= k < |tokens.tokens| ==> !(tokens.tokens[k].userId == t.userId && tokens.tokens[k].kind == Reset)))
  {
    if !Truthy(token) || !Truthy(newPassword) {
      return Response(400, "Token and newPassword required");
    }
    var found := FindToken(tokens.tokens, token.value, Reset);
    if found.None? {
      return BadToken;
    }
    var t := tokens.tokens[found.value];
    if t.expiresAt < now {
      tokens.DeleteAt(found.value);
      return BadToken;
    }
    var owner := FindUserById(users.users, Some(t.userId));
    if owner.None? {
      return NoSuchUser;
    }
    users.Replace(owner.value, users.users[owner.value].(password := hash(newPassword.value)));
    NoTokenLeftAfterDelete(tokens.tokens, found.value);
    tokens.DeleteAt(found.value);
    resp := Response(200, "Password has been reset");
  }

  /**
   * The kinds do not stand in for each other: when every token with a value is a reset
   * token, verify-email with that value finds nothing, and conversely for reset-password.
   */
  lemma KindsNotInterchangeable(tokens: seq<Token>, value: string, kind: TokenKind, other: TokenKind)
    requires kind != other
    requires forall k :: 0 <= k < |tokens| && tokens[k].value == value ==> tokens[k].kind == kind
    ensures FindToken(tokens, value, other).None?
    ensures FindToken(tokens, value, kind).Some? <==> exists k :: 0 <= k < |tokens| && tokens[k].value == value
  {
  }

  /**
   * Replaying a consumed token fails: once the only token with that value and kind is
   * deleted, the lookup finds nothing.
   */
  lemma ConsumedTokenIsGone(tokens: seq<Token>, value: string, kind: TokenKind, i: nat)
    requires FindToken(tokens, value, kind) == Some(i)
    requires forall k :: 0 <= k < |tokens| && k != i ==> !(tokens[k].value == value && tokens[k].kind == kind)
    ensures FindToken(RemoveAt(tokens, i), value, kind).None?
  {
    var rest := RemoveAt(tokens, i);
    forall k | 0 <= k < |rest| ensures !(rest[k].value == value && rest[k].kind == kind) {
      if k < i {
        assert rest[k] == tokens[k];
      } else {
        assert rest[k] == tokens[k + 1];
      }
    }
  }
}
